/**
  One process of the Cygwin table, as a function of what `/proc` says about it:
  which fields are switched on and which arguments `bless_into_proc` is given.
 */
module ProcRecord {
  import opened Memory
  import opened Scanf
  import opened StatLine
  import opened StatusFile
  import opened Bless
  import opened CommandLines
  import opened ProcFiles

  const COMM_SIZE: nat := 255
  const STAT_ITEMS: nat := 23

  const DEFAULT_FORMAT := "IIISIIIILLLLLJJJJIJPLJJSIIIIIISSSSSAASI"
  const FIELD_NAMES: seq<seq<char>> := [
    "uid", "gid", "pid", "fname", "ppid", "pgrp", "sess", "ttynum", "flags", "minflt",
    "cminflt", "majflt", "cmajflt", "utime", "stime", "cutime", "cstime", "priority", "start", "size",
    "rss", "time", "ctime", "state", "euid", "suid", "fuid", "egid", "sgid", "fgid",
    "pctcpu", "pctmem", "cmndline", "exec", "cwd", "cmdline", "environ", "winexename", "winpid"]

  const N_FIELDS: nat := 39

  const F_UID: nat := 0
  const F_GID: nat := 1
  const F_PID: nat := 2
  const F_RSS: nat := 20
  const F_TIME: nat := 21
  const F_CTIME: nat := 22
  const F_STATE: nat := 23
  const F_EUID: nat := 24
  const F_FUID: nat := 26
  const F_EGID: nat := 27
  const F_FGID: nat := 29
  const F_PCTCPU: nat := 30
  const F_PCTMEM: nat := 31
  const F_CMNDLINE: nat := 32
  const F_EXEC: nat := 33
  const F_CWD: nat := 34
  const F_CMDLINE: nat := 35
  const F_ENVIRON: nat := 36
  const F_WINEXENAME: nat := 37
  const F_WINPID: nat := 38

  /** What the system says about one process. `exists_` is the answer of `access` when the stat file was bad. */
  datatype Proc = Proc(
    pid: seq<char>,
    owner: Option<(int, int)>,
    stat: File,
    exists_: bool,
    cmndline: File,
    cmdline: File,
    environ: File,
    cwd: Option<seq<char>>,
    exe: Option<seq<char>>,
    status: File,
    winexename: File,
    winpid: File,
    pctcpu: seq<char>,
    pctmem: seq<char>)

  /** Settings of the system: whether its memory size is known, and the unit conversions of `fixup_stat_values`. */
  datatype System = System(
    memoryKnown: bool,
    micros: int -> int,
    start: int -> int,
    bytes: int -> int,
    ttydevs: Option<map<seq<char>, seq<char>>>)

  /** The text functions on strings see of a file: everything before its first NUL. */
  function TextOf(file: File): seq<char>
    requires file.Reads?
  {
    CString(Content(file))
  }

  function StatOfFile(file: File): StatRecord {
    if Readable(file) then ParseStat(TextOf(file), COMM_SIZE, STAT_ITEMS)
    else StatRecord(0, [], None, [], false, false)
  }

  function StatOf(p: Proc): StatRecord {
    StatOfFile(p.stat)
  }

  /** The process went away between the directory listing and the reading of its stat file. */
  predicate Vanished(p: Proc) {
    !StatOf(p).readOk && !p.exists_
  }

  function IdsOfFile(file: File): Ids {
    if Readable(file) then ReadStatus(TextOf(file), false) else NO_IDS
  }

  function IdsOf(p: Proc): Ids {
    IdsOfFile(p.status)
  }

  function StateName(c: Option<char>): Option<seq<char>> {
    if c == Some('S') then Some("sleep")
    else if c == Some('O') || c == Some('R') then Some("run")
    else if c == Some('Z') then Some("defunct")
    else if c == Some('D') then Some("uwait")
    else if c == Some('T') then Some("stop")
    else None
  }

  function WinPidOfFile(file: File): Option<int> {
    if !Readable(file) then None
    else match ScanInt(TextOf(file))
      case None => None
      case Some(n) => Some(n.value)
  }

  function WinPid(p: Proc): Option<int> {
    WinPidOfFile(p.winpid)
  }

  predicate Between(a: nat, i: nat, b: nat) {
    a <= i <= b
  }

  /** The fields `field_enable_range` switches on. */
  function Range(a: nat, b: nat): set<nat> {
    set i: nat {:trigger Between(a, i, b)} | a <= i <= b && Between(a, i, b)
  }

  /** Which readers found what they were after. */
  datatype Switches = Switches(
    owner: bool, stat: bool, state: bool, uid: bool, gid: bool, memory: bool, cmndline: bool, exec: bool, cwd: bool,
    cmdline: bool, environ: bool, winexename: bool, winpid: bool)

  function SwitchesOf(p: Proc, sys: System): Switches {
    Switches(p.owner.Some?, StatOf(p).enabled, StateName(StatOf(p).state).Some?, IdsOf(p).hasUid, IdsOf(p).hasGid,
             sys.memoryKnown, Readable(p.cmndline), p.exe.Some?, p.cwd.Some?, Readable(p.cmdline), Readable(p.environ),
             Readable(p.winexename), WinPid(p).Some?)
  }

  /** Whether field `i` is switched on. */
  predicate IsOn(s: Switches, i: nat) {
    if i <= F_GID then s.owner
    else if i <= F_RSS then s.stat
    else if i <= F_CTIME then true
    else if i == F_STATE then s.state
    else if i <= F_FUID then s.uid
    else if i <= F_FGID then s.gid
    else if i == F_PCTCPU then true
    else if i == F_PCTMEM then s.memory
    else if i == F_CMNDLINE then s.cmndline
    else if i == F_EXEC then s.exec
    else if i == F_CWD then s.cwd
    else if i == F_CMDLINE then s.cmdline
    else if i == F_ENVIRON then s.environ
    else if i == F_WINEXENAME then s.winexename
    else i == F_WINPID && s.winpid
  }

  /** Every field switched on. */
  function FieldsOn(s: Switches): set<nat> {
    set i: nat | i <= F_WINPID && IsOn(s, i)
  }

  function Fields(p: Proc, sys: System): set<nat> {
    FieldsOn(SwitchesOf(p, sys))
  }

  function FileText(file: File): Option<seq<char>> {
    if Readable(file) then Some(Content(file)) else None
  }

  /** `struct procstat` when `bless_into_proc` is called, with what its pointers point at. */
  datatype View = View(
    uid: int, gid: int, stat: StatRecord, ids: Ids, winpid: int,
    cmndline: Option<seq<char>>, exec: Option<seq<char>>, cwd: Option<seq<char>>, winexename: Option<seq<char>>,
    cmdline: Option<seq<char>>, environ: Option<seq<char>>,
    pctcpu: seq<char>, pctmem: seq<char>)

  /** The command line with its NULs made spaces. */
  function CmndlineText(p: Proc): Option<seq<char>> {
    if Readable(p.cmndline) then Some(Spaced(Content(p.cmndline))) else None
  }

  /** What a reader of C strings sees of a text. */
  function StringOf(text: Option<seq<char>>): Option<seq<char>> {
    if text.Some? then Some(CString(text.value)) else None
  }

  /** The struct is zeroed before the owner is looked up. */
  function OwnerIds(owner: Option<(int, int)>): (int, int) {
    if owner.Some? then owner.value else (0, 0)
  }

  function ViewOf(p: Proc): View {
    View(OwnerIds(p.owner).0, OwnerIds(p.owner).1,
         StatOf(p), IdsOf(p), if WinPid(p).Some? then WinPid(p).value else 0,
         StringOf(CmndlineText(p)), StringOf(p.exe), StringOf(p.cwd), StringOf(FileText(p.winexename)),
         FileText(p.cmdline), FileText(p.environ), p.pctcpu, p.pctmem)
  }

  /** A pointer to a C string, null when there is none. */
  function PtrTo(s: Option<seq<char>>): Arg {
    if s.Some? then Ptr(s.value + [NUL]) else Ptr([])
  }

  function LengthOf(s: Option<seq<char>>): Arg {
    Num(if s.Some? then |s.value| else 0)
  }

  /** The `i`th number after the state letter; 0 when the conversions stopped before it. */
  function StatNum(s: StatRecord, i: nat): int {
    if i < |s.nums| then s.nums[i] else 0
  }

  const SLOTS: nat := 41

  /** The argument list of the call, slot by slot. */
  function ArgAt(v: View, sys: System, slot: nat): Arg {
    match slot
    case 0 => Num(v.uid)
    case 1 => Num(v.gid)
    case 2 => Num(v.stat.pid)
    case 3 => Ptr(v.stat.comm + [NUL])
    case 4 => Num(StatNum(v.stat, 0))
    case 5 => Num(StatNum(v.stat, 1))
    case 6 => Num(StatNum(v.stat, 2))
    case 7 => Num(StatNum(v.stat, 3))
    case 8 => Num(StatNum(v.stat, 5))
    case 9 => Num(StatNum(v.stat, 6))
    case 10 => Num(StatNum(v.stat, 7))
    case 11 => Num(StatNum(v.stat, 8))
    case 12 => Num(StatNum(v.stat, 9))
    case 13 => Num(sys.micros(StatNum(v.stat, 10)))
    case 14 => Num(sys.micros(StatNum(v.stat, 11)))
    case 15 => Num(sys.micros(StatNum(v.stat, 12)))
    case 16 => Num(sys.micros(StatNum(v.stat, 13)))
    case 17 => Num(StatNum(v.stat, 14))
    case 18 => Num(sys.start(StatNum(v.stat, 18)))
    case 19 => Num(StatNum(v.stat, 19))
    case 20 => Num(sys.bytes(StatNum(v.stat, 20)))
    case 21 => Num(sys.micros(StatNum(v.stat, 10)) + sys.micros(StatNum(v.stat, 11)))
    case 22 => Num(sys.micros(StatNum(v.stat, 12)) + sys.micros(StatNum(v.stat, 13)))
    case 23 => PtrTo(StateName(v.stat.state))
    case 24 => Num(v.ids.uid.effective)
    case 25 => Num(v.ids.uid.saved)
    case 26 => Num(v.ids.uid.fs)
    case 27 => Num(v.ids.gid.effective)
    case 28 => Num(v.ids.gid.saved)
    case 29 => Num(v.ids.gid.fs)
    case 30 => Ptr(v.pctcpu + [NUL])
    case 31 => Ptr(v.pctmem + [NUL])
    case 32 => PtrTo(v.cmndline)
    case 33 => PtrTo(v.exec)
    case 34 => PtrTo(v.cwd)
    case 35 => PtrTo(v.cmdline)
    case 36 => LengthOf(v.cmdline)
    case 37 => PtrTo(v.environ)
    case 38 => LengthOf(v.environ)
    case 39 => PtrTo(v.winexename)
    case _ => Num(v.winpid)
  }

  function Args(v: View, sys: System): seq<Arg> {
    seq(SLOTS, slot requires 0 <= slot < SLOTS => ArgAt(v, sys, slot))
  }

  /** The slot at which field `i` begins: after the two arrays there is one slot more each. */
  function SlotOfField(i: nat): nat {
    if i <= F_CMDLINE then i else if i == F_ENVIRON then i + 1 else i + 2
  }

  predicate IsTextField(i: nat) {
    i in {3, F_STATE, F_PCTCPU, F_PCTMEM, F_CMNDLINE, F_EXEC, F_CWD, F_WINEXENAME}
  }

  predicate IsArrayField(i: nat) {
    i == F_CMDLINE || i == F_ENVIRON
  }

  lemma DefaultLetter(i: nat)
    requires i < |FIELD_NAMES|
    ensures |DEFAULT_FORMAT| == |FIELD_NAMES| == 39
    ensures if IsTextField(i) then DEFAULT_FORMAT[i] == 'S'
            else if IsArrayField(i) then DEFAULT_FORMAT[i] == 'A'
            else DEFAULT_FORMAT[i] in "ILJP"
  {
  }

  /** The format with the fields of `on` switched on. */
  function FormatWith(on: set<nat>): seq<char> {
    Enable(DEFAULT_FORMAT, on)
  }

  /** A format of this table: two arrays, at their places, everything else one slot. */
  predicate Shaped(format: seq<char>) {
    |format| == |FIELD_NAMES| && forall i | 0 <= i < |format| :: Slots(format[i]) == if IsArrayField(i) then 2 else 1
  }

  lemma {:induction false} ShapedSlots(format: seq<char>, i: nat)
    requires Shaped(format) && i < |format|
    ensures SlotOf(format, i) == SlotOfField(i)
  {
    if i > 0 {
      ShapedSlots(format, i - 1);
      SlotStep(format, i - 1);
    }
  }

  lemma FormatShaped(on: set<nat>)
    ensures Shaped(FormatWith(on))
  {
    DefaultLetter(0);
    forall i | 0 <= i < |FIELD_NAMES| ensures Slots(FormatWith(on)[i]) == if IsArrayField(i) then 2 else 1 {
      DefaultLetter(i);
    }
  }

  /** The strings and buffers of the fields in `on` are there. */
  predicate Backs(v: View, on: set<nat>) {
    && (F_STATE in on ==> StateName(v.stat.state).Some?)
    && (F_CMNDLINE in on ==> v.cmndline.Some?)
    && (F_EXEC in on ==> v.exec.Some?)
    && (F_CWD in on ==> v.cwd.Some?)
    && (F_WINEXENAME in on ==> v.winexename.Some?)
    && (F_CMDLINE in on ==> v.cmdline.Some?)
    && (F_ENVIRON in on ==> v.environ.Some?)
  }

  /** What kind of argument stands where each field begins. */
  lemma ArgKinds(v: View, sys: System, i: nat)
    requires i < |FIELD_NAMES|
    ensures var arg := ArgAt(v, sys, SlotOfField(i));
            if IsTextField(i) || IsArrayField(i) then arg.Ptr? else arg.Num?
    ensures IsArrayField(i) ==> ArgAt(v, sys, SlotOfField(i) + 1).Num?
  {
  }

  /** A field in `on` that takes a string gets one that is closed. */
  lemma TextBacked(v: View, sys: System, on: set<nat>, i: nat)
    requires i < |FIELD_NAMES| && Backs(v, on) && i in on && IsTextField(i)
    ensures ArgAt(v, sys, SlotOfField(i)).Ptr? && NUL in ArgAt(v, sys, SlotOfField(i)).bytes
  {
  }

  lemma ArrayBacked(v: View, sys: System, on: set<nat>, i: nat)
    requires Backs(v, on) && i in on && IsArrayField(i)
    ensures var buf, len := ArgAt(v, sys, SlotOfField(i)), ArgAt(v, sys, SlotOfField(i) + 1);
            buf.Ptr? && len.Num? && len.n >= 0 && Closed(buf.bytes, len.n)
  {
  }

  lemma FieldFits(v: View, sys: System, on: set<nat>, i: nat)
    requires i < |FIELD_NAMES| && Backs(v, on)
    ensures SlotOfField(i) <= SLOTS && |FormatWith(on)| == |FIELD_NAMES|
    ensures FitsLetter(FormatWith(on)[i], Args(v, sys)[SlotOfField(i)..])
  {
    DefaultLetter(i);
    var slot := SlotOfField(i);
    var args := Args(v, sys)[slot..];
    assert args[0] == ArgAt(v, sys, slot);
    ArgKinds(v, sys, i);
    if IsArrayField(i) {
      assert args[1] == ArgAt(v, sys, slot + 1);
      if i in on {
        ArrayBacked(v, sys, on, i);
      }
    } else if IsTextField(i) && i in on {
      TextBacked(v, sys, on, i);
    }
  }

  /** The call `OS_get_table` makes is one `bless_into_proc` can serve, whichever fields are on. */
  lemma RecordFits(v: View, sys: System, on: set<nat>)
    requires Backs(v, on)
    ensures |FormatWith(on)| == |FIELD_NAMES| && Fits(FormatWith(on), Args(v, sys))
  {
    FormatShaped(on);
    forall i | 0 <= i < |FormatWith(on)|
      ensures SlotOf(FormatWith(on), i) <= SLOTS
      ensures FitsLetter(FormatWith(on)[i], Args(v, sys)[SlotOf(FormatWith(on), i)..])
    {
      ShapedSlots(FormatWith(on), i);
      FieldFits(v, sys, on, i);
    }
    FitsByField(FormatWith(on), Args(v, sys));
  }

  lemma FieldsBacked(p: Proc, sys: System)
    ensures Backs(ViewOf(p), Fields(p, sys))
  {
  }

  /** The hash pushed for a process. */
  function Record(p: Proc, sys: System): Option<Hash> {
    FieldsBacked(p, sys);
    RecordFits(ViewOf(p), sys, Fields(p, sys));
    BlessFrom(FormatWith(Fields(p, sys)), FIELD_NAMES, Args(ViewOf(p), sys), sys.ttydevs, map[])
  }

  lemma FormatKnown(on: set<nat>)
    ensures |FormatWith(on)| == N_FIELDS
    ensures forall i | 0 <= i < |FormatWith(on)| :: Known(FormatWith(on)[i]) && FormatWith(on)[i] != NUL
  {
    DefaultLetter(0);
    forall i | 0 <= i < |FormatWith(on)| ensures Known(FormatWith(on)[i]) && FormatWith(on)[i] != NUL {
      DefaultLetter(i);
      LowerKnown(DEFAULT_FORMAT[i]);
    }
  }

  /** Whatever the system says, the call for a process never croaks. */
  lemma RecordExists(p: Proc, sys: System)
    ensures Record(p, sys).Some?
  {
    var on := Fields(p, sys);
    FieldsBacked(p, sys);
    RecordFits(ViewOf(p), sys, on);
    FormatKnown(on);
    NoCroak(FormatWith(on), FIELD_NAMES, Args(ViewOf(p), sys), sys.ttydevs, map[]);
  }
}
