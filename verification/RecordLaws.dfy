/**
  What the keys of a process's hash hold, said in terms of the files of `/proc`:
  the line the kernel printed for `stat`, the lines of `status`, the owner and
  the links.
 */
module RecordLaws {
  import opened Memory
  import opened Scanf
  import opened StatLine
  import opened StatusFile
  import opened Lines
  import opened Bless
  import opened CommandLines
  import opened ProcFiles
  import opened ProcRecord
  import opened RecordFields

  ghost predicate Holds(h: Option<Hash>, key: seq<char>, value: Value) {
    h.Some? && key in h.value && h.value[key] == value
  }

  /** The hash shows the arguments of the fields that are on. */
  ghost predicate Tells(h: Option<Hash>, v: View, sys: System, on: set<nat>) {
    && |FIELD_NAMES| == N_FIELDS
    && forall i: nat {:trigger FieldTells(h, v, sys, on, i)} | i < N_FIELDS :: FieldTells(h, v, sys, on, i)
  }

  ghost predicate FieldTells(h: Option<Hash>, v: View, sys: System, on: set<nat>, i: nat)
    requires i < |FIELD_NAMES|
  {
    Holds(h, FIELD_NAMES[i], if i in on then FieldValue(v, sys, i) else Undef)
  }

  lemma RecordTells(p: Proc, sys: System)
    ensures Tells(Record(p, sys), ViewOf(p), sys, Fields(p, sys))
  {
    FormatKnown({});
    DefaultLetter(0);
    forall i: nat | i < N_FIELDS ensures FieldTells(Record(p, sys), ViewOf(p), sys, Fields(p, sys), i) {
      FieldOf(p, sys, i);
    }
  }

  lemma NumberKey(h: Option<Hash>, v: View, sys: System, on: set<nat>, i: nat, key: seq<char>, n: int)
    requires Tells(h, v, sys, on) && i < N_FIELDS && i in on && FIELD_NAMES[i] == key && !IsArrayField(i)
    requires ArgAt(v, sys, SlotOfField(i)) == Num(n)
    ensures Holds(h, key, Number(n))
  {
    assert FieldTells(h, v, sys, on, i);
  }

  lemma TextKey(h: Option<Hash>, v: View, sys: System, on: set<nat>, i: nat, key: seq<char>, text: seq<char>)
    requires Tells(h, v, sys, on) && i < N_FIELDS && i in on && FIELD_NAMES[i] == key && !IsArrayField(i)
    requires ArgAt(v, sys, SlotOfField(i)) == Ptr(text + [NUL]) && NUL !in text
    ensures Holds(h, key, Text(text))
  {
    assert FieldTells(h, v, sys, on, i);
    CStringUnique(text + [NUL], text);
  }

  lemma OffKey(h: Option<Hash>, v: View, sys: System, on: set<nat>, i: nat, key: seq<char>)
    requires Tells(h, v, sys, on) && i < N_FIELDS && i !in on && FIELD_NAMES[i] == key
    ensures Holds(h, key, Undef)
  {
    assert FieldTells(h, v, sys, on, i);
  }

  // ----- The stat file

  /** The stat file is the kernel's line for this process. */
  ghost predicate StatIs(p: Proc, pid: int, name: seq<char>, state: char, nums: seq<int>, rest: seq<char>) {
    && Readable(p.stat) && TextOf(p.stat) == Line(pid, name, PrintTail(state, nums, rest)) && |nums| == 22
    && state != ')' && !IsSpace(state) && ')' !in rest && (rest == [] || !IsDigit(rest[0]))
  }

  /** The line reads back, whatever the name. */
  lemma StatOfIs(p: Proc, pid: int, name: seq<char>, state: char, nums: seq<int>, rest: seq<char>)
    requires StatIs(p, pid, name, state, nums, rest)
    ensures StatOf(p) ==
            StatRecord(pid, if |name| < 255 then name else name[..254], Some(state), nums, true, true)
    ensures NUL !in name
  {
    StatRoundTrip(pid, name, state, nums, rest, COMM_SIZE, STAT_ITEMS);
    NameInLine(pid, name, PrintTail(state, nums, rest));
  }

  lemma NameInLine(pid: int, name: seq<char>, tail: seq<char>)
    ensures forall c | c in name :: c in Line(pid, name, tail)
  {
    var text := Line(pid, name, tail);
    forall c | c in name ensures c in text {
      var i :| 0 <= i < |name| && name[i] == c;
      assert text[|Printed(pid)| + 2 + i] == c;
    }
  }

  /** The hash shows a process whose stat file gave this pid, this name, this state and these numbers. */
  ghost predicate ShowsStat(h: Option<Hash>, v: View, sys: System, on: set<nat>, pid: int, comm: seq<char>, state: char,
                            nums: seq<int>)
  {
    && Tells(h, v, sys, on) && |nums| == 22 && NUL !in comm
    && v.stat == StatRecord(pid, comm, Some(state), nums, true, true)
    && (forall i: nat | F_PID <= i <= F_CTIME :: i in on)
    && (F_STATE in on <==> StateName(Some(state)).Some?)
  }

  lemma ParentKeys(h: Option<Hash>, v: View, sys: System, on: set<nat>, pid: int, comm: seq<char>, state: char,
                   nums: seq<int>)
    requires ShowsStat(h, v, sys, on, pid, comm, state, nums)
    ensures Holds(h, "pid", Number(pid))
    ensures Holds(h, "ppid", Number(nums[0]))
  {
    NumberKey(h, v, sys, on, 2, "pid", pid);
    NumberKey(h, v, sys, on, 4, "ppid", nums[0]);
  }

  lemma GroupKeys(h: Option<Hash>, v: View, sys: System, on: set<nat>, pid: int, comm: seq<char>, state: char,
                  nums: seq<int>)
    requires ShowsStat(h, v, sys, on, pid, comm, state, nums)
    ensures Holds(h, "pgrp", Number(nums[1]))
    ensures Holds(h, "sess", Number(nums[2]))
  {
    NumberKey(h, v, sys, on, 5, "pgrp", nums[1]);
    NumberKey(h, v, sys, on, 6, "sess", nums[2]);
  }

  lemma TtyKeys(h: Option<Hash>, v: View, sys: System, on: set<nat>, pid: int, comm: seq<char>, state: char,
                nums: seq<int>)
    requires ShowsStat(h, v, sys, on, pid, comm, state, nums)
    ensures Holds(h, "ttynum", Number(nums[3]))
    ensures Holds(h, "flags", Number(nums[5]))
  {
    NumberKey(h, v, sys, on, 7, "ttynum", nums[3]);
    NumberKey(h, v, sys, on, 8, "flags", nums[5]);
  }

  lemma MinorFaultKeys(h: Option<Hash>, v: View, sys: System, on: set<nat>, pid: int, comm: seq<char>, state: char,
                       nums: seq<int>)
    requires ShowsStat(h, v, sys, on, pid, comm, state, nums)
    ensures Holds(h, "minflt", Number(nums[6]))
    ensures Holds(h, "cminflt", Number(nums[7]))
  {
    NumberKey(h, v, sys, on, 9, "minflt", nums[6]);
    NumberKey(h, v, sys, on, 10, "cminflt", nums[7]);
  }

  lemma MajorFaultKeys(h: Option<Hash>, v: View, sys: System, on: set<nat>, pid: int, comm: seq<char>, state: char,
                       nums: seq<int>)
    requires ShowsStat(h, v, sys, on, pid, comm, state, nums)
    ensures Holds(h, "majflt", Number(nums[8]))
    ensures Holds(h, "cmajflt", Number(nums[9]))
  {
    NumberKey(h, v, sys, on, 11, "majflt", nums[8]);
    NumberKey(h, v, sys, on, 12, "cmajflt", nums[9]);
  }

  lemma TimeKeys(h: Option<Hash>, v: View, sys: System, on: set<nat>, pid: int, comm: seq<char>, state: char,
                 nums: seq<int>)
    requires ShowsStat(h, v, sys, on, pid, comm, state, nums)
    ensures Holds(h, "utime", Number(sys.micros(nums[10])))
    ensures Holds(h, "stime", Number(sys.micros(nums[11])))
  {
    NumberKey(h, v, sys, on, 13, "utime", sys.micros(nums[10]));
    NumberKey(h, v, sys, on, 14, "stime", sys.micros(nums[11]));
  }

  lemma ChildTimeKeys(h: Option<Hash>, v: View, sys: System, on: set<nat>, pid: int, comm: seq<char>, state: char,
                      nums: seq<int>)
    requires ShowsStat(h, v, sys, on, pid, comm, state, nums)
    ensures Holds(h, "cutime", Number(sys.micros(nums[12])))
    ensures Holds(h, "cstime", Number(sys.micros(nums[13])))
  {
    NumberKey(h, v, sys, on, 15, "cutime", sys.micros(nums[12]));
    NumberKey(h, v, sys, on, 16, "cstime", sys.micros(nums[13]));
  }

  lemma StartKeys(h: Option<Hash>, v: View, sys: System, on: set<nat>, pid: int, comm: seq<char>, state: char,
                  nums: seq<int>)
    requires ShowsStat(h, v, sys, on, pid, comm, state, nums)
    ensures Holds(h, "priority", Number(nums[14]))
    ensures Holds(h, "start", Number(sys.start(nums[18])))
  {
    NumberKey(h, v, sys, on, 17, "priority", nums[14]);
    NumberKey(h, v, sys, on, 18, "start", sys.start(nums[18]));
  }

  lemma SizeKeys(h: Option<Hash>, v: View, sys: System, on: set<nat>, pid: int, comm: seq<char>, state: char,
                 nums: seq<int>)
    requires ShowsStat(h, v, sys, on, pid, comm, state, nums)
    ensures Holds(h, "size", Number(nums[19]))
    ensures Holds(h, "rss", Number(sys.bytes(nums[20])))
  {
    NumberKey(h, v, sys, on, 19, "size", nums[19]);
    NumberKey(h, v, sys, on, 20, "rss", sys.bytes(nums[20]));
  }

  lemma SumKeys(h: Option<Hash>, v: View, sys: System, on: set<nat>, pid: int, comm: seq<char>, state: char,
                nums: seq<int>)
    requires ShowsStat(h, v, sys, on, pid, comm, state, nums)
    ensures Holds(h, "time", Number(sys.micros(nums[10]) + sys.micros(nums[11])))
    ensures Holds(h, "ctime", Number(sys.micros(nums[12]) + sys.micros(nums[13])))
  {
    NumberKey(h, v, sys, on, 21, "time", sys.micros(nums[10]) + sys.micros(nums[11]));
    NumberKey(h, v, sys, on, 22, "ctime", sys.micros(nums[12]) + sys.micros(nums[13]));
  }

  lemma NameKey(h: Option<Hash>, v: View, sys: System, on: set<nat>, pid: int, comm: seq<char>, state: char,
                nums: seq<int>)
    requires ShowsStat(h, v, sys, on, pid, comm, state, nums)
    ensures Holds(h, "fname", Text(comm))
  {
    TextKey(h, v, sys, on, 3, "fname", comm);
  }

  lemma StateKey(h: Option<Hash>, v: View, sys: System, on: set<nat>, pid: int, comm: seq<char>, state: char,
                 nums: seq<int>)
    requires ShowsStat(h, v, sys, on, pid, comm, state, nums)
    ensures state == 'S' ==> Holds(h, "state", Text("sleep"))
    ensures state == 'R' || state == 'O' ==> Holds(h, "state", Text("run"))
    ensures state == 'Z' ==> Holds(h, "state", Text("defunct"))
    ensures state == 'D' ==> Holds(h, "state", Text("uwait"))
    ensures state == 'T' ==> Holds(h, "state", Text("stop"))
    ensures state !in "SROZDT" ==> Holds(h, "state", Undef)
  {
    var word := StateName(Some(state));
    if word.Some? {
      TextKey(h, v, sys, on, F_STATE, "state", word.value);
    } else {
      OffKey(h, v, sys, on, F_STATE, "state");
    }
  }

  lemma StatShown(p: Proc, sys: System, pid: int, name: seq<char>, state: char, nums: seq<int>, rest: seq<char>)
    requires StatIs(p, pid, name, state, nums, rest)
    ensures var comm := if |name| < 255 then name else name[..254];
            ShowsStat(Record(p, sys), ViewOf(p), sys, Fields(p, sys), pid, comm, state, nums)
  {
    StatOfIs(p, pid, name, state, nums, rest);
    RecordTells(p, sys);
    StatFields(p, sys);
  }

  lemma StatFields(p: Proc, sys: System)
    requires StatOf(p).enabled
    ensures ViewOf(p).stat == StatOf(p) && forall i: nat | F_PID <= i <= F_CTIME :: i in Fields(p, sys)
    ensures F_STATE in Fields(p, sys) <==> StateName(StatOf(p).state).Some?
  {
  }

  /** For every line the kernel prints for a process: what the keys of its record hold. */
  lemma StatKeys(p: Proc, sys: System, pid: int, name: seq<char>, state: char, nums: seq<int>, rest: seq<char>)
    requires StatIs(p, pid, name, state, nums, rest)
    ensures Holds(Record(p, sys), "pid", Number(pid))
    ensures Holds(Record(p, sys), "fname", Text(if |name| < 255 then name else name[..254]))
    ensures Holds(Record(p, sys), "ppid", Number(nums[0]))
    ensures Holds(Record(p, sys), "pgrp", Number(nums[1]))
    ensures Holds(Record(p, sys), "sess", Number(nums[2]))
    ensures Holds(Record(p, sys), "ttynum", Number(nums[3]))
    ensures Holds(Record(p, sys), "flags", Number(nums[5]))
    ensures Holds(Record(p, sys), "minflt", Number(nums[6]))
    ensures Holds(Record(p, sys), "cminflt", Number(nums[7]))
    ensures Holds(Record(p, sys), "majflt", Number(nums[8]))
    ensures Holds(Record(p, sys), "cmajflt", Number(nums[9]))
    ensures Holds(Record(p, sys), "utime", Number(sys.micros(nums[10])))
    ensures Holds(Record(p, sys), "stime", Number(sys.micros(nums[11])))
    ensures Holds(Record(p, sys), "cutime", Number(sys.micros(nums[12])))
    ensures Holds(Record(p, sys), "cstime", Number(sys.micros(nums[13])))
    ensures Holds(Record(p, sys), "priority", Number(nums[14]))
    ensures Holds(Record(p, sys), "start", Number(sys.start(nums[18])))
    ensures Holds(Record(p, sys), "size", Number(nums[19]))
    ensures Holds(Record(p, sys), "rss", Number(sys.bytes(nums[20])))
    ensures Holds(Record(p, sys), "time", Number(sys.micros(nums[10]) + sys.micros(nums[11])))
    ensures Holds(Record(p, sys), "ctime", Number(sys.micros(nums[12]) + sys.micros(nums[13])))
  {
    var h, v, on := Record(p, sys), ViewOf(p), Fields(p, sys);
    var comm := if |name| < 255 then name else name[..254];
    StatShown(p, sys, pid, name, state, nums, rest);
    ParentKeys(h, v, sys, on, pid, comm, state, nums);
    GroupKeys(h, v, sys, on, pid, comm, state, nums);
    TtyKeys(h, v, sys, on, pid, comm, state, nums);
    MinorFaultKeys(h, v, sys, on, pid, comm, state, nums);
    MajorFaultKeys(h, v, sys, on, pid, comm, state, nums);
    TimeKeys(h, v, sys, on, pid, comm, state, nums);
    ChildTimeKeys(h, v, sys, on, pid, comm, state, nums);
    StartKeys(h, v, sys, on, pid, comm, state, nums);
    SizeKeys(h, v, sys, on, pid, comm, state, nums);
    SumKeys(h, v, sys, on, pid, comm, state, nums);
    NameKey(h, v, sys, on, pid, comm, state, nums);
  }

  /** The terminal is looked up by its number, written as an unsigned 64-bit one. */
  lemma TtyDevKey(p: Proc, sys: System, pid: int, name: seq<char>, state: char, nums: seq<int>, rest: seq<char>)
    requires StatIs(p, pid, name, state, nums, rest)
    ensures var number := Decimal(nums[3] % 0x1_0000_0000_0000_0000);
            Holds(Record(p, sys), "ttydev",
                  Text(if sys.ttydevs.Some? && number in sys.ttydevs.value then sys.ttydevs.value[number] else ""))
  {
    TtyNumOf(p, sys, pid, name, state, nums, rest);
    TtyDevOf(p, sys);
  }

  lemma TtyNumOf(p: Proc, sys: System, pid: int, name: seq<char>, state: char, nums: seq<int>, rest: seq<char>)
    requires StatIs(p, pid, name, state, nums, rest)
    ensures F_TTYNUM in Fields(p, sys) && StatNum(StatOf(p), 3) == nums[3]
  {
    StatOfIs(p, pid, name, state, nums, rest);
    StatFields(p, sys);
  }

  /** The word for the state letter; an unknown letter leaves the key undef. */
  lemma StateWord(p: Proc, sys: System, pid: int, name: seq<char>, state: char, nums: seq<int>, rest: seq<char>)
    requires StatIs(p, pid, name, state, nums, rest)
    ensures state == 'S' ==> Holds(Record(p, sys), "state", Text("sleep"))
    ensures state == 'R' || state == 'O' ==> Holds(Record(p, sys), "state", Text("run"))
    ensures state == 'Z' ==> Holds(Record(p, sys), "state", Text("defunct"))
    ensures state == 'D' ==> Holds(Record(p, sys), "state", Text("uwait"))
    ensures state == 'T' ==> Holds(Record(p, sys), "state", Text("stop"))
    ensures state !in "SROZDT" ==> Holds(Record(p, sys), "state", Undef)
  {
    var comm := if |name| < 255 then name else name[..254];
    StatShown(p, sys, pid, name, state, nums, rest);
    StateKey(Record(p, sys), ViewOf(p), sys, Fields(p, sys), pid, comm, state, nums);
  }

  // ----- The owner, the ids, the percentages

  lemma OwnerShown(h: Option<Hash>, v: View, sys: System, on: set<nat>)
    requires Tells(h, v, sys, on)
    ensures F_UID in on ==> Holds(h, "uid", Number(v.uid))
    ensures F_GID in on ==> Holds(h, "gid", Number(v.gid))
    ensures F_UID !in on ==> Holds(h, "uid", Undef)
    ensures F_GID !in on ==> Holds(h, "gid", Undef)
  {
    if F_UID in on {
      NumberKey(h, v, sys, on, F_UID, "uid", v.uid);
    } else {
      OffKey(h, v, sys, on, F_UID, "uid");
    }
    if F_GID in on {
      NumberKey(h, v, sys, on, F_GID, "gid", v.gid);
    } else {
      OffKey(h, v, sys, on, F_GID, "gid");
    }
  }

  lemma OwnerKeys(p: Proc, sys: System)
    ensures p.owner.Some? ==> Holds(Record(p, sys), "uid", Number(p.owner.value.0))
    ensures p.owner.Some? ==> Holds(Record(p, sys), "gid", Number(p.owner.value.1))
    ensures p.owner.None? ==> Holds(Record(p, sys), "uid", Undef) && Holds(Record(p, sys), "gid", Undef)
  {
    RecordTells(p, sys);
    OwnerShown(Record(p, sys), ViewOf(p), sys, Fields(p, sys));
  }

  /** The status file has this deciding line. */
  ghost predicate StatusHas(p: Proc, w: Word, word: seq<char>, ns: seq<int>, i: nat, gaps: seq<seq<char>>,
                            rest: seq<char>)
  {
    && Readable(p.status) && i < |LineStarts(TextOf(p.status), 0)|
    && LineIs(TextOf(p.status), LineStarts(TextOf(p.status), 0)[i], word, ns, gaps, rest)
    && Decides(TextOf(p.status), false, w, i)
  }

  lemma UidShown(h: Option<Hash>, v: View, sys: System, on: set<nat>)
    requires Tells(h, v, sys, on) && F_EUID in on && 25 in on && F_FUID in on
    ensures Holds(h, "euid", Number(v.ids.uid.effective))
    ensures Holds(h, "suid", Number(v.ids.uid.saved))
    ensures Holds(h, "fuid", Number(v.ids.uid.fs))
  {
    NumberKey(h, v, sys, on, F_EUID, "euid", v.ids.uid.effective);
    NumberKey(h, v, sys, on, 25, "suid", v.ids.uid.saved);
    NumberKey(h, v, sys, on, F_FUID, "fuid", v.ids.uid.fs);
  }

  lemma GidShown(h: Option<Hash>, v: View, sys: System, on: set<nat>)
    requires Tells(h, v, sys, on) && F_EGID in on && 28 in on && F_FGID in on
    ensures Holds(h, "egid", Number(v.ids.gid.effective))
    ensures Holds(h, "sgid", Number(v.ids.gid.saved))
    ensures Holds(h, "fgid", Number(v.ids.gid.fs))
  {
    NumberKey(h, v, sys, on, F_EGID, "egid", v.ids.gid.effective);
    NumberKey(h, v, sys, on, 28, "sgid", v.ids.gid.saved);
    NumberKey(h, v, sys, on, F_FGID, "fgid", v.ids.gid.fs);
  }

  lemma IdFields(p: Proc, sys: System)
    ensures ViewOf(p).ids == IdsOf(p)
    ensures IdsOf(p).hasUid ==> F_EUID in Fields(p, sys) && 25 in Fields(p, sys) && F_FUID in Fields(p, sys)
    ensures IdsOf(p).hasGid ==> F_EGID in Fields(p, sys) && 28 in Fields(p, sys) && F_FGID in Fields(p, sys)
  {
  }

  /** The second, third and fourth number of the deciding "Uid:" line. */
  lemma UidKeys(p: Proc, sys: System, r: int, e: int, s: int, f: int, i: nat, gaps: seq<seq<char>>, rest: seq<char>)
    requires StatusHas(p, Uid, "Uid:", [r, e, s, f], i, gaps, rest)
    ensures Holds(Record(p, sys), "euid", Number(e))
    ensures Holds(Record(p, sys), "suid", Number(s))
    ensures Holds(Record(p, sys), "fuid", Number(f))
  {
    UidsOf(p, r, e, s, f, i, gaps, rest);
    RecordTells(p, sys);
    IdFields(p, sys);
    UidShown(Record(p, sys), ViewOf(p), sys, Fields(p, sys));
  }

  lemma UidsOf(p: Proc, r: int, e: int, s: int, f: int, i: nat, gaps: seq<seq<char>>, rest: seq<char>)
    requires StatusHas(p, Uid, "Uid:", [r, e, s, f], i, gaps, rest)
    ensures IdsOf(p).hasUid && IdsOf(p).uid == Triple(e, s, f)
  {
    UidsRead(TextOf(p.status), false, i, [r, e, s, f], gaps, rest);
  }

  lemma GidKeys(p: Proc, sys: System, r: int, e: int, s: int, f: int, i: nat, gaps: seq<seq<char>>, rest: seq<char>)
    requires StatusHas(p, Gid, "Gid:", [r, e, s, f], i, gaps, rest)
    ensures Holds(Record(p, sys), "egid", Number(e))
    ensures Holds(Record(p, sys), "sgid", Number(s))
    ensures Holds(Record(p, sys), "fgid", Number(f))
  {
    GidsOf(p, r, e, s, f, i, gaps, rest);
    RecordTells(p, sys);
    IdFields(p, sys);
    GidShown(Record(p, sys), ViewOf(p), sys, Fields(p, sys));
  }

  lemma GidsOf(p: Proc, r: int, e: int, s: int, f: int, i: nat, gaps: seq<seq<char>>, rest: seq<char>)
    requires StatusHas(p, Gid, "Gid:", [r, e, s, f], i, gaps, rest)
    ensures IdsOf(p).hasGid && IdsOf(p).gid == Triple(e, s, f)
  {
    GidsRead(TextOf(p.status), false, i, [r, e, s, f], gaps, rest);
  }

  lemma PercentShown(h: Option<Hash>, v: View, sys: System, on: set<nat>)
    requires Tells(h, v, sys, on) && F_PCTCPU in on && NUL !in v.pctcpu && NUL !in v.pctmem
    ensures Holds(h, "pctcpu", Text(v.pctcpu))
    ensures Holds(h, "pctmem", if F_PCTMEM in on then Text(v.pctmem) else Undef)
  {
    TextKey(h, v, sys, on, F_PCTCPU, "pctcpu", v.pctcpu);
    if F_PCTMEM in on {
      TextKey(h, v, sys, on, F_PCTMEM, "pctmem", v.pctmem);
    } else {
      OffKey(h, v, sys, on, F_PCTMEM, "pctmem");
    }
  }

  lemma PercentKeys(p: Proc, sys: System)
    requires NUL !in p.pctcpu && NUL !in p.pctmem
    ensures Holds(Record(p, sys), "pctcpu", Text(p.pctcpu))
    ensures Holds(Record(p, sys), "pctmem", if sys.memoryKnown then Text(p.pctmem) else Undef)
  {
    RecordTells(p, sys);
    PercentShown(Record(p, sys), ViewOf(p), sys, Fields(p, sys));
  }

  // ----- Files that could not be read

  lemma Off(p: Proc, sys: System, i: nat)
    requires i < N_FIELDS && i !in Fields(p, sys)
    ensures |FIELD_NAMES| == N_FIELDS && Holds(Record(p, sys), FIELD_NAMES[i], Undef)
  {
    FieldOf(p, sys, i);
  }

  /** A stat file that did not convert leaves its keys undef, but the sums of times are always there. */
  lemma StatMissing(p: Proc, sys: System, i: nat)
    requires !StatOf(p).enabled && F_PID <= i <= F_RSS
    ensures |FIELD_NAMES| == N_FIELDS && Holds(Record(p, sys), FIELD_NAMES[i], Undef)
  {
    assert !IsOn(SwitchesOf(p, sys), i);
    Off(p, sys, i);
  }

  lemma TimesMissing(p: Proc, sys: System)
    requires !Readable(p.stat)
    ensures Holds(Record(p, sys), "time", Number(sys.micros(0) + sys.micros(0)))
    ensures Holds(Record(p, sys), "ctime", Number(sys.micros(0) + sys.micros(0)))
    ensures Holds(Record(p, sys), "state", Undef)
  {
    RecordTells(p, sys);
    NoStat(p, sys);
    EmptySums(Record(p, sys), ViewOf(p), sys, Fields(p, sys));
  }

  lemma NoStat(p: Proc, sys: System)
    requires !Readable(p.stat)
    ensures ViewOf(p).stat.nums == [] && F_TIME in Fields(p, sys) && F_CTIME in Fields(p, sys)
    ensures F_STATE !in Fields(p, sys)
  {
    assert StatOf(p) == StatRecord(0, [], None, [], false, false);
  }

  lemma EmptySums(h: Option<Hash>, v: View, sys: System, on: set<nat>)
    requires Tells(h, v, sys, on) && v.stat.nums == [] && F_TIME in on && F_CTIME in on && F_STATE !in on
    ensures Holds(h, "time", Number(sys.micros(0) + sys.micros(0)))
    ensures Holds(h, "ctime", Number(sys.micros(0) + sys.micros(0)))
    ensures Holds(h, "state", Undef)
  {
    NumberKey(h, v, sys, on, F_TIME, "time", sys.micros(0) + sys.micros(0));
    NumberKey(h, v, sys, on, F_CTIME, "ctime", sys.micros(0) + sys.micros(0));
    OffKey(h, v, sys, on, F_STATE, "state");
  }

  /** The status file has a line with this word. */
  ghost predicate StatusSays(p: Proc, word: seq<char>) {
    Readable(p.status) && exists v | v in LineStarts(TextOf(p.status), 0) && v <= |TextOf(p.status)| ::
      HasWord(TextOf(p.status), v, word)
  }

  lemma HasUidIff(p: Proc)
    ensures IdsOf(p).hasUid <==> StatusSays(p, "Uid:")
    ensures IdsOf(p).hasGid <==> StatusSays(p, "Gid:")
  {
    if Readable(p.status) {
      var text := TextOf(p.status);
      EnabledIff(text, LineStarts(text, 0), NO_IDS, false, Uid);
      EnabledIff(text, LineStarts(text, 0), NO_IDS, false, Gid);
    }
  }

  /** Without such a line the three ids of the word are undef. */
  lemma IdsMissing(p: Proc, sys: System)
    ensures !StatusSays(p, "Uid:") ==> forall key | key in ["euid", "suid", "fuid"] :: Holds(Record(p, sys), key, Undef)
    ensures !StatusSays(p, "Gid:") ==> forall key | key in ["egid", "sgid", "fgid"] :: Holds(Record(p, sys), key, Undef)
  {
    HasUidIff(p);
    RecordTells(p, sys);
    var h, v, on := Record(p, sys), ViewOf(p), Fields(p, sys);
    if !StatusSays(p, "Uid:") {
      assert forall i | F_EUID <= i <= F_FUID :: !IsOn(SwitchesOf(p, sys), i);
      UidsOff(h, v, sys, on);
    }
    if !StatusSays(p, "Gid:") {
      assert forall i | F_EGID <= i <= F_FGID :: !IsOn(SwitchesOf(p, sys), i);
      GidsOff(h, v, sys, on);
    }
  }

  lemma UidsOff(h: Option<Hash>, v: View, sys: System, on: set<nat>)
    requires Tells(h, v, sys, on) && F_EUID !in on && 25 !in on && F_FUID !in on
    ensures forall key | key in ["euid", "suid", "fuid"] :: Holds(h, key, Undef)
  {
    OffKey(h, v, sys, on, F_EUID, "euid");
    OffKey(h, v, sys, on, 25, "suid");
    OffKey(h, v, sys, on, F_FUID, "fuid");
  }

  lemma GidsOff(h: Option<Hash>, v: View, sys: System, on: set<nat>)
    requires Tells(h, v, sys, on) && F_EGID !in on && 28 !in on && F_FGID !in on
    ensures forall key | key in ["egid", "sgid", "fgid"] :: Holds(h, key, Undef)
  {
    OffKey(h, v, sys, on, F_EGID, "egid");
    OffKey(h, v, sys, on, 28, "sgid");
    OffKey(h, v, sys, on, F_FGID, "fgid");
  }

  /** So is the key of any other file that could not be read. */
  lemma FilesMissing(p: Proc, sys: System)
    ensures !Readable(p.cmndline) ==> Holds(Record(p, sys), "cmndline", Undef)
    ensures !Readable(p.cmdline) ==> Holds(Record(p, sys), "cmdline", Undef)
    ensures !Readable(p.environ) ==> Holds(Record(p, sys), "environ", Undef)
    ensures !Readable(p.winpid) || ScanInt(TextOf(p.winpid)).None? ==> Holds(Record(p, sys), "winpid", Undef)
  {
    RecordTells(p, sys);
    FilesSwitched(p, sys);
    FilesOff(Record(p, sys), ViewOf(p), sys, Fields(p, sys));
  }

  lemma FilesSwitched(p: Proc, sys: System)
    ensures F_CMNDLINE in Fields(p, sys) <==> Readable(p.cmndline)
    ensures F_CMDLINE in Fields(p, sys) <==> Readable(p.cmdline)
    ensures F_ENVIRON in Fields(p, sys) <==> Readable(p.environ)
    ensures F_WINPID in Fields(p, sys) <==> Readable(p.winpid) && ScanInt(TextOf(p.winpid)).Some?
  {
  }

  lemma FilesOff(h: Option<Hash>, v: View, sys: System, on: set<nat>)
    requires Tells(h, v, sys, on)
    ensures F_CMNDLINE !in on ==> Holds(h, "cmndline", Undef)
    ensures F_CMDLINE !in on ==> Holds(h, "cmdline", Undef)
    ensures F_ENVIRON !in on ==> Holds(h, "environ", Undef)
    ensures F_WINPID !in on ==> Holds(h, "winpid", Undef)
  {
    if F_CMNDLINE !in on {
      OffKey(h, v, sys, on, F_CMNDLINE, "cmndline");
    }
    if F_CMDLINE !in on {
      OffKey(h, v, sys, on, F_CMDLINE, "cmdline");
    }
    if F_ENVIRON !in on {
      OffKey(h, v, sys, on, F_ENVIRON, "environ");
    }
    if F_WINPID !in on {
      OffKey(h, v, sys, on, F_WINPID, "winpid");
    }
  }

  // ----- Links and other files

  lemma StringShown(h: Option<Hash>, v: View, sys: System, on: set<nat>, i: nat, key: seq<char>, s: Option<seq<char>>)
    requires Tells(h, v, sys, on) && i < N_FIELDS && FIELD_NAMES[i] == key && !IsArrayField(i)
    requires (i in on <==> s.Some?) && (s.Some? ==> ArgAt(v, sys, SlotOfField(i)) == PtrTo(StringOf(s)))
    ensures Holds(h, key, if s.Some? then Text(CString(s.value)) else Undef)
  {
    if s.Some? {
      TextKey(h, v, sys, on, i, key, CString(s.value));
    } else {
      OffKey(h, v, sys, on, i, key);
    }
  }

  lemma LinkFields(p: Proc, sys: System)
    ensures F_EXEC in Fields(p, sys) <==> p.exe.Some?
    ensures F_CWD in Fields(p, sys) <==> p.cwd.Some?
    ensures F_WINEXENAME in Fields(p, sys) <==> Readable(p.winexename)
    ensures ViewOf(p).exec == StringOf(p.exe) && ViewOf(p).cwd == StringOf(p.cwd)
    ensures ViewOf(p).winexename == StringOf(FileText(p.winexename))
  {
  }

  lemma ExecShown(h: Option<Hash>, v: View, sys: System, on: set<nat>, s: Option<seq<char>>)
    requires Tells(h, v, sys, on) && (F_EXEC in on <==> s.Some?) && v.exec == StringOf(s)
    ensures Holds(h, "exec", if s.Some? then Text(CString(s.value)) else Undef)
  {
    StringShown(h, v, sys, on, F_EXEC, "exec", s);
  }

  lemma CwdShown(h: Option<Hash>, v: View, sys: System, on: set<nat>, s: Option<seq<char>>)
    requires Tells(h, v, sys, on) && (F_CWD in on <==> s.Some?) && v.cwd == StringOf(s)
    ensures Holds(h, "cwd", if s.Some? then Text(CString(s.value)) else Undef)
  {
    StringShown(h, v, sys, on, F_CWD, "cwd", s);
  }

  lemma WinExeNameShown(h: Option<Hash>, v: View, sys: System, on: set<nat>, s: Option<seq<char>>)
    requires Tells(h, v, sys, on) && (F_WINEXENAME in on <==> s.Some?) && v.winexename == StringOf(s)
    ensures Holds(h, "winexename", if s.Some? then Text(CString(s.value)) else Undef)
  {
    StringShown(h, v, sys, on, F_WINEXENAME, "winexename", s);
  }

  /** The resolved links and the Windows path, up to the first NUL. */
  lemma LinkKeys(p: Proc, sys: System)
    ensures Holds(Record(p, sys), "exec", if p.exe.Some? then Text(CString(p.exe.value)) else Undef)
    ensures Holds(Record(p, sys), "cwd", if p.cwd.Some? then Text(CString(p.cwd.value)) else Undef)
    ensures Holds(Record(p, sys), "winexename",
                  if Readable(p.winexename) then Text(CString(Content(p.winexename))) else Undef)
  {
    var h, v, on := Record(p, sys), ViewOf(p), Fields(p, sys);
    RecordTells(p, sys);
    LinkFields(p, sys);
    ExecShown(h, v, sys, on, p.exe);
    CwdShown(h, v, sys, on, p.cwd);
    WinExeNameShown(h, v, sys, on, FileText(p.winexename));
  }

  lemma WinPidOf(p: Proc, sys: System, n: int, rest: seq<char>)
    requires Readable(p.winpid) && TextOf(p.winpid) == Printed(n) + rest && (rest == [] || !IsDigit(rest[0]))
    ensures F_WINPID in Fields(p, sys) && ViewOf(p).winpid == n
  {
    WinPidRead(p.winpid, n, rest);
    WinPidFields(p, sys);
  }

  lemma WinPidRead(file: File, n: int, rest: seq<char>)
    requires Readable(file) && TextOf(file) == Printed(n) + rest && (rest == [] || !IsDigit(rest[0]))
    ensures WinPidOfFile(file) == Some(n)
  {
    ScanPrinted(n, rest);
  }

  lemma WinPidFields(p: Proc, sys: System)
    requires WinPid(p).Some?
    ensures F_WINPID in Fields(p, sys) && ViewOf(p).winpid == WinPid(p).value
  {
    assert IsOn(SwitchesOf(p, sys), F_WINPID);
  }

  lemma WinPidKey(p: Proc, sys: System, n: int, rest: seq<char>)
    requires Readable(p.winpid) && TextOf(p.winpid) == Printed(n) + rest && (rest == [] || !IsDigit(rest[0]))
    ensures Holds(Record(p, sys), "winpid", Number(n))
  {
    RecordTells(p, sys);
    WinPidOf(p, sys, n, rest);
    WinPidShown(Record(p, sys), ViewOf(p), sys, Fields(p, sys));
  }

  lemma WinPidShown(h: Option<Hash>, v: View, sys: System, on: set<nat>)
    requires Tells(h, v, sys, on) && F_WINPID in on
    ensures Holds(h, "winpid", Number(v.winpid))
  {
    NumberKey(h, v, sys, on, F_WINPID, "winpid", v.winpid);
  }

  lemma EnvironName()
    ensures |FIELD_NAMES| == N_FIELDS && FIELD_NAMES[F_ENVIRON] == "environ"
  {
  }

  lemma EnvironValue(v: View, sys: System, content: seq<char>)
    requires v.environ == Some(content)
    ensures FieldValue(v, sys, F_ENVIRON) == ListOf(content)
  {
  }

  lemma EnvironShown(h: Option<Hash>, v: View, sys: System, on: set<nat>, content: seq<char>)
    requires Tells(h, v, sys, on) && F_ENVIRON in on && v.environ == Some(content)
    ensures Holds(h, "environ", ListOf(content))
  {
    EnvironName();
    assert FieldTells(h, v, sys, on, F_ENVIRON);
    EnvironValue(v, sys, content);
  }

  lemma ListHeld(h: Option<Hash>, key: seq<char>, content: seq<char>, items: seq<seq<char>>)
    requires Holds(h, key, ListOf(content)) && content == Encode(items)
    requires forall i | 0 <= i < |items| :: NUL !in items[i]
    ensures Holds(h, key, List(items))
  {
    ListIs(items);
  }

  lemma ListIs(items: seq<seq<char>>)
    requires forall i | 0 <= i < |items| :: NUL !in items[i]
    ensures ListOf(Encode(items)) == List(items)
  {
    DecodeEncode(items, []);
    assert Encode(items) + [NUL] + [] == Encode(items) + [NUL];
    if items != [] {
      assert Encode(items) != [];
    }
  }

  lemma EnvironFields(p: Proc, sys: System)
    requires Readable(p.environ)
    ensures F_ENVIRON in Fields(p, sys) && ViewOf(p).environ == Some(Content(p.environ))
  {
    assert IsOn(SwitchesOf(p, sys), F_ENVIRON);
  }

  lemma EnvironOf(p: Proc, sys: System)
    requires Readable(p.environ)
    ensures Holds(Record(p, sys), "environ", ListOf(Content(p.environ)))
  {
    RecordTells(p, sys);
    EnvironFields(p, sys);
    EnvironShown(Record(p, sys), ViewOf(p), sys, Fields(p, sys), Content(p.environ));
  }

  /** Strings as the kernel stores them, each closed by a NUL, come back as a list. */
  lemma EnvironKey(p: Proc, sys: System, items: seq<seq<char>>)
    requires Readable(p.environ) && Content(p.environ) == Encode(items)
    requires forall i | 0 <= i < |items| :: NUL !in items[i]
    ensures Holds(Record(p, sys), "environ", List(items))
  {
    EnvironOf(p, sys);
    ListHeld(Record(p, sys), "environ", Content(p.environ), items);
  }

  lemma CmdlineKey(p: Proc, sys: System, items: seq<seq<char>>)
    requires Readable(p.cmdline) && Content(p.cmdline) == Encode(items)
    requires forall i | 0 <= i < |items| :: NUL !in items[i]
    ensures Holds(Record(p, sys), "cmdline", List(items))
  {
    CmdlineOf(p, sys);
    ListHeld(Record(p, sys), "cmdline", Content(p.cmdline), items);
  }

  lemma JoinHeld(h: Option<Hash>, content: seq<char>, items: seq<seq<char>>)
    requires Holds(h, "cmndline", Text(CString(CString(Spaced(content)) + [NUL]))) && content == Encode(items)
    requires forall i | 0 <= i < |items| :: NUL !in items[i]
    ensures Holds(h, "cmndline", Text(Join(items)))
  {
    SameString(content);
    ListIs(items);
  }

  /** And the other reading is their join with single spaces. */
  lemma CmndlineKey(p: Proc, sys: System, items: seq<seq<char>>)
    requires Readable(p.cmndline) && Content(p.cmndline) == Encode(items)
    requires forall i | 0 <= i < |items| :: NUL !in items[i]
    ensures Holds(Record(p, sys), "cmndline", Text(Join(items)))
  {
    CmndlineOf(p, sys);
    JoinHeld(Record(p, sys), Content(p.cmndline), items);
  }
}
