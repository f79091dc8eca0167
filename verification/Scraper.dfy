/**
  The readers of os/Cygwin.c and `OS_get_table`: a client that keeps the text
  of one process on an obstack while temporary texts come and go above it, and
  frees the lot before the next process.

  `fmt` is the address of the process's format string; the ghost `Format` says
  which live object that is, what it was copied from, and which fields have been
  switched on in it so far.
 */
module Scraper {
  import opened Bits
  import opened Memory
  import opened Scanf
  import opened Obstacks
  import opened ProcFiles
  import opened StatLine
  import opened StatusFile
  import opened Lines
  import opened CommandLines
  import opened Bless
  import opened ProcRecord

  datatype Format = Format(k: nat, base: seq<char>, on: set<nat>)

  function On(g: Format, fields: set<nat>): Format {
    g.(on := g.on + fields)
  }

  /** The live objects are the same but for the bytes of object `k`. */
  ghost predicate SameBut(before: seq<Obj>, after: seq<Obj>, k: nat) {
    && |after| == |before|
    && forall j | 0 <= j < |before| :: if j == k then after[j].addr == before[j].addr else after[j] == before[j]
  }

  /** As `SameBut`, and one object more, at `p`. */
  ghost predicate GrownBut(before: seq<Obj>, after: seq<Obj>, k: nat, p: nat) {
    |after| == |before| + 1 && after[|before|].addr == p && SameBut(before, after[..|before|], k)
  }

  /** Between calls of the readers: nothing is growing, and the format string is live and tells the fields in `on`. */
  ghost predicate Ready(ob: Obstack, fmt: nat, g: Format)
    reads ob, ob.allocator, ob.mem
  {
    && ob.Valid() && ob.growing == []
    && g.k < |ob.objects| && ob.objects[g.k].addr == fmt
    && |g.base| == N_FIELDS && ob.objects[g.k].data == Enable(g.base, g.on) + [NUL]
  }

  /** What is asked of the system for one process: sane reads, paths that fit, a status file with a first line. */
  predicate ProcFits(p: Proc) {
    && PidFits(p.pid)
    && Sensible(p.stat) && Sensible(p.cmndline) && Sensible(p.cmdline) && Sensible(p.environ)
    && Sensible(p.status) && Sensible(p.winexename) && Sensible(p.winpid)
    && (p.cwd.Some? ==> |p.cwd.value| < PRINTF_SIZE)
    && (p.exe.Some? ==> |p.exe.value| < PRINTF_SIZE)
    && (p.status.Reads? ==> !StartsWithNewline(TextOf(p.status)))
  }

  predicate PidFits(pid: seq<char>) {
    6 + |pid| < PRINTF_SIZE
  }

  /** `field_enable`. */
  method FieldEnable(ob: Obstack, fmt: nat, field: nat, ghost g: Format)
    requires Ready(ob, fmt, g) && field < N_FIELDS
    modifies ob.mem, ob`objects
    ensures Ready(ob, fmt, On(g, {field})) && SameBut(old(ob.objects), ob.objects, g.k)
  {
    ghost var data := ob.objects[g.k].data;
    ob.ObjectStored(g.k);
    assert ob.mem[fmt + field] == data[field];
    ob.StoreObject(fmt + field, [ToLower(ob.mem[fmt + field])], g.k);
    EnableOne(g.base, g.on, field);
  }

  lemma EnableOne(base: seq<char>, on: set<nat>, field: nat)
    requires field < |base|
    ensures var data := Enable(base, on) + [NUL];
            Splice(data, field, [ToLower(data[field])]) == Enable(base, on + {field}) + [NUL]
  {
  }

  /** `field_enable_range`. */
  method FieldEnableRange(ob: Obstack, fmt: nat, first: nat, last: nat, ghost g: Format)
    requires Ready(ob, fmt, g) && first <= last < N_FIELDS
    modifies ob.mem, ob`objects
    ensures Ready(ob, fmt, On(g, Range(first, last))) && SameBut(old(ob.objects), ob.objects, g.k)
  {
    var i := first;
    ghost var now := g;
    while i <= last
      invariant first <= i <= last + 1
      invariant Ready(ob, fmt, now) && SameBut(old(ob.objects), ob.objects, g.k)
      invariant now == On(g, now.on - g.on)
      invariant forall f: nat :: f in now.on <==> f in g.on || first <= f < i
    {
      FieldEnable(ob, fmt, i, now);
      now := On(now, {i});
      i := i + 1;
    }
    RangeIs(now.on, g.on, first, last);
  }

  lemma RangeIs(now: set<nat>, on: set<nat>, first: nat, last: nat)
    requires forall f: nat :: f in now <==> f in on || first <= f <= last
    ensures now == on + Range(first, last)
  {
    forall f: nat ensures f in now <==> f in on + Range(first, last) {
      assert Between(first, f, last) <==> first <= f <= last;
    }
  }

  function When(condition: bool, fields: set<nat>): set<nat> {
    if condition then fields else {}
  }

  ghost function AfterUser(g: Format, s: Switches): Format {
    On(g, When(s.owner, {F_UID, F_GID}))
  }

  ghost function AfterStat(g: Format, s: Switches): Format {
    On(g, When(s.stat, Range(F_PID, F_RSS)))
  }

  ghost function AfterFixup(g: Format, s: Switches): Format {
    On(On(g, When(s.state, {F_STATE})), Range(F_TIME, F_CTIME))
  }

  ghost function AfterCommand(g: Format, s: Switches): Format {
    On(On(g, When(s.cmndline, {F_CMNDLINE})), When(s.cmdline, {F_CMDLINE}))
  }

  ghost function AfterEnviron(g: Format, s: Switches): Format {
    On(g, When(s.environ, {F_ENVIRON}))
  }

  ghost function AfterLinks(g: Format, s: Switches): Format {
    On(On(g, When(s.cwd, {F_CWD})), When(s.exec, {F_EXEC}))
  }

  ghost function AfterStatus(g: Format, s: Switches): Format {
    On(On(g, When(s.uid, Range(F_EUID, F_FUID))), When(s.gid, Range(F_EGID, F_FGID)))
  }

  ghost function AfterWindows(g: Format, s: Switches): Format {
    On(On(g, When(s.winexename, {F_WINEXENAME})), When(s.winpid, {F_WINPID}))
  }

  ghost function AfterPercent(g: Format, s: Switches): Format {
    On(On(g, {F_PCTCPU}), When(s.memory, {F_PCTMEM}))
  }

  ghost function AfterEarly(g: Format, s: Switches): Format {
    AfterFixup(AfterStat(AfterUser(g, s), s), s)
  }

  ghost function AfterTexts(g: Format, s: Switches): Format {
    AfterLinks(AfterEnviron(AfterCommand(g, s), s), s)
  }

  ghost function AfterLate(g: Format, s: Switches): Format {
    AfterPercent(AfterWindows(AfterStatus(g, s), s), s)
  }

  lemma EarlyMember(g: Format, s: Switches, i: nat)
    ensures i in AfterEarly(g, s).on <==>
            i in g.on || (i <= F_GID && s.owner) || (F_PID <= i <= F_RSS && s.stat) || (i == F_STATE && s.state)
            || F_TIME <= i <= F_CTIME
  {
    assert Between(F_PID, i, F_RSS) <==> F_PID <= i <= F_RSS;
    assert Between(F_TIME, i, F_CTIME) <==> F_TIME <= i <= F_CTIME;
  }

  lemma TextsMember(g: Format, s: Switches, i: nat)
    ensures i in AfterTexts(g, s).on <==>
            i in g.on
            || (i == F_CMNDLINE && s.cmndline) || (i == F_CMDLINE && s.cmdline) || (i == F_ENVIRON && s.environ)
            || (i == F_CWD && s.cwd) || (i == F_EXEC && s.exec)
  {
  }

  lemma LateMember(g: Format, s: Switches, i: nat)
    ensures i in AfterLate(g, s).on <==>
            i in g.on || (F_EUID <= i <= F_FUID && s.uid) || (F_EGID <= i <= F_FGID && s.gid)
            || (i == F_WINEXENAME && s.winexename) || (i == F_WINPID && s.winpid)
            || i == F_PCTCPU || (i == F_PCTMEM && s.memory)
  {
    assert Between(F_EUID, i, F_FUID) <==> F_EUID <= i <= F_FUID;
    assert Between(F_EGID, i, F_FGID) <==> F_EGID <= i <= F_FGID;
  }

  /** The format string at the call of `bless_into_proc`, begun from a copy of the default format. */
  ghost function AtBless(g: Format, s: Switches): Format {
    AfterLate(AfterTexts(AfterEarly(g, s), s), s)
  }

  /** Everything switched on along the way is what the specification of the process says. */
  lemma AllFields(g: Format, s: Switches)
    requires g.on == {}
    ensures AtBless(g, s) == g.(on := FieldsOn(s))
  {
    forall i: nat ensures i in AtBless(g, s).on <==> i in FieldsOn(s) {
      AllMember(g, s, i);
    }
  }

  lemma AllMember(g: Format, s: Switches, i: nat)
    requires g.on == {}
    ensures i in AtBless(g, s).on <==> i <= F_WINPID && IsOn(s, i)
  {
    var g1 := AfterEarly(g, s);
    var g2 := AfterTexts(g1, s);
    EarlyMember(g, s, i);
    TextsMember(g1, s, i);
    LateMember(g2, s, i);
  }

  /** A temporary path comes and goes: the state between readers is as before. */
  method TempPath(ob: Obstack, pid: seq<char>, file: Option<seq<char>>, fmt: nat, ghost g: Format) returns (ok: bool)
    requires Ready(ob, fmt, g) && PathFits(pid, file)
    modifies ob, ob.mem, ob.allocator
    ensures ok <==> ob.failures == old(ob.failures)
    ensures ok ==> Ready(ob, fmt, g) && ob.objects == old(ob.objects)
  {
    ok := TryPath(ob, pid, file);
  }

  /** `get_user_info`. */
  method GetUserInfo(ob: Obstack, pid: seq<char>, owner: Option<(int, int)>, fmt: nat, ghost g: Format)
    returns (ok: bool, uid: int, gid: int)
    requires Ready(ob, fmt, g) && PidFits(pid)
    modifies ob, ob.mem, ob.allocator
    ensures ok <==> ob.failures == old(ob.failures)
    ensures ok ==>
              && Ready(ob, fmt, On(g, When(owner.Some?, {F_UID, F_GID})))
              && SameBut(old(ob.objects), ob.objects, g.k)
              && (uid, gid) == OwnerIds(owner)
  {
    uid, gid := 0, 0;
    ok := TempPath(ob, pid, None, fmt, g);
    if !ok || owner.None? {
      assert On(g, {}) == g;
      return;
    }
    uid, gid := owner.value.0, owner.value.1;
    OwnerEnable(ob, fmt, g);
  }

  method OwnerEnable(ob: Obstack, fmt: nat, ghost g: Format)
    requires Ready(ob, fmt, g)
    modifies ob.mem, ob`objects
    ensures Ready(ob, fmt, On(g, {F_UID, F_GID})) && SameBut(old(ob.objects), ob.objects, g.k)
  {
    FieldEnable(ob, fmt, F_UID, g);
    FieldEnable(ob, fmt, F_GID, On(g, {F_UID}));
    assert On(On(g, {F_UID}), {F_GID}) == On(g, {F_UID, F_GID});
  }

  /** `sscanf` and the two searches of `get_proc_stat`, on the text object `k`, with its NUL written in place. */
  method StatFields(ob: Obstack, text: nat, ghost t: seq<char>, ghost k: nat) returns (rec: StatRecord)
    requires ob.Valid() && k < |ob.objects| && ob.objects[k].addr == text
    requires NUL !in t && t + [NUL] <= ob.objects[k].data
    modifies ob.mem, ob`objects
    ensures ob.Valid() && SameBut(old(ob.objects), ob.objects, k)
    ensures rec == ParseStat(t, COMM_SIZE, STAT_ITEMS)
  {
    TextStored(ob, text, t, k);
    var done, pid, close;
    done, rec, pid, close := StatHead(ob.mem, text, t);
    if !done {
      CutText(ob, text, close, t, k);
      rec := StatParts(ob.mem, text, pid, close, t[..close - 1], t[close..]);
    }
  }

  /** The pid and the last closing parenthesis; without either the record is done. */
  method StatHead(mem: array<char>, text: nat, ghost t: seq<char>)
    returns (done: bool, rec: StatRecord, pid: int, close: nat)
    requires Stored(mem, text, t + [NUL]) && NUL !in t
    ensures done ==> rec == ParseStat(t, COMM_SIZE, STAT_ITEMS)
    ensures !done ==> 0 < close <= |t|
    ensures !done ==> ParseStat(t, COMM_SIZE, STAT_ITEMS) ==
                      ParseParts(pid, t[..close - 1], t[close..], COMM_SIZE, STAT_ITEMS)
  {
    var scanned := SScanInt(mem, text, 0, t);
    assert t[0..] == t;
    if scanned.None? {
      return true, StatRecord(0, [], None, [], false, true), 0, 0;
    }
    pid := scanned.value;
    close := StrRChr(mem, text, ')', t);
    done := close == 0;
    rec := StatRecord(pid, [], None, [], false, false);
  }

  /** The store that makes the closing parenthesis a NUL. */
  method CutText(ob: Obstack, text: nat, close: nat, ghost t: seq<char>, ghost k: nat)
    requires ob.Valid() && k < |ob.objects| && ob.objects[k].addr == text
    requires NUL !in t && t + [NUL] <= ob.objects[k].data && 0 < close <= |t|
    modifies ob.mem, ob`objects
    ensures ob.Valid() && SameBut(old(ob.objects), ob.objects, k)
    ensures Stored(ob.mem, text, t[..close - 1] + [NUL]) && NUL !in t[..close - 1]
    ensures Stored(ob.mem, text + close, t[close..] + [NUL]) && NUL !in t[close..]
  {
    ob.StoreObject(text + close - 1, [NUL], k);
    SpliceCut(old(ob.objects)[k].data, t, close);
    CutStored(ob.mem, text, t, close, ob.objects[k].data);
  }

  /** The name and the rest of the line, now two C strings. */
  method StatParts(mem: array<char>, text: nat, pid: int, close: nat, ghost front: seq<char>, ghost tail: seq<char>)
    returns (rec: StatRecord)
    requires Stored(mem, text, front + [NUL]) && NUL !in front
    requires Stored(mem, text + close, tail + [NUL]) && NUL !in tail
    ensures rec == ParseParts(pid, front, tail, COMM_SIZE, STAT_ITEMS)
  {
    var open, found := StrChr(mem, text, 0, '(', front);
    if !found {
      return StatRecord(pid, [], None, [], false, false);
    }
    var whole := ReadString(mem, text, front);
    var rest := ReadString(mem, text + close, tail);
    var (state, nums) := Tail(rest, STAT_ITEMS);
    var all := state.Some? && |nums| == STAT_ITEMS - 1;
    rec := StatRecord(pid, Cut(whole[open + 1..], COMM_SIZE), state, nums, all, all);
  }

  lemma TextStored(ob: Obstack, text: nat, t: seq<char>, k: nat)
    requires ob.Valid() && k < |ob.objects| && ob.objects[k].addr == text && t + [NUL] <= ob.objects[k].data
    ensures Stored(ob.mem, text, t + [NUL])
  {
    var data := ob.objects[k].data;
    assert data == (t + [NUL]) + data[|t| + 1..];
    StoredSplit(ob.mem, text, t + [NUL], data[|t| + 1..]);
  }

  lemma SpliceCut(was: seq<char>, t: seq<char>, close: nat)
    requires 0 < close <= |t| && t + [NUL] <= was
    ensures var data := Splice(was, close - 1, [NUL]);
            data[..close - 1] == t[..close - 1] && data[close - 1] == NUL && data[close..|t| + 1] == t[close..] + [NUL]
  {
    var data := Splice(was, close - 1, [NUL]);
    var whole := t + [NUL];
    assert forall i | 0 <= i < |whole| && i != close - 1 :: data[i] == was[i] == whole[i];
  }

  /** After the closing parenthesis became a NUL there are two C strings where there was one. */
  lemma CutStored(mem: array<char>, text: nat, t: seq<char>, close: nat, data: seq<char>)
    requires 0 < close <= |t| < |data| && Stored(mem, text, data) && NUL !in t
    requires data[..close - 1] == t[..close - 1] && data[close - 1] == NUL && data[close..|t| + 1] == t[close..] + [NUL]
    ensures Stored(mem, text, t[..close - 1] + [NUL]) && NUL !in t[..close - 1]
    ensures Stored(mem, text + close, t[close..] + [NUL]) && NUL !in t[close..]
  {
    assert data == (t[..close - 1] + [NUL]) + ((t[close..] + [NUL]) + data[|t| + 1..]);
    StoredSplit(mem, text, t[..close - 1] + [NUL], (t[close..] + [NUL]) + data[|t| + 1..]);
    StoredSplit(mem, text + close, t[close..] + [NUL], data[|t| + 1..]);
  }

  lemma TextInFile(content: seq<char>, o: Obj)
    requires HoldsText(o, content)
    ensures CString(content) + [NUL] <= o.data
  {
    var t := CString(content);
    assert (content + [NUL])[|t|] == NUL;
    assert o.data[|t|] == NUL && o.data[..|t|] == t;
  }

  /** A file is read into a temporary object: the readers below look at it and free it. */
  method TempFile(ob: Obstack, pid: seq<char>, name: seq<char>, script: File, fmt: nat, ghost g: Format)
    returns (ok: bool, text: nat)
    requires Ready(ob, fmt, g) && PathFits(pid, Some(name)) && Sensible(script)
    modifies ob, ob.mem, ob.allocator
    ensures ok <==> ob.failures == old(ob.failures)
    ensures ok && !Readable(script) ==> text == 0 && Ready(ob, fmt, g) && ob.objects == old(ob.objects)
    ensures ok && Readable(script) ==>
              && text != 0 && Ready(ob, fmt, g) && Pushed(old(ob.objects), ob.objects, text)
              && TextOf(script) + [NUL] <= ob.objects[|old(ob.objects)|].data
  {
    var len;
    ok, text, len := ReadFile(ob, pid, Some(name), script);
    if ok && Readable(script) {
      assert ob.objects[..|old(ob.objects)|][g.k] == ob.objects[g.k];
      TextInFile(Content(script), ob.objects[|old(ob.objects)|]);
    }
  }

  /** The temporary object goes. */
  method DropText(ob: Obstack, text: nat, fmt: nat, ghost n: nat, ghost g: Format)
    requires Ready(ob, fmt, g) && g.k < n && |ob.objects| == n + 1 && ob.objects[n].addr == text
    modifies ob, ob.allocator
    ensures ob.failures == old(ob.failures)
    ensures Ready(ob, fmt, g) && ob.objects == old(ob.objects)[..n]
  {
    ob.Free(text, n);
  }

  /** `get_proc_stat`. */
  method GetProcStat(ob: Obstack, pid: seq<char>, script: File, fmt: nat, ghost g: Format)
    returns (ok: bool, rec: StatRecord)
    requires Ready(ob, fmt, g) && PidFits(pid) && Sensible(script)
    modifies ob, ob.mem, ob.allocator
    ensures ok <==> ob.failures == old(ob.failures)
    ensures ok ==>
              && rec == StatOfFile(script)
              && Ready(ob, fmt, On(g, When(rec.enabled, Range(F_PID, F_RSS))))
              && SameBut(old(ob.objects), ob.objects, g.k)
  {
    var text;
    ok, text := TempFile(ob, pid, "stat", script, fmt, g);
    rec := StatRecord(0, [], None, [], false, false);
    assert On(g, {}) == g;
    if !ok || text == 0 {
      return;
    }
    rec := StatText(ob, text, fmt, TextOf(script), |old(ob.objects)|, g);
  }

  /** Parse the temporary text, switch the fields on, and free it. */
  method StatText(ob: Obstack, text: nat, fmt: nat, ghost t: seq<char>, ghost n: nat, ghost g: Format)
    returns (rec: StatRecord)
    requires Ready(ob, fmt, g) && g.k < n && |ob.objects| == n + 1 && ob.objects[n].addr == text
    requires NUL !in t && t + [NUL] <= ob.objects[n].data
    modifies ob, ob.mem, ob.allocator
    ensures ob.failures == old(ob.failures)
    ensures rec == ParseStat(t, COMM_SIZE, STAT_ITEMS)
    ensures Ready(ob, fmt, On(g, When(rec.enabled, Range(F_PID, F_RSS))))
    ensures SameBut(old(ob.objects)[..n], ob.objects, g.k)
  {
    rec := StatParse(ob, text, fmt, t, n, g);
    DropText(ob, text, fmt, n, On(g, When(rec.enabled, Range(F_PID, F_RSS))));
  }

  method StatParse(ob: Obstack, text: nat, fmt: nat, ghost t: seq<char>, ghost n: nat, ghost g: Format)
    returns (rec: StatRecord)
    requires Ready(ob, fmt, g) && g.k < n < |ob.objects| && ob.objects[n].addr == text
    requires NUL !in t && t + [NUL] <= ob.objects[n].data
    modifies ob.mem, ob`objects
    ensures rec == ParseStat(t, COMM_SIZE, STAT_ITEMS)
    ensures Ready(ob, fmt, On(g, When(rec.enabled, Range(F_PID, F_RSS))))
    ensures |ob.objects| == |old(ob.objects)| && ob.objects[n].addr == text
    ensures SameBut(old(ob.objects)[..n], ob.objects[..n], g.k)
  {
    rec := StatFields(ob, text, t, n);
    StatEnable(ob, fmt, rec.enabled, g);
  }

  method StatEnable(ob: Obstack, fmt: nat, enabled: bool, ghost g: Format)
    requires Ready(ob, fmt, g)
    modifies ob.mem, ob`objects
    ensures Ready(ob, fmt, On(g, When(enabled, Range(F_PID, F_RSS))))
    ensures SameBut(old(ob.objects), ob.objects, g.k)
  {
    assert On(g, {}) == g;
    if enabled {
      FieldEnableRange(ob, fmt, F_PID, F_RSS, g);
    }
  }

  /** The format once these ids have been read. */
  ghost function WithIds(g: Format, ids: Ids): Format {
    On(On(g, When(ids.hasUid, Range(F_EUID, F_FUID))), When(ids.hasGid, Range(F_EGID, F_FGID)))
  }

  predicate IsLower(c: char) {
    'a' <= c <= 'z'
  }

  /** The default format shows the ids of the status file as capitals. */
  predicate IdsOff(base: seq<char>) {
    |base| == N_FIELDS && 'A' <= base[F_EUID] <= 'Z' && 'A' <= base[F_EGID] <= 'Z'
  }

  /** Before the status file is read, its fields are off. */
  ghost predicate NoIdsYet(g: Format) {
    IdsOff(g.base) && F_EUID !in g.on && F_EGID !in g.on
  }

  /** The readers before it leave them off. */
  lemma StartNoIds(g: Format, s: Switches)
    requires g.on == {} && IdsOff(g.base)
    ensures NoIdsYet(AfterEarly(g, s))
  {
    EarlyMember(g, s, F_EUID);
    EarlyMember(g, s, F_EGID);
  }

  lemma StillNoIds(g: Format, s: Switches)
    requires NoIdsYet(g)
    ensures NoIdsYet(AfterTexts(g, s))
  {
    TextsMember(g, s, F_EUID);
    TextsMember(g, s, F_EGID);
  }

  /** `get_proc_status`. */
  method GetProcStatus(ob: Obstack, pid: seq<char>, script: File, fmt: nat, ghost g: Format)
    returns (ok: bool, ids: Ids)
    requires Ready(ob, fmt, g) && NoIdsYet(g) && PidFits(pid) && Sensible(script)
    requires script.Reads? ==> !StartsWithNewline(TextOf(script))
    modifies ob, ob.mem, ob.allocator
    ensures ok <==> ob.failures == old(ob.failures)
    ensures ok ==>
              && ids == IdsOfFile(script)
              && Ready(ob, fmt, WithIds(g, ids))
              && SameBut(old(ob.objects), ob.objects, g.k)
  {
    var text;
    ok, text := TempFile(ob, pid, "status", script, fmt, g);
    ids := NO_IDS;
    assert WithIds(g, NO_IDS) == g;
    if !ok || text == 0 {
      return;
    }
    ids := StatusText(ob, text, fmt, TextOf(script), |old(ob.objects)|, g);
  }

  /** Scan the temporary text and free it. */
  method StatusText(ob: Obstack, text: nat, fmt: nat, ghost t: seq<char>, ghost n: nat, ghost g: Format)
    returns (ids: Ids)
    requires Scanning(ob, text, fmt, t, n, g, NO_IDS) && |ob.objects| == n + 1 && !StartsWithNewline(t)
    modifies ob, ob.mem, ob.allocator
    ensures ob.failures == old(ob.failures)
    ensures ids == ReadStatus(t, false)
    ensures Ready(ob, fmt, WithIds(g, ids))
    ensures SameBut(old(ob.objects)[..n], ob.objects, g.k)
  {
    ids := StatusLoop(ob, text, fmt, t, n, g);
    DropText(ob, text, fmt, n, WithIds(g, ids));
  }

  /** The loop: the fields of a line are switched on when the line is come to, and the format tells when to stop. */
  method StatusLoop(ob: Obstack, text: nat, fmt: nat, ghost t: seq<char>, ghost n: nat, ghost g: Format)
    returns (ids: Ids)
    requires Scanning(ob, text, fmt, t, n, g, NO_IDS) && !StartsWithNewline(t)
    modifies ob.mem, ob`objects
    ensures ids == ReadStatus(t, false)
    ensures Ready(ob, fmt, WithIds(g, ids)) && SameBut(old(ob.objects), ob.objects, g.k)
  {
    ids := NO_IDS;
    var loc := 0;
    ghost var line := 0;
    ReadStart(t, false);
    while true
      invariant 0 <= line < |LineStarts(t, 0)| && loc == LineStarts(t, 0)[line]
      invariant Scanning(ob, text, fmt, t, n, g, ids) && SameBut(old(ob.objects), ob.objects, g.k)
      invariant ReadFrom(t, line, ids, false) == ReadStatus(t, false)
      decreases |LineStarts(t, 0)| - line
    {
      LineRead(t, line, ids, false);
      var next;
      ids, next := StatusVisit(ob, text, fmt, loc, ids, t, n, g);
      if next.None? {
        return;
      }
      loc := next.value;
      line := line + 1;
    }
  }

  /** The text of the status file is live, and the fields of the ids read so far are on. */
  ghost predicate Scanning(ob: Obstack, text: nat, fmt: nat, t: seq<char>, n: nat, g: Format, ids: Ids)
    reads ob, ob.allocator, ob.mem
  {
    && Ready(ob, fmt, WithIds(g, ids)) && NoIdsYet(g)
    && g.k < n < |ob.objects| && ob.objects[n].addr == text
    && NUL !in t && t + [NUL] <= ob.objects[n].data
  }

  /** One visit: the body of the loop for the line at `loc`, the short circuit, and the next line. */
  method StatusVisit(ob: Obstack, text: nat, fmt: nat, loc: nat, ids: Ids, ghost t: seq<char>, ghost n: nat,
                     ghost g: Format)
    returns (now: Ids, next: Option<nat>)
    requires Scanning(ob, text, fmt, t, n, g, ids) && loc <= |t|
    modifies ob.mem, ob`objects
    ensures now == ReadLine(t, loc, ids, false)
    ensures next == if Complete(now, false) then None else NextVisit(t, loc)
    ensures Scanning(ob, text, fmt, t, n, g, now) && SameBut(old(ob.objects), ob.objects, g.k)
  {
    now := StatusStep(ob, text, fmt, loc, ids, t, n, g);
    var done := BothOn(ob, fmt, now, g);
    next := None;
    if !done {
      next := StatusNext(ob, text, loc, t, n);
    }
  }

  method StatusNext(ob: Obstack, text: nat, loc: nat, ghost t: seq<char>, ghost n: nat) returns (next: Option<nat>)
    requires ob.Valid() && n < |ob.objects| && ob.objects[n].addr == text
    requires NUL !in t && t + [NUL] <= ob.objects[n].data && loc <= |t|
    ensures next == NextVisit(t, loc)
  {
    TextStored(ob, text, t, n);
    next := NextLine(ob.mem, text, loc, t);
  }

  /** The line at `loc` and its fields. */
  method StatusStep(ob: Obstack, text: nat, fmt: nat, loc: nat, ids: Ids, ghost t: seq<char>, ghost n: nat,
                    ghost g: Format)
    returns (now: Ids)
    requires Scanning(ob, text, fmt, t, n, g, ids) && loc <= |t|
    modifies ob.mem, ob`objects
    ensures now == ReadLine(t, loc, ids, false)
    ensures Scanning(ob, text, fmt, t, n, g, now) && SameBut(old(ob.objects), ob.objects, g.k)
  {
    TextStored(ob, text, t, n);
    now := StatusLine(ob.mem, text, loc, ids, false, t);
    var uid := StrNCmp(ob.mem, text, loc, "Uid:", t);
    var gid := StrNCmp(ob.mem, text, loc, "Gid:", t);
    StepFields(g, ids, t, loc);
    if uid {
      FieldEnableRange(ob, fmt, F_EUID, F_FUID, WithIds(g, ids));
    } else if gid {
      FieldEnableRange(ob, fmt, F_EGID, F_FGID, WithIds(g, ids));
    }
  }

  lemma StepFields(g: Format, ids: Ids, t: seq<char>, loc: nat)
    requires loc <= |t|
    ensures WithIds(g, ReadLine(t, loc, ids, false)) ==
            if HasWord(t, loc, "Uid:") then On(WithIds(g, ids), Range(F_EUID, F_FUID))
            else if HasWord(t, loc, "Gid:") then On(WithIds(g, ids), Range(F_EGID, F_FGID))
            else WithIds(g, ids)
  {
  }

  /** The two `islower` tests. */
  method BothOn(ob: Obstack, fmt: nat, ghost ids: Ids, ghost g: Format) returns (both: bool)
    requires Ready(ob, fmt, WithIds(g, ids)) && NoIdsYet(g)
    ensures both == Complete(ids, false)
  {
    ghost var data := ob.objects[g.k].data;
    ob.ObjectStored(g.k);
    IdLetters(g, ids);
    assert ob.mem[fmt + F_EUID] == data[F_EUID] && ob.mem[fmt + F_EGID] == data[F_EGID];
    both := IsLower(ob.mem[fmt + F_EUID]) && IsLower(ob.mem[fmt + F_EGID]);
  }

  lemma IdLetters(g: Format, ids: Ids)
    requires NoIdsYet(g)
    ensures var format := Enable(g.base, WithIds(g, ids).on);
            (IsLower(format[F_EUID]) <==> ids.hasUid) && (IsLower(format[F_EGID]) <==> ids.hasGid)
  {
    assert Between(F_EUID, F_EUID, F_FUID) && !Between(F_EGID, F_EUID, F_FGID);
    assert Between(F_EGID, F_EGID, F_FGID) && !Between(F_EUID, F_EGID, F_FUID);
    assert F_EUID in WithIds(g, ids).on <==> ids.hasUid;
    assert F_EGID in WithIds(g, ids).on <==> ids.hasGid;
  }

  /** `get_proc_winpid`. */
  method GetProcWinpid(ob: Obstack, pid: seq<char>, script: File, fmt: nat, ghost g: Format)
    returns (ok: bool, winpid: Option<int>)
    requires Ready(ob, fmt, g) && PidFits(pid) && Sensible(script)
    modifies ob, ob.mem, ob.allocator
    ensures ok <==> ob.failures == old(ob.failures)
    ensures ok ==>
              && winpid == WinPidOfFile(script)
              && Ready(ob, fmt, On(g, When(winpid.Some?, {F_WINPID})))
              && SameBut(old(ob.objects), ob.objects, g.k)
  {
    var text;
    ok, text := TempFile(ob, pid, "winpid", script, fmt, g);
    winpid := None;
    assert On(g, {}) == g;
    if !ok || text == 0 {
      return;
    }
    winpid := WinpidText(ob, text, fmt, TextOf(script), |old(ob.objects)|, g);
  }

  /** Parse the temporary text, switch the field on, and free it. */
  method WinpidText(ob: Obstack, text: nat, fmt: nat, ghost t: seq<char>, ghost n: nat, ghost g: Format)
    returns (winpid: Option<int>)
    requires Ready(ob, fmt, g) && g.k < n && |ob.objects| == n + 1 && ob.objects[n].addr == text
    requires NUL !in t && t + [NUL] <= ob.objects[n].data
    modifies ob, ob.mem, ob.allocator
    ensures ob.failures == old(ob.failures)
    ensures winpid == if ScanInt(t).Some? then Some(ScanInt(t).value.value) else None
    ensures Ready(ob, fmt, On(g, When(winpid.Some?, {F_WINPID})))
    ensures SameBut(old(ob.objects)[..n], ob.objects, g.k)
  {
    TextStored(ob, text, t, n);
    winpid := SScanInt(ob.mem, text, 0, t);
    assert t[0..] == t && On(g, {}) == g;
    if winpid.Some? {
      FieldEnable(ob, fmt, F_WINPID, g);
    }
    DropText(ob, text, fmt, n, On(g, When(winpid.Some?, {F_WINPID})));
  }

  /** `get_proc_cmdline`, `get_proc_environ` and `get_proc_winexename`: the text stays on the obstack. */
  method KeepFile(ob: Obstack, pid: seq<char>, name: seq<char>, script: File, field: nat, fmt: nat, ghost g: Format)
    returns (ok: bool, text: nat, len: nat)
    requires Ready(ob, fmt, g) && PathFits(pid, Some(name)) && Sensible(script) && field < N_FIELDS
    modifies ob, ob.mem, ob.allocator
    ensures ok <==> ob.failures == old(ob.failures)
    ensures ok && !Readable(script) ==> text == 0 && Ready(ob, fmt, g) && ob.objects == old(ob.objects)
    ensures ok && Readable(script) ==>
              && text != 0 && len == |Content(script)|
              && Ready(ob, fmt, On(g, {field})) && GrownBut(old(ob.objects), ob.objects, g.k, text)
              && HoldsText(ob.objects[|old(ob.objects)|], Content(script))
  {
    ok, text, len := ReadFile(ob, pid, Some(name), script);
    if ok && text != 0 {
      assert ob.objects[..|old(ob.objects)|][g.k] == ob.objects[g.k];
      FieldEnable(ob, fmt, field, g);
    }
  }

  /** The in-place loop of `get_proc_cmndline`: NULs become spaces, except the last byte. */
  method SpaceOut(ob: Obstack, text: nat, len: nat, ghost content: seq<char>, ghost n: nat, fmt: nat, ghost g: Format)
    requires Ready(ob, fmt, g) && g.k < n && |ob.objects| == n + 1 && ob.objects[n].addr == text
    requires len == |content| && HoldsText(ob.objects[n], content)
    modifies ob.mem, ob`objects
    ensures Ready(ob, fmt, g) && SameBut(old(ob.objects), ob.objects, n)
    ensures HoldsText(ob.objects[n], Spaced(content))
  {
    var cur := 0;
    assert content == Partly(content, 0);
    while cur < len as int - 1
      invariant 0 <= cur <= len
      invariant Ready(ob, fmt, g) && SameBut(old(ob.objects), ob.objects, n)
      invariant HoldsText(ob.objects[n], Partly(content, cur))
    {
      SpaceByte(ob, text, cur, content, n, fmt, g);
      cur := cur + 1;
    }
    assert Spaced(content) == Partly(content, cur);
  }

  /** The body of the loop. */
  method SpaceByte(ob: Obstack, text: nat, cur: nat, ghost content: seq<char>, ghost n: nat, fmt: nat, ghost g: Format)
    requires Ready(ob, fmt, g) && g.k < n && |ob.objects| == n + 1 && ob.objects[n].addr == text
    requires cur + 1 < |content| && HoldsText(ob.objects[n], Partly(content, cur))
    modifies ob.mem, ob`objects
    ensures Ready(ob, fmt, g) && SameBut(old(ob.objects), ob.objects, n)
    ensures HoldsText(ob.objects[n], Partly(content, cur + 1))
  {
    ghost var data := ob.objects[n].data;
    ob.ObjectStored(n);
    assert data[cur] == (Partly(content, cur) + [NUL])[cur];
    if ob.mem[text + cur] == NUL {
      ob.StoreObject(text + cur, [' '], n);
    }
    PartlyStep(content, cur, data, ob.objects[n].data);
  }

  /** The buffer when the loop has passed `cur` bytes. */
  ghost function Partly(content: seq<char>, cur: nat): (r: seq<char>)
    ensures |r| == |content|
    ensures forall i | 0 <= i < |content| ::
              r[i] == if content[i] == NUL && i < cur && i < |content| - 1 then ' ' else content[i]
  {
    seq(|content|, i requires 0 <= i < |content| =>
      if content[i] == NUL && i < cur && i < |content| - 1 then ' ' else content[i])
  }

  lemma PartlyStep(content: seq<char>, cur: nat, data: seq<char>, data': seq<char>)
    requires cur + 1 < |content| && Partly(content, cur) + [NUL] <= data
    requires data' == if data[cur] == NUL then Splice(data, cur, [' ']) else data
    ensures Partly(content, cur + 1) + [NUL] <= data'
  {
    var next := Partly(content, cur + 1) + [NUL];
    forall i | 0 <= i < |next| ensures next[i] == data'[i] {
      assert (Partly(content, cur) + [NUL])[i] == data[i];
    }
  }

  /** `get_proc_cmndline`. */
  method GetProcCmndline(ob: Obstack, pid: seq<char>, script: File, fmt: nat, ghost g: Format)
    returns (ok: bool, text: nat)
    requires Ready(ob, fmt, g) && PidFits(pid) && Sensible(script)
    modifies ob, ob.mem, ob.allocator
    ensures ok <==> ob.failures == old(ob.failures)
    ensures ok && !Readable(script) ==> text == 0 && Ready(ob, fmt, g) && ob.objects == old(ob.objects)
    ensures ok && Readable(script) ==>
              && text != 0
              && Ready(ob, fmt, On(g, {F_CMNDLINE})) && GrownBut(old(ob.objects), ob.objects, g.k, text)
              && HoldsText(ob.objects[|old(ob.objects)|], Spaced(Content(script)))
  {
    var len;
    ok, text, len := ReadFile(ob, pid, Some("cmdline"), script);
    if !ok || text == 0 {
      return;
    }
    ghost var n := |old(ob.objects)|;
    assert ob.objects[..n][g.k] == ob.objects[g.k];
    SpaceOut(ob, text, len, Content(script), n, fmt, g);
    FieldEnable(ob, fmt, F_CMNDLINE, g);
  }

  /** `eval_link`: the resolved path stays on the obstack. */
  method EvalLink(ob: Obstack, pid: seq<char>, rel: seq<char>, link: Option<seq<char>>, field: nat, fmt: nat,
                  ghost g: Format)
    returns (ok: bool, p: nat)
    requires Ready(ob, fmt, g) && PathFits(pid, Some(rel)) && field < N_FIELDS
    requires link.Some? ==> |link.value| < PRINTF_SIZE
    modifies ob, ob.mem, ob.allocator
    ensures ok <==> ob.failures == old(ob.failures)
    ensures ok && link.None? ==> p == 0 && Ready(ob, fmt, g) && ob.objects == old(ob.objects)
    ensures ok && link.Some? ==>
              && p != 0
              && Ready(ob, fmt, On(g, {field})) && GrownBut(old(ob.objects), ob.objects, g.k, p)
              && HoldsText(ob.objects[|old(ob.objects)|], link.value)
  {
    p := 0;
    ok := TempPath(ob, pid, Some(rel), fmt, g);
    if !ok || link.None? {
      return;
    }
    ok, p := KeepString(ob, link.value, field, fmt, g);
  }

  /** A string made by the reader itself, kept. */
  method KeepString(ob: Obstack, s: seq<char>, field: nat, fmt: nat, ghost g: Format) returns (ok: bool, p: nat)
    requires Ready(ob, fmt, g) && |s| < PRINTF_SIZE && field < N_FIELDS
    modifies ob, ob.mem, ob.allocator
    ensures ok <==> ob.failures == old(ob.failures)
    ensures ok ==>
              && p != 0
              && Ready(ob, fmt, On(g, {field})) && GrownBut(old(ob.objects), ob.objects, g.k, p)
              && HoldsText(ob.objects[|old(ob.objects)|], s)
  {
    ok, p := PrintString(ob, s);
    if ok {
      assert ob.objects[..|old(ob.objects)|][g.k] == ob.objects[g.k];
      FieldEnable(ob, fmt, field, g);
    }
  }

  /** A pointer field of the process record: null, or the start of live object `k`, which holds `text`. */
  datatype Kept = Kept(p: nat, k: nat, text: Option<seq<char>>)

  ghost predicate Held(objects: seq<Obj>, fk: nat, f: Kept) {
    if f.text.None? then f.p == 0
    else f.p != 0 && f.k < |objects| && f.k != fk && objects[f.k].addr == f.p && HoldsText(objects[f.k], f.text.value)
  }

  /** `struct procstat`: its size is all the obstack sees of it. */
  const PROCSTAT_SIZE: nat := 640

  function Zeroes(n: nat): seq<char> {
    seq(n, _ => NUL)
  }

  /**
    One process being scraped: below are the objects of before, untouched, then
    its record, as it was begun, and its format string, and every text kept so
    far is live and as it was read.
   */
  ghost predicate Intact(objects: seq<Obj>, before: seq<Obj>, prs: nat, fk: nat, kept: seq<Kept>) {
    && fk == |before| + 1 && fk < |objects|
    && objects[..|before|] == before
    && objects[|before|].addr == prs && objects[|before|].data == Zeroes(PROCSTAT_SIZE)
    && forall i | 0 <= i < |kept| :: Held(objects, fk, kept[i])
  }

  lemma IntactSame(objects: seq<Obj>, after: seq<Obj>, before: seq<Obj>, prs: nat, fk: nat, kept: seq<Kept>)
    requires Intact(objects, before, prs, fk, kept) && SameBut(objects, after, fk)
    ensures Intact(after, before, prs, fk, kept)
  {
    assert forall j | 0 <= j < |before| :: after[j] == objects[j] && objects[..|before|][j] == before[j];
    forall i | 0 <= i < |kept| ensures Held(after, fk, kept[i]) {
      assert Held(objects, fk, kept[i]);
    }
  }

  lemma IntactGrown(objects: seq<Obj>, after: seq<Obj>, before: seq<Obj>, prs: nat, fk: nat, kept: seq<Kept>,
                    p: nat, text: seq<char>)
    requires Intact(objects, before, prs, fk, kept) && GrownBut(objects, after, fk, p)
    requires p != 0 && HoldsText(after[|objects|], text)
    ensures Intact(after, before, prs, fk, kept + [Kept(p, |objects|, Some(text))])
  {
    IntactSame(objects, after[..|objects|], before, prs, fk, kept);
    assert after[..|before|] == after[..|objects|][..|before|];
    var kept' := kept + [Kept(p, |objects|, Some(text))];
    forall i | 0 <= i < |kept'| ensures Held(after, fk, kept'[i]) {
      assert i < |kept| ==> Held(after[..|objects|], fk, kept[i]);
    }
  }

  /** What a reader that keeps a text adds: its pointer, null when there is none. */
  lemma IntactAdd(objects: seq<Obj>, after: seq<Obj>, before: seq<Obj>, prs: nat, fk: nat, kept: seq<Kept>,
                  p: nat, text: Option<seq<char>>)
    requires Intact(objects, before, prs, fk, kept)
    requires if text.Some? then p != 0 && GrownBut(objects, after, fk, p) && HoldsText(after[|objects|], text.value)
             else p == 0 && after == objects
    ensures Intact(after, before, prs, fk, kept + [Kept(p, |objects|, text)])
  {
    if text.Some? {
      IntactGrown(objects, after, before, prs, fk, kept, p, text.value);
    }
  }

  /** The pointer fields of `struct procstat`. */
  datatype Pointers = Pointers(
    cmndline: nat, cmdline: nat, cmdlineLen: nat, environ: nat, environLen: nat, cwd: nat, exec: nat, winexename: nat)

  /** The command line as a string. */
  method KeepCmndline(ob: Obstack, p: Proc, fmt: nat, ghost g: Format, ghost before: seq<Obj>, ghost prs: nat)
    returns (ok: bool, cmndline: nat, ghost kept: seq<Kept>)
    requires Ready(ob, fmt, g) && Intact(ob.objects, before, prs, g.k, []) && PidFits(p.pid) && Sensible(p.cmndline)
    modifies ob, ob.mem, ob.allocator
    ensures ok <==> ob.failures == old(ob.failures)
    ensures ok ==>
              && Ready(ob, fmt, On(g, When(Readable(p.cmndline), {F_CMNDLINE})))
              && Intact(ob.objects, before, prs, g.k, kept)
              && |kept| == 1 && kept[0].p == cmndline && kept[0].text == CmndlineText(p)
  {
    kept := [];
    ok, cmndline := GetProcCmndline(ob, p.pid, p.cmndline, fmt, g);
    if ok {
      IntactAdd(old(ob.objects), ob.objects, before, prs, g.k, [], cmndline, CmndlineText(p));
      kept := [Kept(cmndline, |old(ob.objects)|, CmndlineText(p))];
      assert On(g, {}) == g;
    }
  }

  /** A file whose text is kept as it was read. */
  method KeepText(ob: Obstack, pid: seq<char>, name: seq<char>, script: File, field: nat, fmt: nat, ghost g: Format,
                  ghost before: seq<Obj>, ghost prs: nat, ghost had: seq<Kept>)
    returns (ok: bool, text: nat, len: nat, ghost f: Kept)
    requires Ready(ob, fmt, g) && Intact(ob.objects, before, prs, g.k, had)
    requires PathFits(pid, Some(name)) && Sensible(script) && field < N_FIELDS
    modifies ob, ob.mem, ob.allocator
    ensures ok <==> ob.failures == old(ob.failures)
    ensures ok ==>
              && Ready(ob, fmt, On(g, When(Readable(script), {field})))
              && Intact(ob.objects, before, prs, g.k, had + [f])
              && f.p == text && f.text == FileText(script)
              && (Readable(script) ==> len == |Content(script)|)
  {
    ok, text, len := KeepFile(ob, pid, name, script, field, fmt, g);
    f := Kept(text, |old(ob.objects)|, FileText(script));
    if ok {
      IntactAdd(old(ob.objects), ob.objects, before, prs, g.k, had, text, FileText(script));
      assert On(g, {}) == g;
    }
  }

  /** The two readings of the command line. */
  method KeepCommand(ob: Obstack, p: Proc, ghost s: Switches, fmt: nat, ghost g: Format, ghost before: seq<Obj>,
                     ghost prs: nat)
    returns (ok: bool, cmndline: nat, cmdline: nat, cmdlineLen: nat, ghost kept: seq<Kept>)
    requires Ready(ob, fmt, g) && Intact(ob.objects, before, prs, g.k, []) && ProcFits(p)
    requires s.cmndline == Readable(p.cmndline) && s.cmdline == Readable(p.cmdline)
    modifies ob, ob.mem, ob.allocator
    ensures ok <==> ob.failures == old(ob.failures)
    ensures ok ==>
              && Ready(ob, fmt, AfterCommand(g, s))
              && Intact(ob.objects, before, prs, g.k, kept)
              && |kept| == 2
              && kept[0].p == cmndline && kept[0].text == CmndlineText(p)
              && kept[1].p == cmdline && kept[1].text == FileText(p.cmdline)
              && (Readable(p.cmdline) ==> cmdlineLen == |Content(p.cmdline)|)
  {
    cmdline, cmdlineLen := 0, 0;
    ok, cmndline, kept := KeepCmndline(ob, p, fmt, g, before, prs);
    if ok {
      ghost var f;
      ghost var g' := On(g, When(Readable(p.cmndline), {F_CMNDLINE}));
      ok, cmdline, cmdlineLen, f := KeepText(ob, p.pid, "cmdline", p.cmdline, F_CMDLINE, fmt, g', before, prs, kept);
      kept := kept + [f];
    }
  }

  /** The environment. */
  method KeepEnviron(ob: Obstack, p: Proc, ghost s: Switches, fmt: nat, ghost g: Format, ghost before: seq<Obj>,
                     ghost prs: nat, ghost had: seq<Kept>)
    returns (ok: bool, environ: nat, environLen: nat, ghost kept: seq<Kept>)
    requires Ready(ob, fmt, g) && Intact(ob.objects, before, prs, g.k, had) && ProcFits(p)
    requires s.environ == Readable(p.environ)
    modifies ob, ob.mem, ob.allocator
    ensures ok <==> ob.failures == old(ob.failures)
    ensures ok ==>
              && Ready(ob, fmt, AfterEnviron(g, s))
              && Intact(ob.objects, before, prs, g.k, had + kept)
              && |kept| == 1
              && kept[0].p == environ && kept[0].text == FileText(p.environ)
              && (Readable(p.environ) ==> environLen == |Content(p.environ)|)
  {
    ghost var f;
    ok, environ, environLen, f := KeepText(ob, p.pid, "environ", p.environ, F_ENVIRON, fmt, g, before, prs, had);
    kept := [f];
  }

  /** The two links. */
  method KeepLinks(ob: Obstack, p: Proc, ghost s: Switches, fmt: nat, ghost g: Format, ghost before: seq<Obj>,
                   ghost prs: nat, ghost had: seq<Kept>)
    returns (ok: bool, cwd: nat, exec: nat, ghost kept: seq<Kept>)
    requires Ready(ob, fmt, g) && Intact(ob.objects, before, prs, g.k, had) && ProcFits(p)
    requires s.cwd == p.cwd.Some? && s.exec == p.exe.Some?
    modifies ob, ob.mem, ob.allocator
    ensures ok <==> ob.failures == old(ob.failures)
    ensures |kept| == 2
    ensures ok ==>
              && Ready(ob, fmt, AfterLinks(g, s))
              && Intact(ob.objects, before, prs, g.k, had + kept)
              && kept[0].p == cwd && kept[0].text == p.cwd
              && kept[1].p == exec && kept[1].text == p.exe
  {
    ghost var first, second := Kept(0, 0, None), Kept(0, 0, None);
    exec := 0;
    ok, cwd, first := KeepLink(ob, p.pid, "cwd", p.cwd, F_CWD, fmt, g, before, prs, had);
    if ok {
      ghost var g' := On(g, When(p.cwd.Some?, {F_CWD}));
      ok, exec, second := KeepLink(ob, p.pid, "exe", p.exe, F_EXEC, fmt, g', before, prs, had + [first]);
    }
    kept := [first, second];
    assert had + kept == had + [first] + [second];
  }

  /** A link whose path is kept. */
  method KeepLink(ob: Obstack, pid: seq<char>, rel: seq<char>, link: Option<seq<char>>, field: nat, fmt: nat,
                  ghost g: Format, ghost before: seq<Obj>, ghost prs: nat, ghost had: seq<Kept>)
    returns (ok: bool, path: nat, ghost f: Kept)
    requires Ready(ob, fmt, g) && Intact(ob.objects, before, prs, g.k, had)
    requires PathFits(pid, Some(rel)) && field < N_FIELDS && (link.Some? ==> |link.value| < PRINTF_SIZE)
    modifies ob, ob.mem, ob.allocator
    ensures ok <==> ob.failures == old(ob.failures)
    ensures ok ==>
              && Ready(ob, fmt, On(g, When(link.Some?, {field})))
              && Intact(ob.objects, before, prs, g.k, had + [f])
              && f.p == path && f.text == link
  {
    ok, path := EvalLink(ob, pid, rel, link, field, fmt, g);
    f := Kept(path, |old(ob.objects)|, link);
    if ok {
      IntactAdd(old(ob.objects), ob.objects, before, prs, g.k, had, path, link);
      assert On(g, {}) == g;
    }
  }

  /** The status file and the two Windows files. */
  method KeepWindows(ob: Obstack, p: Proc, ghost s: Switches, fmt: nat, ghost g: Format, ghost before: seq<Obj>,
                     ghost prs: nat, ghost had: seq<Kept>)
    returns (ok: bool, winexename: nat, winpid: Option<int>, ghost kept: seq<Kept>)
    requires Ready(ob, fmt, g) && Intact(ob.objects, before, prs, g.k, had) && ProcFits(p)
    requires s.winexename == Readable(p.winexename) && s.winpid == WinPid(p).Some?
    modifies ob, ob.mem, ob.allocator
    ensures ok <==> ob.failures == old(ob.failures)
    ensures ok ==>
              && Ready(ob, fmt, AfterWindows(g, s))
              && Intact(ob.objects, before, prs, g.k, had + kept)
              && |kept| == 1
              && kept[0].p == winexename && kept[0].text == FileText(p.winexename)
              && winpid == WinPid(p)
  {
    winpid := None;
    var len;
    ghost var f;
    ok, winexename, len, f := KeepText(ob, p.pid, "winexename", p.winexename, F_WINEXENAME, fmt, g, before, prs, had);
    kept := [f];
    if !ok {
      return;
    }
    ghost var g' := On(g, When(Readable(p.winexename), {F_WINEXENAME}));
    ghost var mid := ob.objects;
    ok, winpid := GetProcWinpid(ob, p.pid, p.winpid, fmt, g');
    if ok {
      IntactSame(mid, ob.objects, before, prs, g.k, had + kept);
    }
  }

  /** The fields `fixup_stat_values` switches on. */
  method FixupFields(ob: Obstack, fmt: nat, state: Option<char>, ghost g: Format)
    requires Ready(ob, fmt, g)
    modifies ob.mem, ob`objects
    ensures Ready(ob, fmt, On(On(g, When(StateName(state).Some?, {F_STATE})), Range(F_TIME, F_CTIME)))
    ensures SameBut(old(ob.objects), ob.objects, g.k)
  {
    assert On(g, {}) == g;
    if StateName(state).Some? {
      FieldEnable(ob, fmt, F_STATE, g);
    }
    FieldEnableRange(ob, fmt, F_TIME, F_CTIME, On(g, When(StateName(state).Some?, {F_STATE})));
  }

  /** The fields `calc_prec` switches on. */
  method PercentFields(ob: Obstack, fmt: nat, memoryKnown: bool, ghost g: Format)
    requires Ready(ob, fmt, g)
    modifies ob.mem, ob`objects
    ensures Ready(ob, fmt, On(On(g, {F_PCTCPU}), When(memoryKnown, {F_PCTMEM})))
    ensures SameBut(old(ob.objects), ob.objects, g.k)
  {
    FieldEnable(ob, fmt, F_PCTCPU, g);
    ghost var g' := On(g, {F_PCTCPU});
    assert On(g', {}) == g';
    if memoryKnown {
      FieldEnable(ob, fmt, F_PCTMEM, g');
    }
  }

  /** The string behind a pointer field: it is there to be read because its object is live and unmodified. */
  method LoadString(ob: Obstack, p: nat, ghost fk: nat, ghost f: Kept) returns (s: Option<seq<char>>)
    requires ob.Valid() && Held(ob.objects, fk, f) && f.p == p
    ensures s == StringOf(f.text)
  {
    if p == 0 {
      return None;
    }
    ghost var t := CString(f.text.value);
    TextInFile(f.text.value, ob.objects[f.k]);
    TextStored(ob, p, t, f.k);
    var read := ReadString(ob.mem, p, t);
    s := Some(read);
  }

  /** The bytes behind a pointer field and its length. */
  method LoadBuffer(ob: Obstack, p: nat, len: nat, ghost fk: nat, ghost f: Kept) returns (s: Option<seq<char>>)
    requires ob.Valid() && Held(ob.objects, fk, f) && f.p == p
    requires p != 0 ==> len == |f.text.value|
    ensures s == f.text
  {
    if p == 0 {
      return None;
    }
    ghost var t := f.text.value;
    ghost var data := ob.objects[f.k].data;
    assert data == t + data[len..];
    StoredSplit(ob.mem, p, t, data[len..]);
    s := Some(ob.mem[p..p + len]);
    assert s.value == t;
  }

  /** `obstack_alloc`. */
  method ObstackAlloc(ob: Obstack, n: nat) returns (ok: bool, p: nat)
    requires ob.Valid() && ob.growing == [] && n < SPACE
    modifies ob, ob.mem, ob.allocator
    ensures ok <==> ob.failures == old(ob.failures)
    ensures ob.Valid()
    ensures ok ==> ob.growing == [] && p != 0 && Pushed(old(ob.objects), ob.objects, p)
    ensures ok ==> |ob.objects[|old(ob.objects)|].data| == n
  {
    p := 0;
    ok := ob.Blank(n);
    if ok {
      p := FinishText(ob);
    }
  }

  /** The record, zeroed. */
  method NewRecord(ob: Obstack) returns (ok: bool, prs: nat)
    requires ob.Valid() && ob.growing == []
    modifies ob, ob.mem, ob.allocator
    ensures ok <==> ob.failures == old(ob.failures)
    ensures ok ==> ob.Valid() && ob.growing == [] && Pushed(old(ob.objects), ob.objects, prs)
    ensures ok ==> ob.objects[|old(ob.objects)|].data == Zeroes(PROCSTAT_SIZE)
  {
    ghost var n := |ob.objects|;
    ok, prs := ObstackAlloc(ob, PROCSTAT_SIZE);
    if ok {
      ob.StoreObject(prs, Zeroes(PROCSTAT_SIZE), n);
      assert ob.objects[n].data == Zeroes(PROCSTAT_SIZE);
    }
  }

  /** The record, zeroed, and the format string of the next process. */
  method NewProcess(ob: Obstack, base: seq<char>) returns (ok: bool, prs: nat, fmt: nat, ghost g: Format)
    requires ob.Valid() && ob.growing == [] && |base| == N_FIELDS
    modifies ob, ob.mem, ob.allocator
    ensures ok <==> ob.failures == old(ob.failures)
    ensures ok ==>
              && g == Format(|old(ob.objects)| + 1, base, {})
              && Ready(ob, fmt, g) && |ob.objects| == |old(ob.objects)| + 2
              && Intact(ob.objects, old(ob.objects), prs, g.k, [])
  {
    ghost var n := |ob.objects|;
    g := Format(n + 1, base, {});
    fmt := 0;
    ok, prs := NewRecord(ob);
    if !ok {
      return;
    }
    ok, fmt := PrintString(ob, base);
    if ok {
      assert ob.objects[..n] == ob.objects[..n + 1][..n];
      assert ob.objects[n] == ob.objects[..n + 1][n];
      assert Enable(base, {}) == base;
    }
  }

  /** The owner and the stat file. */
  method ScrapeEarly(ob: Obstack, p: Proc, ghost s: Switches, fmt: nat, ghost g: Format)
    returns (ok: bool, uid: int, gid: int, rec: StatRecord)
    requires Ready(ob, fmt, g) && ProcFits(p)
    requires s.owner == p.owner.Some? && s.stat == StatOf(p).enabled
    modifies ob, ob.mem, ob.allocator
    ensures ok <==> ob.failures == old(ob.failures)
    ensures ok ==>
              && Ready(ob, fmt, AfterStat(AfterUser(g, s), s))
              && SameBut(old(ob.objects), ob.objects, g.k)
              && (uid, gid) == OwnerIds(p.owner) && rec == StatOf(p)
  {
    rec := StatRecord(0, [], None, [], false, false);
    ok, uid, gid := GetUserInfo(ob, p.pid, p.owner, fmt, g);
    if ok {
      ok, rec := GetProcStat(ob, p.pid, p.stat, fmt, On(g, When(p.owner.Some?, {F_UID, F_GID})));
    }
  }

  ghost predicate TextSwitches(s: Switches, p: Proc) {
    && s.cmndline == Readable(p.cmndline) && s.cmdline == Readable(p.cmdline) && s.environ == Readable(p.environ)
    && s.cwd == p.cwd.Some? && s.exec == p.exe.Some?
  }

  method ScrapeTexts(ob: Obstack, p: Proc, ghost s: Switches, fmt: nat, ghost g: Format, ghost before: seq<Obj>,
                     ghost prs: nat)
    returns (ok: bool, ptrs: Pointers, ghost kept: seq<Kept>)
    requires Ready(ob, fmt, g) && Intact(ob.objects, before, prs, g.k, []) && ProcFits(p)
    requires TextSwitches(s, p)
    modifies ob, ob.mem, ob.allocator
    ensures ok <==> ob.failures == old(ob.failures)
    ensures ok ==>
              && Ready(ob, fmt, AfterTexts(g, s))
              && Intact(ob.objects, before, prs, g.k, kept)
              && |kept| == 5 && TextsKept(kept, ptrs, p)
  {
    ghost var k1, k2, k3;
    var cmndline, cmdline, cmdlineLen, environ, environLen, cwd, exec;
    kept := [];
    ptrs := Pointers(0, 0, 0, 0, 0, 0, 0, 0);
    ok, cmndline, cmdline, cmdlineLen, k1 := KeepCommand(ob, p, s, fmt, g, before, prs);
    if !ok {
      return;
    }
    ok, environ, environLen, k2 := KeepEnviron(ob, p, s, fmt, AfterCommand(g, s), before, prs, k1);
    if !ok {
      return;
    }
    ok, cwd, exec, k3 := KeepLinks(ob, p, s, fmt, AfterEnviron(AfterCommand(g, s), s), before, prs, k1 + k2);
    kept := k1 + k2 + k3;
    ptrs := Pointers(cmndline, cmdline, cmdlineLen, environ, environLen, cwd, exec, 0);
    if ok {
      TextsJoined(k1, k2, k3, ptrs, p);
    }
  }

  lemma TextsJoined(k1: seq<Kept>, k2: seq<Kept>, k3: seq<Kept>, ptrs: Pointers, p: Proc)
    requires |k1| == 2 && |k2| == 1 && |k3| == 2
    requires k1[0].p == ptrs.cmndline && k1[0].text == CmndlineText(p)
    requires k1[1].p == ptrs.cmdline && k1[1].text == FileText(p.cmdline)
    requires k2[0].p == ptrs.environ && k2[0].text == FileText(p.environ)
    requires k3[0].p == ptrs.cwd && k3[0].text == p.cwd
    requires k3[1].p == ptrs.exec && k3[1].text == p.exe
    requires Readable(p.cmdline) ==> ptrs.cmdlineLen == |Content(p.cmdline)|
    requires Readable(p.environ) ==> ptrs.environLen == |Content(p.environ)|
    ensures |k1 + k2 + k3| == 5 && TextsKept(k1 + k2 + k3, ptrs, p)
  {
  }

  /** The pointers kept so far, in the order the objects were made. */
  ghost predicate TextsKept(kept: seq<Kept>, ptrs: Pointers, p: Proc) {
    && |kept| >= 5
    && kept[0].p == ptrs.cmndline && kept[0].text == CmndlineText(p)
    && kept[1].p == ptrs.cmdline && kept[1].text == FileText(p.cmdline)
    && kept[2].p == ptrs.environ && kept[2].text == FileText(p.environ)
    && kept[3].p == ptrs.cwd && kept[3].text == p.cwd
    && kept[4].p == ptrs.exec && kept[4].text == p.exe
    && (Readable(p.cmdline) ==> ptrs.cmdlineLen == |Content(p.cmdline)|)
    && (Readable(p.environ) ==> ptrs.environLen == |Content(p.environ)|)
  }

  ghost predicate AllKept(kept: seq<Kept>, ptrs: Pointers, p: Proc) {
    |kept| == 6 && TextsKept(kept, ptrs, p) && kept[5].p == ptrs.winexename && kept[5].text == FileText(p.winexename)
  }

  /** The status file and the two Windows files. */
  method ScrapeIds(ob: Obstack, p: Proc, ghost s: Switches, fmt: nat, ghost g: Format,
                   ghost before: seq<Obj>, ghost prs: nat, ghost texts: seq<Kept>)
    returns (ok: bool, winexename: nat, ids: Ids, winpid: Option<int>, ghost more: seq<Kept>)
    requires Ready(ob, fmt, g) && Intact(ob.objects, before, prs, g.k, texts) && ProcFits(p) && NoIdsYet(g)
    requires s.uid == IdsOf(p).hasUid && s.gid == IdsOf(p).hasGid
    requires s.winexename == Readable(p.winexename) && s.winpid == WinPid(p).Some?
    modifies ob, ob.mem, ob.allocator
    ensures ok <==> ob.failures == old(ob.failures)
    ensures ok ==>
              && Ready(ob, fmt, AfterWindows(AfterStatus(g, s), s))
              && Intact(ob.objects, before, prs, g.k, texts + more)
              && |more| == 1 && more[0].p == winexename && more[0].text == FileText(p.winexename)
              && ids == IdsOf(p) && winpid == WinPid(p)
  {
    winpid := None;
    winexename := 0;
    more := [];
    ok, ids := GetProcStatus(ob, p.pid, p.status, fmt, g);
    if !ok {
      return;
    }
    IntactSame(old(ob.objects), ob.objects, before, prs, g.k, texts);
    ok, winexename, winpid, more := KeepWindows(ob, p, s, fmt, AfterStatus(g, s), before, prs, texts);
  }

  /** From the status file to the percentages. */
  method ScrapeLate(ob: Obstack, p: Proc, ghost s: Switches, memoryKnown: bool, fmt: nat, ghost g: Format,
                    ghost before: seq<Obj>, ghost prs: nat, ghost texts: seq<Kept>)
    returns (ok: bool, winexename: nat, ids: Ids, winpid: Option<int>, ghost more: seq<Kept>)
    requires Ready(ob, fmt, g) && Intact(ob.objects, before, prs, g.k, texts) && ProcFits(p) && NoIdsYet(g)
    requires s.uid == IdsOf(p).hasUid && s.gid == IdsOf(p).hasGid && s.memory == memoryKnown
    requires s.winexename == Readable(p.winexename) && s.winpid == WinPid(p).Some?
    modifies ob, ob.mem, ob.allocator
    ensures ok <==> ob.failures == old(ob.failures)
    ensures ok ==>
              && Ready(ob, fmt, AfterLate(g, s))
              && Intact(ob.objects, before, prs, g.k, texts + more)
              && |more| == 1 && more[0].p == winexename && more[0].text == FileText(p.winexename)
              && ids == IdsOf(p) && winpid == WinPid(p)
  {
    ok, winexename, ids, winpid, more := ScrapeIds(ob, p, s, fmt, g, before, prs, texts);
    if ok {
      ScrapePercent(ob, memoryKnown, fmt, AfterWindows(AfterStatus(g, s), s), before, prs, texts + more);
    }
  }

  method ScrapePercent(ob: Obstack, memoryKnown: bool, fmt: nat, ghost g: Format,
                       ghost before: seq<Obj>, ghost prs: nat, ghost kept: seq<Kept>)
    requires Ready(ob, fmt, g) && Intact(ob.objects, before, prs, g.k, kept)
    modifies ob.mem, ob`objects
    ensures Ready(ob, fmt, On(On(g, {F_PCTCPU}), When(memoryKnown, {F_PCTMEM})))
    ensures Intact(ob.objects, before, prs, g.k, kept)
  {
    PercentFields(ob, fmt, memoryKnown, g);
    IntactSame(old(ob.objects), ob.objects, before, prs, g.k, kept);
  }

  lemma AllJoined(texts: seq<Kept>, more: seq<Kept>, had: Pointers, winexename: nat, p: Proc)
    requires |texts| == 5 && TextsKept(texts, had, p)
    requires |more| == 1 && more[0].p == winexename && more[0].text == FileText(p.winexename)
    ensures AllKept(texts + more, had.(winexename := winexename), p)
  {
  }

  /** What the readers leave for the call of `bless_into_proc`; `gone` is the `continue` for a vanished process. */
  datatype Scraped = Scraped(
    gone: bool, prs: nat, fmt: nat, ptrs: Pointers, uid: int, gid: int, stat: StatRecord, ids: Ids, winpid: Option<int>)

  const NOTHING := Scraped(true, 0, 0, Pointers(0, 0, 0, 0, 0, 0, 0, 0), 0, 0,
                           StatRecord(0, [], None, [], false, false), NO_IDS, None)

  ghost predicate SwitchesFit(s: Switches, p: Proc, memoryKnown: bool) {
    && s.owner == p.owner.Some? && s.stat == StatOf(p).enabled && s.state == StateName(StatOf(p).state).Some?
    && TextSwitches(s, p)
    && s.uid == IdsOf(p).hasUid && s.gid == IdsOf(p).hasGid && s.memory == memoryKnown
    && s.winexename == Readable(p.winexename) && s.winpid == WinPid(p).Some?
  }

  /** The scalar results are those of the specification. */
  ghost predicate ScalarsOf(out: Scraped, p: Proc) {
    (out.uid, out.gid) == OwnerIds(p.owner) && out.stat == StatOf(p) && out.ids == IdsOf(p) && out.winpid == WinPid(p)
  }

  /** The body of the loop of `OS_get_table` up to the check that the process is still there. */
  method ScrapeStart(ob: Obstack, p: Proc, base: seq<char>, ghost s: Switches)
    returns (ok: bool, out: Scraped, ghost g: Format)
    requires ob.Valid() && ob.growing == [] && ProcFits(p) && |base| == N_FIELDS
    requires s.owner == p.owner.Some? && s.stat == StatOf(p).enabled
    modifies ob, ob.mem, ob.allocator
    ensures ok <==> ob.failures == old(ob.failures)
    ensures ok ==>
              && g == Format(|old(ob.objects)| + 1, base, {})
              && out.gone == (!StatOf(p).readOk && !p.exists_)
              && Ready(ob, out.fmt, AfterStat(AfterUser(g, s), s)) && |ob.objects| == |old(ob.objects)| + 2
              && Intact(ob.objects, old(ob.objects), out.prs, g.k, [])
              && (out.uid, out.gid) == OwnerIds(p.owner) && out.stat == StatOf(p)
  {
    out := NOTHING;
    var prs, fmt, uid, gid, rec;
    ok, prs, fmt, g := NewProcess(ob, base);
    if !ok {
      return;
    }
    ghost var made := ob.objects;
    ok, uid, gid, rec := ScrapeEarly(ob, p, s, fmt, g);
    if !ok {
      return;
    }
    IntactSame(made, ob.objects, old(ob.objects), prs, g.k, []);
    var gone := false;
    if !rec.readOk {
      ok := TempPath(ob, p.pid, None, fmt, AfterStat(AfterUser(g, s), s));
      gone := !p.exists_;
    }
    out := NOTHING.(gone := gone, prs := prs, fmt := fmt, uid := uid, gid := gid, stat := rec);
  }

  /** The conversions of the stat file's values. */
  method ScrapeFixup(ob: Obstack, fmt: nat, state: Option<char>, ghost s: Switches, ghost g: Format,
                     ghost before: seq<Obj>, ghost prs: nat)
    requires Ready(ob, fmt, g) && Intact(ob.objects, before, prs, g.k, []) && s.state == StateName(state).Some?
    modifies ob.mem, ob`objects
    ensures Ready(ob, fmt, AfterFixup(g, s)) && Intact(ob.objects, before, prs, g.k, [])
  {
    FixupFields(ob, fmt, state, g);
    IntactSame(old(ob.objects), ob.objects, before, prs, g.k, []);
  }

  /** The rest of it, up to the call of `bless_into_proc`. */
  method ScrapeRest(ob: Obstack, p: Proc, memoryKnown: bool, from: Scraped, ghost s: Switches, ghost g: Format,
                    ghost before: seq<Obj>)
    returns (ok: bool, out: Scraped, ghost kept: seq<Kept>)
    requires g.on == {} && IdsOff(g.base) && Ready(ob, from.fmt, AfterStat(AfterUser(g, s), s))
    requires Intact(ob.objects, before, from.prs, g.k, []) && ProcFits(p) && SwitchesFit(s, p, memoryKnown)
    requires (from.uid, from.gid) == OwnerIds(p.owner) && from.stat == StatOf(p)
    modifies ob, ob.mem, ob.allocator
    ensures ok <==> ob.failures == old(ob.failures)
    ensures out.prs == from.prs && out.fmt == from.fmt && out.gone == from.gone
    ensures ok ==>
              && Ready(ob, out.fmt, AtBless(g, s))
              && Intact(ob.objects, before, out.prs, g.k, kept)
              && AllKept(kept, out.ptrs, p) && ScalarsOf(out, p)
  {
    StartNoIds(g, s);
    ScrapeFixup(ob, from.fmt, from.stat.state, s, AfterStat(AfterUser(g, s), s), before, from.prs);
    ok, out, kept := ScrapeKept(ob, p, memoryKnown, from, s, AfterEarly(g, s), before);
  }

  /** From the command line to the percentages. */
  method ScrapeKept(ob: Obstack, p: Proc, memoryKnown: bool, from: Scraped, ghost s: Switches, ghost g: Format,
                    ghost before: seq<Obj>)
    returns (ok: bool, out: Scraped, ghost kept: seq<Kept>)
    requires Ready(ob, from.fmt, g) && Intact(ob.objects, before, from.prs, g.k, []) && ProcFits(p) && NoIdsYet(g)
    requires SwitchesFit(s, p, memoryKnown)
    requires (from.uid, from.gid) == OwnerIds(p.owner) && from.stat == StatOf(p)
    modifies ob, ob.mem, ob.allocator
    ensures ok <==> ob.failures == old(ob.failures)
    ensures out.prs == from.prs && out.fmt == from.fmt && out.gone == from.gone
    ensures ok ==>
              && Ready(ob, out.fmt, AfterLate(AfterTexts(g, s), s))
              && Intact(ob.objects, before, out.prs, g.k, kept)
              && AllKept(kept, out.ptrs, p) && ScalarsOf(out, p)
  {
    out := from;
    StillNoIds(g, s);
    var texts, winexename, ids, winpid;
    ghost var more;
    ok, texts, kept := ScrapeTexts(ob, p, s, from.fmt, g, before, from.prs);
    if !ok {
      return;
    }
    ok, winexename, ids, winpid, more :=
      ScrapeLate(ob, p, s, memoryKnown, from.fmt, AfterTexts(g, s), before, from.prs, kept);
    out := from.(ptrs := texts.(winexename := winexename), ids := ids, winpid := winpid);
    if ok {
      AllJoined(kept, more, texts, winexename, p);
      kept := kept + more;
    }
  }

  /** All of it: the process has vanished, or the record is ready for `bless_into_proc`. */
  method Scrape(ob: Obstack, p: Proc, base: seq<char>, memoryKnown: bool, ghost s: Switches)
    returns (ok: bool, out: Scraped, ghost kept: seq<Kept>)
    requires ob.Valid() && ob.growing == [] && ProcFits(p) && IdsOff(base) && SwitchesFit(s, p, memoryKnown)
    modifies ob, ob.mem, ob.allocator
    ensures ok <==> ob.failures == old(ob.failures)
    ensures ok ==> out.gone == (!StatOf(p).readOk && !p.exists_)
    ensures ok && out.gone ==>
              && ob.Valid() && ob.growing == []
              && |ob.objects| == |old(ob.objects)| + 2 && ob.objects[..|old(ob.objects)|] == old(ob.objects)
    ensures ok && !out.gone ==>
              && Ready(ob, out.fmt, Format(|old(ob.objects)| + 1, base, FieldsOn(s)))
              && Intact(ob.objects, old(ob.objects), out.prs, |old(ob.objects)| + 1, kept)
              && AllKept(kept, out.ptrs, p) && ScalarsOf(out, p)
  {
    ghost var g;
    kept := [];
    ok, out, g := ScrapeStart(ob, p, base, s);
    if ok && !out.gone {
      ok, out, kept := ScrapeRest(ob, p, memoryKnown, out, s, g, old(ob.objects));
      AllFields(g, s);
    }
  }

  /** At the call of `bless_into_proc` every pointer argument is read through memory: each text is live and whole. */
  method LoadTexts(ob: Obstack, ptrs: Pointers, ghost p: Proc, ghost fk: nat, ghost kept: seq<Kept>)
    returns (cmndline: Option<seq<char>>, exec: Option<seq<char>>, cwd: Option<seq<char>>,
             winexename: Option<seq<char>>, cmdline: Option<seq<char>>, environ: Option<seq<char>>)
    requires ob.Valid() && AllKept(kept, ptrs, p)
    requires forall i | 0 <= i < |kept| :: Held(ob.objects, fk, kept[i])
    ensures cmndline == StringOf(CmndlineText(p)) && exec == StringOf(p.exe) && cwd == StringOf(p.cwd)
    ensures winexename == StringOf(FileText(p.winexename))
    ensures cmdline == FileText(p.cmdline) && environ == FileText(p.environ)
  {
    cmndline := LoadString(ob, ptrs.cmndline, fk, kept[0]);
    exec := LoadString(ob, ptrs.exec, fk, kept[4]);
    cwd := LoadString(ob, ptrs.cwd, fk, kept[3]);
    winexename := LoadString(ob, ptrs.winexename, fk, kept[5]);
    cmdline := LoadBuffer(ob, ptrs.cmdline, ptrs.cmdlineLen, fk, kept[1]);
    environ := LoadBuffer(ob, ptrs.environ, ptrs.environLen, fk, kept[2]);
  }
}
