/**
  The loops of the AIX, Digital Unix and HP-UX ports that fetch the kernel's
  process table a batch at a time, and what one pass over the whole table
  would report.
 */
module TableScans {
  import opened Listings

  function Min(a: nat, b: nat): nat {
    if a < b then a else b
  }

  // ----- AIX

  /** `struct procsinfo64`; `none` is the state SNONE, the only one that is skipped. */
  datatype ProcInfo = ProcInfo(pid: int, none: bool)

  function Blessed(e: ProcInfo): seq<int> {
    if e.none then [] else [e.pid]
  }

  /** `getprocs`: the next entries of the table from the cursor on, which moves past them; -1 on an error. */
  method GetProcs(table: seq<ProcInfo>, procs: array<ProcInfo>, index: nat, broken: bool)
    returns (fetched: int, index': nat)
    requires index <= |table|
    modifies procs
    ensures broken ==> fetched == -1 && index' == index
    ensures !broken ==> fetched == Min(procs.Length, |table| - index) && index' == index + fetched
    ensures !broken ==> procs[..fetched] == table[index..index']
  {
    if broken {
      return -1, index;
    }
    fetched := Min(procs.Length, |table| - index);
    index' := index + fetched;
    forall i | 0 <= i < fetched {
      procs[i] := table[index + i];
    }
  }

  /** `bless_procs`. */
  method BlessProcs(procs: array<ProcInfo>, count: int) returns (out: seq<int>)
    requires count <= procs.Length
    ensures out == if count <= 0 then [] else Scan(procs[..count], Blessed)
  {
    out := [];
    var index := 0;
    while index < count
      invariant 0 <= index && (count >= 0 ==> index <= count)
      invariant index <= procs.Length && out == Scan(procs[..index], Blessed) && (count < 0 ==> index == 0)
    {
      assert procs[..index + 1][..index] == procs[..index];
      if !procs[index].none {
        out := out + [procs[index].pid];
      }
      index := index + 1;
    }
    assert procs[..0] == [];
  }

  /**
    The fetch loop of `OS_get_table` on AIX: batches until one comes back short.
    A table whose size is a multiple of the batch ends with an empty one.  Call
    number `i` fails if `broken[i]`; then what was reported is a front part.
   */
  method AixTable(table: seq<ProcInfo>, procs: array<ProcInfo>, broken: seq<bool>)
    returns (out: seq<int>, ghost done: nat, ghost from: seq<nat>)
    requires procs.Length > 0
    modifies procs
    ensures done <= |table| && out == Scan(table[..done], Blessed)
    ensures |from| == |out| && Increasing(from)
    ensures forall k | 0 <= k < |out| ::
              from[k] < done && !table[from[k]].none && out[k] == table[from[k]].pid
    ensures forall i | 0 <= i < done && i !in from :: table[i].none
    ensures true !in broken ==> done == |table|
  {
    out, done, from := [], 0, [];
    var index, call := 0, 0;
    var fetched, more;
    fetched, index := GetProcs(table, procs, 0, |broken| > 0 && broken[0]);
    while fetched >= procs.Length
      invariant done <= index <= |table| && call >= 0
      invariant out == Scan(table[..done], Blessed)
      invariant fetched == -1 ==> index == done && true in broken
      invariant fetched != -1 ==> fetched == index - done == Min(procs.Length, |table| - done)
      invariant fetched != -1 ==> procs[..fetched] == table[done..index]
      decreases |table| - index, fetched
    {
      more := BlessProcs(procs, fetched);
      JoinScans(table, done, index, Blessed);
      out := out + more;
      done := index;
      call := call + 1;
      fetched, index := GetProcs(table, procs, index, call < |broken| && broken[call]);
    }
    more := BlessProcs(procs, fetched);
    JoinScans(table, done, index, Blessed);
    out := out + more;
    done := index;
    from := AixLists(table[..done]);
  }

  /** Of the entries those that are not in state SNONE are listed, in order. */
  lemma AixLists(table: seq<ProcInfo>) returns (from: seq<nat>)
    ensures var out := Scan(table, Blessed);
            && |from| == |out| && Increasing(from)
            && (forall k | 0 <= k < |out| ::
                  from[k] < |table| && !table[from[k]].none && out[k] == table[from[k]].pid)
            && (forall i | 0 <= i < |table| && i !in from :: table[i].none)
  {
    from := ScanLists(table, Blessed);
    var out := Scan(table, Blessed);
    forall k | 0 <= k < |out|
      ensures from[k] < |table| && !table[from[k]].none && out[k] == table[from[k]].pid
    {
      assert ReportOf(table, Blessed, from[k], out[k]);
    }
  }

  // ----- Digital Unix

  /** An entry of the kernel's table; `readable` is whether its process file can be opened and asked. */
  datatype Entry = Entry(pid: int, empty: bool, readable: bool)

  function Reported(e: Entry): seq<int> {
    if e.empty || !e.readable then [] else [e.pid]
  }

  const PROCCNT: nat := 64

  /** `table (TBL_PROCINFO, base, ..)`: up to 64 entries from `base` on; the rest of the window is not written. */
  method FetchWindow(table: seq<Entry>, base: nat, pstbl: array<Entry>)
    requires base <= |table| && pstbl.Length == PROCCNT
    modifies pstbl
    ensures forall i | 0 <= i < PROCCNT && base + i < |table| :: pstbl[i] == table[base + i]
    ensures forall i | 0 <= i < PROCCNT && base + i >= |table| :: pstbl[i] == old(pstbl[i])
  {
    forall i | 0 <= i < PROCCNT && base + i < |table| {
      pstbl[i] := table[base + i];
    }
  }

  /**
    What slot `i` of the window holds once window number `b` has been asked for:
    the entry fetched there last, or what the array held at the start.
   */
  ghost function SlotAfter(table: seq<Entry>, fetchOk: seq<bool>, init: seq<Entry>, b: int, i: nat): Entry
    requires b < |fetchOk| && |init| == PROCCNT && i < PROCCNT
    decreases if b < 0 then 0 else b + 1
  {
    if b < 0 then init[i]
    else if fetchOk[b] && b * PROCCNT + i < |table| then table[b * PROCCNT + i]
    else SlotAfter(table, fetchOk, init, b - 1, i)
  }

  /** The window is as the fetches up to number `b` have left it. */
  ghost predicate WindowIs(pstbl: seq<Entry>, table: seq<Entry>, fetchOk: seq<bool>, init: seq<Entry>, b: int) {
    && |pstbl| == |init| == PROCCNT && b < |fetchOk|
    && forall i: nat | i < PROCCNT :: pstbl[i] == SlotAfter(table, fetchOk, init, b, i)
  }

  /** What the loop reports for entry `p`: nothing if the fetch at `p` fails, else its slot of the window. */
  ghost function DecReport(table: seq<Entry>, fetchOk: seq<bool>, init: seq<Entry>, p: nat): seq<int>
    requires p / PROCCNT < |fetchOk| && |init| == PROCCNT
  {
    if p % PROCCNT == 0 && !fetchOk[p / PROCCNT] then []
    else Reported(SlotAfter(table, fetchOk, init, p / PROCCNT, p % PROCCNT))
  }

  ghost function DecScan(table: seq<Entry>, fetchOk: seq<bool>, init: seq<Entry>, n: nat): seq<int>
    requires n <= |fetchOk| * PROCCNT && |init| == PROCCNT
  {
    if n == 0 then []
    else DecScan(table, fetchOk, init, n - 1) + DecReport(table, fetchOk, init, n - 1)
  }

  lemma WindowIndex(procnum: nat, b: nat)
    requires b * PROCCNT <= procnum < b * PROCCNT + PROCCNT
    ensures procnum / PROCCNT == b && procnum % PROCCNT == procnum - b * PROCCNT
  {
  }

  /** Ask for window number `b`. */
  method Refill(table: seq<Entry>, fetchOk: seq<bool>, pstbl: array<Entry>, b: nat, ghost init: seq<Entry>)
    returns (fetched: bool)
    requires WindowIs(pstbl[..], table, fetchOk, init, b - 1) && b < |fetchOk| && b * PROCCNT <= |table|
    modifies pstbl
    ensures fetched == fetchOk[b] && WindowIs(pstbl[..], table, fetchOk, init, b)
  {
    fetched := fetchOk[b];
    if fetched {
      FetchWindow(table, b * PROCCNT, pstbl);
    }
  }

  /** The rest of the loop's body: the entry the window shows for `procnum`. */
  method ReportEntry(pstbl: array<Entry>, procnum: nat, ghost table: seq<Entry>, ghost fetchOk: seq<bool>,
                     ghost init: seq<Entry>)
    returns (pids: seq<int>)
    requires WindowIs(pstbl[..], table, fetchOk, init, procnum / PROCCNT)
    ensures pids == Reported(SlotAfter(table, fetchOk, init, procnum / PROCCNT, procnum % PROCCNT))
  {
    pids := [];
    var i := procnum % PROCCNT;
    assert pstbl[i] == pstbl[..][i];
    if !pstbl[i].empty && pstbl[i].readable {
      pids := [pstbl[i].pid];
    }
  }

  /** The window covers entry `procnum`, or starts at it. */
  ghost predicate Covers(procbase: int, procnum: nat, b: int) {
    procbase == b * PROCCNT && procbase <= procnum < procbase + PROCCNT && 0 <= b
  }

  /** The top of the loop's body: a new window when the old one is used up. */
  method NextWindow(table: seq<Entry>, fetchOk: seq<bool>, pstbl: array<Entry>, procnum: nat, procbase: int,
                    ghost b: int, ghost init: seq<Entry>)
    returns (base: int, fetched: bool, ghost b': int)
    requires procnum < |table| <= |fetchOk| * PROCCNT && WindowIs(pstbl[..], table, fetchOk, init, b)
    requires if procnum == 0 then procbase < 0 && b == -1 else Covers(procbase, procnum - 1, b)
    modifies pstbl
    ensures Covers(base, procnum, b') && WindowIs(pstbl[..], table, fetchOk, init, b')
    ensures fetched <==> procnum % PROCCNT != 0 || fetchOk[procnum / PROCCNT]
  {
    base, fetched, b' := procbase, true, b;
    if procbase < 0 || procnum >= procbase + PROCCNT {
      base := procnum;
      b' := b + 1;
      WindowIndex(procnum, b');
      fetched := Refill(table, fetchOk, pstbl, procnum / PROCCNT, init);
    } else {
      WindowIndex(procnum, b);
    }
  }

  /** The loop of `OS_get_table` on Digital Unix; fetch number `b` succeeds if `fetchOk[b]`. */
  method DecTable(table: seq<Entry>, fetchOk: seq<bool>, pstbl: array<Entry>) returns (out: seq<int>)
    requires pstbl.Length == PROCCNT && |table| <= |fetchOk| * PROCCNT
    modifies pstbl
    ensures out == DecScan(table, fetchOk, old(pstbl[..]), |table|)
  {
    out := [];
    var procbase := -1;
    ghost var b := -1;
    for procnum := 0 to |table|
      invariant out == DecScan(table, fetchOk, old(pstbl[..]), procnum)
      invariant if procnum == 0 then procbase < 0 && b == -1 else Covers(procbase, procnum - 1, b)
      invariant WindowIs(pstbl[..], table, fetchOk, old(pstbl[..]), b)
    {
      var fetched, pids := true, [];
      procbase, fetched, b := NextWindow(table, fetchOk, pstbl, procnum, procbase, b, old(pstbl[..]));
      WindowIndex(procnum, b);
      if fetched {
        pids := ReportEntry(pstbl, procnum, table, fetchOk, old(pstbl[..]));
      }
      out := out + pids;
    }
  }

  /** The last window up to number `b` whose fetch succeeded, -1 if none did. */
  function Latest(fetchOk: seq<bool>, b: int): (w: int)
    requires b < |fetchOk|
    ensures -1 <= w < |fetchOk| && (b >= 0 ==> w <= b) && (w >= 0 ==> fetchOk[w])
    ensures b >= 0 && fetchOk[b] ==> w == b
    decreases if b < 0 then 0 else b + 1
  {
    if b < 0 then -1 else if fetchOk[b] then b else Latest(fetchOk, b - 1)
  }

  lemma {:induction false} SlotIsLatest(table: seq<Entry>, fetchOk: seq<bool>, init: seq<Entry>, b: int, i: nat)
    requires b < |fetchOk| && |init| == PROCCNT && i < PROCCNT && b * PROCCNT + i < |table|
    ensures var w := Latest(fetchOk, b);
            SlotAfter(table, fetchOk, init, b, i) == if w < 0 then init[i] else table[w * PROCCNT + i]
    decreases if b < 0 then 0 else b + 1
  {
    if b >= 0 && !fetchOk[b] {
      SlotIsLatest(table, fetchOk, init, b - 1, i);
    }
  }

  /**
    What is reported for slot `i` of window `b`, whichever fetches fail.  A
    failed fetch skips the first entry of its window only; the others report
    that slot of the last window fetched, or, when none has been, of whatever
    the array held before the loop.
   */
  lemma FailedFetchRepeats(table: seq<Entry>, fetchOk: seq<bool>, init: seq<Entry>, b: nat, i: nat)
    requires b < |fetchOk| && |init| == PROCCNT && i < PROCCNT && b * PROCCNT + i < |table|
    ensures var w := Latest(fetchOk, b);
            DecReport(table, fetchOk, init, b * PROCCNT + i) ==
            if i == 0 && w != b then [] else Reported(if w < 0 then init[i] else table[w * PROCCNT + i])
  {
    WindowIndex(b * PROCCNT + i, b);
    SlotIsLatest(table, fetchOk, init, b, i);
  }

  /** Every window the loop asks for is fetched. */
  ghost predicate AllFetched(fetchOk: seq<bool>, n: nat) {
    forall b: nat | b < |fetchOk| && b * PROCCNT < n :: fetchOk[b]
  }

  /** Then `procnum % 64` always addresses entry `procnum`, and the scan is the flat one. */
  lemma {:induction false} DecScanIsFlat(table: seq<Entry>, fetchOk: seq<bool>, init: seq<Entry>, n: nat)
    requires n <= |table| && n <= |fetchOk| * PROCCNT && |init| == PROCCNT && AllFetched(fetchOk, n)
    ensures DecScan(table, fetchOk, init, n) == Scan(table[..n], Reported)
  {
    if n > 0 {
      var p := n - 1;
      DecScanIsFlat(table, fetchOk, init, p);
      NextScan(table, p, Reported);
      assert fetchOk[p / PROCCNT];
      FailedFetchRepeats(table, fetchOk, init, p / PROCCNT, p % PROCCNT);
    }
  }

  /** The flat scan lists the processes that are there and can be opened, in order. */
  lemma DecLists(table: seq<Entry>) returns (from: seq<nat>)
    ensures var out := Scan(table, Reported);
            && |from| == |out| && Increasing(from)
            && (forall k | 0 <= k < |out| ::
                  from[k] < |table| && !table[from[k]].empty && table[from[k]].readable && out[k] == table[from[k]].pid)
            && (forall i | 0 <= i < |table| && i !in from :: table[i].empty || !table[i].readable)
  {
    from := ScanLists(table, Reported);
    var out := Scan(table, Reported);
    forall k | 0 <= k < |out|
      ensures from[k] < |table| && !table[from[k]].empty && table[from[k]].readable && out[k] == table[from[k]].pid
    {
      assert ReportOf(table, Reported, from[k], out[k]);
    }
  }

  /** A table of `n` processes numbered by their place, and a window with nothing in it. */
  function Numbered(n: nat): seq<Entry> {
    seq(n, i => Entry(i, false, true))
  }

  function EmptyWindow(): seq<Entry> {
    seq(PROCCNT, _ => Entry(0, true, true))
  }

  lemma FirstOfFetched(w: int, i: nat, b: nat)
    requires i < PROCCNT
    ensures w * PROCCNT + i == b * PROCCNT ==> w == b
  {
  }

  lemma NotReported(fetchOk: seq<bool>, n: nat, b: nat, c: nat, i: nat)
    requires b < |fetchOk| && !fetchOk[b] && c < |fetchOk| && i < PROCCNT && c * PROCCNT + i < n
    ensures b * PROCCNT !in DecReport(Numbered(n), fetchOk, EmptyWindow(), c * PROCCNT + i)
  {
    FailedFetchRepeats(Numbered(n), fetchOk, EmptyWindow(), c, i);
    FirstOfFetched(Latest(fetchOk, c), i, b);
  }

  /** The first entry of a window whose fetch fails is never listed. */
  lemma {:induction false} NeverListed(fetchOk: seq<bool>, n: nat, b: nat, m: nat)
    requires m <= n <= |fetchOk| * PROCCNT && b < |fetchOk| && !fetchOk[b]
    ensures b * PROCCNT !in DecScan(Numbered(n), fetchOk, EmptyWindow(), m)
  {
    if m > 0 {
      var p := m - 1;
      NeverListed(fetchOk, n, b, p);
      NotReported(fetchOk, n, b, p / PROCCNT, p % PROCCNT);
    }
  }

  /** The scan is the flat one, for every table of `n` entries, if and only if every window asked for is fetched. */
  lemma FlatIffFetched(fetchOk: seq<bool>, n: nat)
    requires n <= |fetchOk| * PROCCNT
    ensures (forall table, init | |table| == n && |init| == PROCCNT ::
               DecScan(table, fetchOk, init, n) == Scan(table, Reported)) <==> AllFetched(fetchOk, n)
  {
    if AllFetched(fetchOk, n) {
      forall table: seq<Entry>, init: seq<Entry> | |table| == n && |init| == PROCCNT
        ensures DecScan(table, fetchOk, init, n) == Scan(table, Reported)
      {
        DecScanIsFlat(table, fetchOk, init, n);
        assert table[..n] == table;
      }
    } else {
      var b: nat :| b < |fetchOk| && b * PROCCNT < n && !fetchOk[b];
      var table := Numbered(n);
      NeverListed(fetchOk, n, b, n);
      assert Reported(table[b * PROCCNT]) == [b * PROCCNT];
      ScanHas(table, b * PROCCNT, b * PROCCNT, Reported);
      assert |table| == n && |EmptyWindow()| == PROCCNT;
    }
  }

  // ----- HP-UX

  /** A slot of the kernel's table: free, or a process. */
  datatype Slot = Free | Used(pid: int)

  /** `struct pst_status`: the process and the index of its slot. */
  datatype Status = Status(pid: int, idx: nat)

  function SlotPid(s: Slot): seq<int> {
    if s.Used? then [s.pid] else []
  }

  function StatusPid(s: Status): seq<int> {
    [s.pid]
  }

  /**
    The processes in the slots from `idx` to `i` are those of the burst so far;
    `last` is behind the slot of the last of them.
   */
  ghost predicate BurstIs(slots: seq<Slot>, idx: nat, last: nat, i: nat, burst: seq<Status>) {
    && idx <= last <= i <= |slots|
    && Scan(burst, StatusPid) == Scan(slots[idx..i], SlotPid)
    && Scan(slots[last..i], SlotPid) == []
    && (if burst == [] then last == idx else burst[|burst| - 1].idx + 1 == last && idx < last)
  }

  lemma NextSlot(slots: seq<Slot>, from: nat, i: nat)
    requires from <= i < |slots|
    ensures Scan(slots[from..i + 1], SlotPid) == Scan(slots[from..i], SlotPid) + SlotPid(slots[i])
  {
    assert slots[from..i + 1][..i - from] == slots[from..i];
  }

  lemma BurstStep(slots: seq<Slot>, idx: nat, last: nat, i: nat, burst: seq<Status>)
    requires BurstIs(slots, idx, last, i, burst) && i < |slots|
    ensures slots[i].Used? ==> BurstIs(slots, idx, i + 1, i + 1, burst + [Status(slots[i].pid, i)])
    ensures !slots[i].Used? ==> BurstIs(slots, idx, last, i + 1, burst)
  {
    NextSlot(slots, idx, i);
    NextSlot(slots, last, i);
    if slots[i].Used? {
      var more := burst + [Status(slots[i].pid, i)];
      assert more[..|burst|] == burst;
    }
  }

  method PutStatus(pst: array<Status>, n: nat, s: Status)
    requires n < pst.Length
    modifies pst
    ensures pst[n] == s && pst[..n + 1] == old(pst[..n]) + [s]
  {
    pst[n] := s;
  }

  /** `pstat_getproc`: the processes in the slots from `idx` on, as many as fit; `end` is where it stopped looking. */
  method PstatGetproc(slots: seq<Slot>, pst: array<Status>, idx: nat) returns (count: nat, ghost end: nat)
    requires pst.Length > 0 && idx <= |slots|
    modifies pst
    ensures count <= pst.Length && idx <= end <= |slots|
    ensures BurstIs(slots, idx, if count == 0 then idx else pst[count - 1].idx + 1, end, pst[..count])
    ensures count == 0 ==> end == |slots|
  {
    count := 0;
    var i := idx;
    ghost var last: nat := idx;
    while i < |slots| && count < pst.Length
      invariant idx <= i <= |slots| && count <= pst.Length && BurstIs(slots, idx, last, i, pst[..count])
      invariant count < pst.Length || last == i
    {
      BurstStep(slots, idx, last, i, pst[..count]);
      if slots[i].Used? {
        PutStatus(pst, count, Status(slots[i].pid, i));
        count := count + 1;
        last := i + 1;
      }
      i := i + 1;
    }
    end := i;
  }

  /** The inner loop: a record for each status of the burst. */
  method BlessBurst(pst: array<Status>, count: nat) returns (out: seq<int>)
    requires count <= pst.Length
    ensures out == Scan(pst[..count], StatusPid)
  {
    out := [];
    var i := 0;
    while i < count
      invariant 0 <= i <= count && out == Scan(pst[..i], StatusPid)
    {
      assert pst[..i + 1][..i] == pst[..i];
      out := out + [pst[i].pid];
      i := i + 1;
    }
  }

  /** The cursor loop of `OS_get_table` on HP-UX: every process once, in slot order, whatever the size of the burst. */
  method HpuxTable(slots: seq<Slot>, pst: array<Status>) returns (out: seq<int>, ghost from: seq<nat>)
    requires pst.Length > 0
    modifies pst
    ensures out == Scan(slots, SlotPid)
    ensures |from| == |out| && Increasing(from)
    ensures forall k | 0 <= k < |out| :: from[k] < |slots| && slots[from[k]] == Used(out[k])
    ensures forall i | 0 <= i < |slots| && i !in from :: slots[i] == Free
  {
    out, from := [], [];
    var idx := 0;
    var count: nat;
    ghost var end: nat;
    count, end := PstatGetproc(slots, pst, idx);
    while count > 0
      invariant idx <= end <= |slots| && count <= pst.Length
      invariant out == Scan(slots[..idx], SlotPid)
      invariant BurstIs(slots, idx, if count == 0 then idx else pst[count - 1].idx + 1, end, pst[..count])
      invariant count == 0 ==> end == |slots|
      decreases |slots| - idx, count
    {
      var pids := BlessBurst(pst, count);
      out := out + pids;
      var next := pst[count - 1].idx + 1;
      JoinSlots(slots, idx, next, end);
      idx := next;
      count, end := PstatGetproc(slots, pst, idx);
    }
    assert pst[..0] == [];
    JoinSlots(slots, idx, idx, end);
    assert Scan(slots[..idx], SlotPid) == Scan(slots[..end], SlotPid) && slots[..end] == slots;
    from := HpuxLists(slots);
  }

  lemma HpuxLists(slots: seq<Slot>) returns (from: seq<nat>)
    ensures var out := Scan(slots, SlotPid);
            && |from| == |out| && Increasing(from)
            && (forall k | 0 <= k < |out| :: from[k] < |slots| && slots[from[k]] == Used(out[k]))
            && (forall i | 0 <= i < |slots| && i !in from :: slots[i] == Free)
  {
    from := ScanLists(slots, SlotPid);
    var out := Scan(slots, SlotPid);
    forall k | 0 <= k < |out| ensures from[k] < |slots| && slots[from[k]] == Used(out[k]) {
      assert ReportOf(slots, SlotPid, from[k], out[k]);
    }
  }

  /** The slots after the last process of a burst hold none up to where the kernel stopped. */
  lemma JoinSlots(slots: seq<Slot>, idx: nat, next: nat, end: nat)
    requires idx <= next <= end <= |slots| && Scan(slots[next..end], SlotPid) == []
    ensures Scan(slots[..idx], SlotPid) + Scan(slots[idx..end], SlotPid) == Scan(slots[..next], SlotPid)
    ensures Scan(slots[..next], SlotPid) == Scan(slots[..end], SlotPid)
  {
    assert slots[..next] + slots[next..end] == slots[..end];
    ScanAppend(slots[..next], slots[next..end], SlotPid);
    assert slots[idx..end] == slots[idx..next] + slots[next..end];
    ScanAppend(slots[idx..next], slots[next..end], SlotPid);
    assert slots[..next] == slots[..idx] + slots[idx..next];
    ScanAppend(slots[..idx], slots[idx..next], SlotPid);
  }
}
