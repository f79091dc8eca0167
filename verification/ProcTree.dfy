/**
  The sub-processes of a process: `get_pids` of lib/Proc/Killfam.pm and
  `subproc_ids` of contrib/ppt_profile.pl.
 */
module ProcTree {
  import opened Memory

  datatype Row = Row(pid: int, ppid: int)

  /** A chain of parents and children, downwards. */
  ghost predicate IsPath(procs: seq<Row>, path: seq<int>) {
    forall i, j {:trigger path[i], path[j]} | 0 <= i && j == i + 1 && j < |path| :: Row(path[j], path[i]) in procs
  }

  ghost predicate Descends(procs: seq<Row>, path: seq<int>, k: int) {
    |path| > 0 && path[0] == k && IsPath(procs, path)
  }

  /** Following children from `k` one can come round to the same pid again. */
  ghost predicate LeadsToCycle(procs: seq<Row>, k: int) {
    exists path, i, j :: Descends(procs, path, k) && 0 <= i < j < |path| && path[i] == path[j]
  }

  /** `x` is a child of `k`, or a child of a child, and so on. */
  ghost predicate IsDescendant(procs: seq<Row>, k: int, x: int) {
    exists path :: Descends(procs, path, k) && |path| > 1 && path[|path| - 1] == x
  }

  /**
    The recursion of `get_pids` for one requested pid, from row `j` on, with
    calls nested at most `fuel` deep; `None` when that is not deep enough.
   */
  function Below(procs: seq<Row>, k: int, j: nat, fuel: nat): Option<seq<int>>
    requires j <= |procs|
    decreases fuel, |procs| - j
  {
    if j == |procs| then Some([])
    else if procs[j].ppid != k then Below(procs, k, j + 1, fuel)
    else if fuel == 0 then None
    else
      var sub := Below(procs, procs[j].pid, 0, fuel - 1);
      var more := Below(procs, k, j + 1, fuel);
      if sub.None? || more.None? then None
      else Some([procs[j].pid] + sub.value + more.value)
  }

  /** The recursion ends at some depth. */
  ghost predicate Ends(procs: seq<Row>, k: int) {
    exists fuel: nat :: Below(procs, k, 0, fuel).Some?
  }

  // ----- When it ends

  /** The recursion is too deep for the fuel exactly when there is a path that long. */
  lemma {:induction false} DeepPath(procs: seq<Row>, k: int, j: nat, fuel: nat) returns (path: seq<int>)
    requires j <= |procs| && Below(procs, k, j, fuel).None?
    ensures Descends(procs, path, k) && |path| == fuel + 2
    decreases fuel, |procs| - j
  {
    if procs[j].ppid != k {
      path := DeepPath(procs, k, j + 1, fuel);
    } else {
      var pid := procs[j].pid;
      assert Row(pid, k) in procs;
      if fuel == 0 {
        path := [k, pid];
      } else if Below(procs, pid, 0, fuel - 1).None? {
        var tail := DeepPath(procs, pid, 0, fuel - 1);
        path := [k] + tail;
        PathFromBelow(procs, k, tail);
      } else {
        path := DeepPath(procs, k, j + 1, fuel);
      }
    }
  }

  lemma PathFromBelow(procs: seq<Row>, k: int, tail: seq<int>)
    requires |tail| > 0 && IsPath(procs, tail) && Row(tail[0], k) in procs
    ensures IsPath(procs, [k] + tail)
  {
    var path := [k] + tail;
    forall h, i | 0 <= h && i == h + 1 && i < |path| ensures Row(path[i], path[h]) in procs {
      assert path[i] == tail[h] && (h > 0 ==> path[h] == tail[h - 1]);
    }
  }

  lemma {:induction false} PathTooDeep(procs: seq<Row>, k: int, j: nat, fuel: nat, path: seq<int>, m: nat)
    requires Descends(procs, path, k) && |path| == fuel + 2
    requires j <= m < |procs| && procs[m] == Row(path[1], k)
    ensures Below(procs, k, j, fuel).None?
    decreases fuel, m - j
  {
    if j < m {
      PathTooDeep(procs, k, j + 1, fuel, path, m);
    } else if fuel > 0 {
      var tail := path[1..];
      PathSuffix(procs, path, 1);
      assert Row(tail[1], tail[0]) in procs;
      var m' :| 0 <= m' < |procs| && procs[m'] == Row(tail[1], tail[0]);
      PathTooDeep(procs, path[1], 0, fuel - 1, tail, m');
    }
  }

  /** Elements without repetition from a finite set are at most as many as the set has. */
  lemma {:induction false} DistinctFit(s: seq<int>, all: set<int>)
    requires forall i | 0 <= i < |s| :: s[i] in all
    requires forall i, j | 0 <= i < j < |s| :: s[i] != s[j]
    ensures |s| <= |all|
  {
    if s != [] {
      var last := s[|s| - 1];
      DistinctFit(s[..|s| - 1], all - {last});
    }
  }

  ghost function Pids(procs: seq<Row>): set<int> {
    if procs == [] then {} else Pids(procs[1..]) + {procs[0].pid}
  }

  lemma {:induction false} PidsSize(procs: seq<Row>)
    ensures |Pids(procs)| <= |procs|
    ensures forall r | r in procs :: r.pid in Pids(procs)
  {
    if procs != [] {
      PidsSize(procs[1..]);
      assert forall r | r in procs :: r == procs[0] || r in procs[1..];
    }
  }

  /** Without a cycle, a depth of as many calls as there are rows is enough. */
  lemma EnoughFuel(procs: seq<Row>, k: int)
    requires !LeadsToCycle(procs, k)
    ensures Below(procs, k, 0, |procs|).Some?
  {
    if Below(procs, k, 0, |procs|).None? {
      var path := DeepPath(procs, k, 0, |procs|);
      var tail := path[1..];
      PidsSize(procs);
      forall i | 0 <= i < |tail| ensures tail[i] in Pids(procs) {
        assert tail[i] == path[i + 1] && Row(path[i + 1], path[i]) in procs;
      }
      forall i, j | 0 <= i < j < |tail| ensures tail[i] != tail[j] {
        assert tail[i] == path[i + 1] && tail[j] == path[j + 1];
      }
      DistinctFit(tail, Pids(procs));
    }
  }

  lemma PathPrefix(procs: seq<Row>, k: int, path: seq<int>, n: nat)
    requires Descends(procs, path, k) && 0 < n <= |path|
    ensures Descends(procs, path[..n], k)
  {
    forall h, i | 0 <= h && i == h + 1 && i < n ensures Row(path[..n][i], path[..n][h]) in procs {
      assert path[..n][i] == path[i] && path[..n][h] == path[h];
    }
  }

  lemma PathSuffix(procs: seq<Row>, path: seq<int>, n: nat)
    requires IsPath(procs, path) && n < |path|
    ensures Descends(procs, path[n..], path[n])
  {
    forall h, i | 0 <= h && i == h + 1 && i < |path[n..]| ensures Row(path[n..][i], path[n..][h]) in procs {
      assert path[n..][i] == path[n + i] && path[n..][h] == path[n + h];
    }
  }

  /** Round the cycle as often as it takes. */
  lemma {:induction false} LongPath(procs: seq<Row>, k: int, path: seq<int>, i: nat, j: nat, n: nat)
    returns (long: seq<int>)
    requires Descends(procs, path, k) && i < j < |path| && path[i] == path[j]
    ensures Descends(procs, long, k) && |long| >= n && long[|long| - 1] == path[i]
  {
    if n == 0 {
      long := path[..i + 1];
      PathPrefix(procs, k, path, i + 1);
    } else {
      var shorter := LongPath(procs, k, path, i, j, n - 1);
      var lap := path[i + 1..j + 1];
      long := shorter + lap;
      forall h, x | 0 <= h && x == h + 1 && x < |long| ensures Row(long[x], long[h]) in procs {
        if x < |shorter| {
          assert long[x] == shorter[x] && long[h] == shorter[h];
        } else {
          assert long[x] == path[x - |shorter| + i + 1];
          assert long[h] == path[x - |shorter| + i];
        }
      }
    }
  }

  /** `get_pids` ends for a requested pid exactly when no cycle hangs below it. */
  lemma EndsIff(procs: seq<Row>, k: int)
    ensures Ends(procs, k) <==> !LeadsToCycle(procs, k)
  {
    if LeadsToCycle(procs, k) {
      var path, i: int, j: int :| Descends(procs, path, k) && 0 <= i < j < |path| && path[i] == path[j];
      forall fuel: nat ensures Below(procs, k, 0, fuel).None? {
        var long := LongPath(procs, k, path, i, j, fuel + 2);
        var exact := long[..fuel + 2];
        PathPrefix(procs, k, long, fuel + 2);
        assert Row(exact[1], exact[0]) in procs;
        var m :| 0 <= m < |procs| && procs[m] == Row(exact[1], exact[0]);
        PathTooDeep(procs, k, 0, fuel, exact, m);
      }
    } else {
      EnoughFuel(procs, k);
    }
  }

  /** A process that is its own parent, as process 0 is on some systems, is enough to make it run for ever. */
  lemma SelfParentNeverEnds(pid: int)
    ensures !Ends([Row(pid, pid)], pid)
  {
    var procs := [Row(pid, pid)];
    assert Descends(procs, [pid, pid], pid) && [pid, pid][0] == [pid, pid][1];
    EndsIff(procs, pid);
  }

  // ----- What it lists

  ghost predicate UniquePids(procs: seq<Row>) {
    forall i, j | 0 <= i < j < |procs| :: procs[i].pid != procs[j].pid
  }

  /** `x` is `c` or below it. */
  ghost predicate AtOrBelow(procs: seq<Row>, c: int, x: int) {
    exists path :: Descends(procs, path, c) && path[|path| - 1] == x
  }

  /** `x` is at or below a child of `k` that stands at row `j` or later. */
  ghost predicate ReachedFrom(procs: seq<Row>, k: int, j: nat, x: int)
    requires j <= |procs|
  {
    exists m | j <= m < |procs| :: procs[m].ppid == k && AtOrBelow(procs, procs[m].pid, x)
  }

  lemma ReachedIsDescendant(procs: seq<Row>, k: int, x: int)
    ensures ReachedFrom(procs, k, 0, x) <==> IsDescendant(procs, k, x)
  {
    if IsDescendant(procs, k, x) {
      var path :| Descends(procs, path, k) && |path| > 1 && path[|path| - 1] == x;
      assert Row(path[1], k) in procs;
      var m :| 0 <= m < |procs| && procs[m] == Row(path[1], k);
      PathSuffix(procs, path, 1);
      assert AtOrBelow(procs, procs[m].pid, x);
    }
    if m :| 0 <= m < |procs| && procs[m].ppid == k && AtOrBelow(procs, procs[m].pid, x) {
      var tail :| Descends(procs, tail, procs[m].pid) && tail[|tail| - 1] == x;
      assert Row(tail[0], k) == procs[m];
      PathFromBelow(procs, k, tail);
      assert Descends(procs, [k] + tail, k);
    }
  }

  /** A cycle below a child is one below its parent. */
  lemma CycleUp(procs: seq<Row>, k: int, c: int)
    requires LeadsToCycle(procs, c) && Row(c, k) in procs
    ensures LeadsToCycle(procs, k)
  {
    var path, i: int, j: int :| Descends(procs, path, c) && 0 <= i < j < |path| && path[i] == path[j];
    PathFromBelow(procs, k, path);
    var longer := [k] + path;
    assert Descends(procs, longer, k) && longer[i + 1] == longer[j + 1];
  }

  /** With unique pids the way up from a process is determined: of two paths to it the shorter ends the longer. */
  lemma {:induction false} PathsAlign(procs: seq<Row>, p: seq<int>, q: seq<int>, n: nat)
    requires UniquePids(procs) && IsPath(procs, p) && IsPath(procs, q)
    requires 0 < |p| && 0 < |q| && p[|p| - 1] == q[|q| - 1] && n < |p| && n < |q|
    ensures p[|p| - 1 - n] == q[|q| - 1 - n]
  {
    if n > 0 {
      PathsAlign(procs, p, q, n - 1);
      assert Row(p[|p| - n], p[|p| - 1 - n]) in procs && Row(q[|q| - n], q[|q| - 1 - n]) in procs;
    }
  }

  /** If a child of `k` heads a shorter path than another child of `k` to the same process, `k` is below itself. */
  lemma ShorterPath(procs: seq<Row>, k: int, p: seq<int>, q: seq<int>)
    requires UniquePids(procs) && IsPath(procs, [k] + p) && IsPath(procs, [k] + q)
    requires 0 < |p| < |q| && p[|p| - 1] == q[|q| - 1]
    ensures LeadsToCycle(procs, k)
  {
    var pk, qk := [k] + p, [k] + q;
    PathsAlign(procs, pk, qk, |p|);
    assert Descends(procs, qk, k) && qk[0] == qk[|q| - |p|];
  }

  /** No process is at or below two different children of `k`. */
  lemma OneChild(procs: seq<Row>, k: int, c: int, d: int, x: int)
    requires UniquePids(procs)
    requires Row(c, k) in procs && Row(d, k) in procs && AtOrBelow(procs, c, x) && AtOrBelow(procs, d, x)
    ensures c == d || LeadsToCycle(procs, k)
  {
    var p :| Descends(procs, p, c) && p[|p| - 1] == x;
    var q :| Descends(procs, q, d) && q[|q| - 1] == x;
    PathFromBelow(procs, k, p);
    PathFromBelow(procs, k, q);
    if |p| < |q| {
      ShorterPath(procs, k, p, q);
    } else if |q| < |p| {
      ShorterPath(procs, k, q, p);
    } else {
      PathsAlign(procs, p, q, |p| - 1);
    }
  }

  /** A process below itself is on a cycle. */
  lemma BelowSelf(procs: seq<Row>, k: int)
    requires IsDescendant(procs, k, k)
    ensures LeadsToCycle(procs, k)
  {
    var path :| Descends(procs, path, k) && |path| > 1 && path[|path| - 1] == k;
    var last := |path| - 1;
    assert path[0] == path[last];
  }

  function Indicator(b: bool): nat {
    if b then 1 else 0
  }

  /** Every descendant is listed exactly once for its requested ancestor, and nothing else is listed. */
  lemma {:induction false} ListedOnce(procs: seq<Row>, k: int, j: nat, fuel: nat, x: int)
    requires j <= |procs| && UniquePids(procs) && !LeadsToCycle(procs, k)
    requires Below(procs, k, j, fuel).Some?
    ensures multiset(Below(procs, k, j, fuel).value)[x] == Indicator(ReachedFrom(procs, k, j, x))
    decreases fuel, |procs| - j
  {
    if j == |procs| {
    } else if procs[j].ppid != k {
      ListedOnce(procs, k, j + 1, fuel, x);
    } else {
      var c := procs[j].pid;
      assert procs[j] == Row(c, k);
      if LeadsToCycle(procs, c) {
        CycleUp(procs, k, c);
      }
      ListedOnce(procs, c, 0, fuel - 1, x);
      ListedOnce(procs, k, j + 1, fuel, x);
      SplitReached(procs, k, j, x);
    }
  }

  /** The reach of row `j` and that of the later rows do not overlap. */
  lemma SplitReached(procs: seq<Row>, k: int, j: nat, x: int)
    requires j < |procs| && UniquePids(procs) && !LeadsToCycle(procs, k) && procs[j].ppid == k
    ensures var c := procs[j].pid;
            Indicator(ReachedFrom(procs, k, j, x)) ==
            Indicator(c == x) + Indicator(ReachedFrom(procs, c, 0, x)) + Indicator(ReachedFrom(procs, k, j + 1, x))
  {
    var c := procs[j].pid;
    assert procs[j] == Row(c, k);
    if LeadsToCycle(procs, c) {
      CycleUp(procs, k, c);
    }
    if IsDescendant(procs, c, c) {
      BelowSelf(procs, c);
    }
    ReachedIsDescendant(procs, c, x);
    assert c == x ==> Descends(procs, [c], c) && AtOrBelow(procs, c, x);
    assert AtOrBelow(procs, c, x) <==> c == x || IsDescendant(procs, c, x);
    if AtOrBelow(procs, c, x) {
      forall m | j + 1 <= m < |procs| && procs[m].ppid == k ensures !AtOrBelow(procs, procs[m].pid, x) {
        assert procs[m] == Row(procs[m].pid, k);
        if AtOrBelow(procs, procs[m].pid, x) {
          OneChild(procs, k, c, procs[m].pid, x);
        }
      }
    }
  }

  /** A parent stands before its children: at every place stands a child of `k`, or of a pid listed before it. */
  ghost predicate ParentsFirst(procs: seq<Row>, k: int, list: seq<int>) {
    forall i | 0 <= i < |list| :: ParentBefore(procs, k, list, i)
  }

  ghost predicate ParentBefore(procs: seq<Row>, k: int, list: seq<int>, i: nat)
    requires i < |list|
  {
    exists r | r in procs :: r.pid == list[i] && (r.ppid == k || r.ppid in list[..i])
  }

  lemma {:induction false} ParentsPrecede(procs: seq<Row>, k: int, j: nat, fuel: nat)
    requires j <= |procs| && Below(procs, k, j, fuel).Some?
    ensures ParentsFirst(procs, k, Below(procs, k, j, fuel).value)
    decreases fuel, |procs| - j
  {
    if j == |procs| {
    } else if procs[j].ppid != k {
      ParentsPrecede(procs, k, j + 1, fuel);
    } else {
      var c := procs[j].pid;
      var sub, more := Below(procs, c, 0, fuel - 1).value, Below(procs, k, j + 1, fuel).value;
      ParentsPrecede(procs, c, 0, fuel - 1);
      ParentsPrecede(procs, k, j + 1, fuel);
      ParentsJoin(procs, k, procs[j], sub, more);
    }
  }

  lemma ParentsJoin(procs: seq<Row>, k: int, row: Row, sub: seq<int>, more: seq<int>)
    requires row in procs && row.ppid == k && ParentsFirst(procs, row.pid, sub) && ParentsFirst(procs, k, more)
    ensures ParentsFirst(procs, k, [row.pid] + sub + more)
  {
    var list := [row.pid] + sub + more;
    forall i | 0 <= i < |list| ensures ParentBefore(procs, k, list, i) {
      if 0 < i <= |sub| {
        assert ParentBefore(procs, row.pid, sub, i - 1);
        var r :| r in procs && r.pid == sub[i - 1] && (r.ppid == row.pid || r.ppid in sub[..i - 1]);
        assert list[..i] == [row.pid] + sub[..i - 1];
        assert r.ppid in list[..i];
      } else if |sub| < i {
        var n := i - 1 - |sub|;
        assert ParentBefore(procs, k, more, n);
        var r :| r in procs && r.pid == more[n] && (r.ppid == k || r.ppid in more[..n]);
        assert list[..i] == [row.pid] + sub + more[..n];
      }
    }
  }

  // ----- The programs

  /** `get_pids` for the requested pids from the `i`th on. */
  function AllBelow(procs: seq<Row>, kids: seq<int>, fuel: nat): seq<int>
    requires forall i | 0 <= i < |kids| :: Below(procs, kids[i], 0, fuel).Some?
  {
    if kids == [] then [] else AllBelow(procs, kids[..|kids| - 1], fuel) + Below(procs, kids[|kids| - 1], 0, fuel).value
  }

  /** `get_pids`; `fuel` says how deep its calls will nest. */
  method GetPids(procs: seq<Row>, kids: seq<int>, ghost fuel: nat) returns (pids: seq<int>)
    requires forall i | 0 <= i < |kids| :: Below(procs, kids[i], 0, fuel).Some?
    ensures pids == AllBelow(procs, kids, fuel)
    decreases fuel
  {
    pids := [];
    var i := 0;
    while i < |kids|
      invariant 0 <= i <= |kids| && pids == AllBelow(procs, kids[..i], fuel)
    {
      assert kids[..i + 1][..i] == kids[..i];
      ghost var before := pids;
      var j := 0;
      while j < |procs|
        invariant 0 <= j <= |procs| && Below(procs, kids[i], j, fuel).Some?
        invariant pids + Below(procs, kids[i], j, fuel).value == before + Below(procs, kids[i], 0, fuel).value
      {
        if procs[j].ppid == kids[i] {
          var pid := procs[j].pid;
          ghost var more := Below(procs, kids[i], j + 1, fuel).value;
          var sub := GetPids(procs, [pid], fuel - 1);
          assert AllBelow(procs, [pid][..0], fuel - 1) == [];
          assert pids + ([pid] + sub + more) == (pids + ([pid] + sub)) + more;
          pids := pids + ([pid] + sub);
        }
        j := j + 1;
      }
      assert pids == pids + [];
      i := i + 1;
    }
    assert kids[..i] == kids;
  }

  /** The rows `grep` keeps, from row `j` on. */
  function ChildRows(procs: seq<Row>, pid: int, j: nat): seq<Row>
    requires j <= |procs|
    decreases |procs| - j
  {
    if j == |procs| then []
    else if procs[j].ppid == pid then [procs[j]] + ChildRows(procs, pid, j + 1)
    else ChildRows(procs, pid, j + 1)
  }

  /** The descent of `subproc_ids` through the rows of its `for` list. */
  function BelowRows(procs: seq<Row>, rows: seq<Row>, fuel: nat): Option<seq<int>>
    decreases fuel, |rows|
  {
    if rows == [] then Some([])
    else if fuel == 0 then None
    else
      var sub := BelowRows(procs, ChildRows(procs, rows[0].pid, 0), fuel - 1);
      var more := BelowRows(procs, rows[1..], fuel);
      if sub.None? || more.None? then None
      else Some([rows[0].pid] + sub.value + more.value)
  }

  /** `subproc_ids`. */
  method SubprocIds(pid: int, procs: seq<Row>, ghost fuel: nat) returns (childs: seq<int>)
    requires BelowRows(procs, ChildRows(procs, pid, 0), fuel).Some?
    ensures childs == BelowRows(procs, ChildRows(procs, pid, 0), fuel).value
    decreases fuel
  {
    var rows := ChildRows(procs, pid, 0);
    childs := [];
    var i := 0;
    while i < |rows|
      invariant 0 <= i <= |rows| && BelowRows(procs, rows[i..], fuel).Some?
      invariant childs + BelowRows(procs, rows[i..], fuel).value == BelowRows(procs, rows, fuel).value
    {
      var c := rows[i];
      assert rows[i..][1..] == rows[i + 1..];
      ghost var more := BelowRows(procs, rows[i + 1..], fuel).value;
      var sub := SubprocIds(c.pid, procs, fuel - 1);
      assert childs + ([c.pid] + sub + more) == (childs + [c.pid] + sub) + more;
      childs := childs + [c.pid] + sub;
      i := i + 1;
    }
    assert childs + [] == childs;
  }

  /** Both programs make the same list for a single root, and end in the same cases. */
  lemma {:induction false} SameList(procs: seq<Row>, k: int, j: nat, fuel: nat)
    requires j <= |procs|
    ensures BelowRows(procs, ChildRows(procs, k, j), fuel) == Below(procs, k, j, fuel)
    decreases fuel, |procs| - j
  {
    if j < |procs| {
      SameList(procs, k, j + 1, fuel);
      if procs[j].ppid == k {
        var rows := ChildRows(procs, k, j);
        assert rows[0] == procs[j] && rows[1..] == ChildRows(procs, k, j + 1);
        if fuel > 0 {
          SameList(procs, procs[j].pid, 0, fuel - 1);
        }
      }
    }
  }

  /** How many of the requested pids are proper ancestors of `x`. */
  ghost function Ancestors(procs: seq<Row>, kids: seq<int>, x: int): nat {
    if kids == [] then 0
    else Ancestors(procs, kids[..|kids| - 1], x) + Indicator(IsDescendant(procs, kids[|kids| - 1], x))
  }

  /** Each process is listed once for every requested pid above it; a pid that is above nothing adds nothing. */
  lemma {:induction false} ListedPerAncestor(procs: seq<Row>, kids: seq<int>, fuel: nat, x: int)
    requires UniquePids(procs)
    requires forall i | 0 <= i < |kids| :: !LeadsToCycle(procs, kids[i]) && Below(procs, kids[i], 0, fuel).Some?
    ensures multiset(AllBelow(procs, kids, fuel))[x] == Ancestors(procs, kids, x)
  {
    if kids != [] {
      var last := kids[|kids| - 1];
      ListedPerAncestor(procs, kids[..|kids| - 1], fuel, x);
      ListedOnce(procs, last, 0, fuel, x);
      ReachedIsDescendant(procs, last, x);
    }
  }

  /** The pids `killfam` signals: those given and, when the table can be had, every process below them. */
  method Killfam(tableLoaded: bool, procs: seq<Row>, pids: seq<int>) returns (all: seq<int>)
    requires tableLoaded ==> forall i | 0 <= i < |pids| :: !LeadsToCycle(procs, pids[i])
    ensures !tableLoaded ==> all == pids
    ensures |all| >= |pids| && all[..|pids|] == pids
    ensures tableLoaded ==> forall i | 0 <= i < |pids| :: Below(procs, pids[i], 0, |procs|).Some?
    ensures tableLoaded ==> all[|pids|..] == AllBelow(procs, pids, |procs|)
    ensures tableLoaded && UniquePids(procs) ==> forall x :: multiset(all[|pids|..])[x] == Ancestors(procs, pids, x)
  {
    if !tableLoaded {
      return pids;
    }
    forall i | 0 <= i < |pids| ensures Below(procs, pids[i], 0, |procs|).Some? {
      EnoughFuel(procs, pids[i]);
    }
    var kids := GetPids(procs, pids, |procs|);
    all := pids + kids;
    assert all[|pids|..] == kids;
    forall x | UniquePids(procs) ensures multiset(kids)[x] == Ancestors(procs, pids, x) {
      ListedPerAncestor(procs, pids, |procs|, x);
    }
  }
}
