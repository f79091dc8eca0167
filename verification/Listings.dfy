/**
  Lists made in one pass over a table whose entries report one thing or
  nothing: what is on them, and in which order.
 */
module Listings {

  /** One pass over a whole table: what every entry reports, once, in order. */
  function Scan<E, R>(table: seq<E>, report: E -> seq<R>): seq<R> {
    if table == [] then [] else Scan(table[..|table| - 1], report) + report(table[|table| - 1])
  }

  lemma {:induction false} ScanAppend<E, R>(a: seq<E>, b: seq<E>, report: E -> seq<R>)
    ensures Scan(a + b, report) == Scan(a, report) + Scan(b, report)
  {
    if b == [] {
      assert a + b == a;
    } else {
      ScanAppend(a, b[..|b| - 1], report);
      assert (a + b)[..|a + b| - 1] == a + b[..|b| - 1];
    }
  }

  /** Scanning a table up to a point and then on is scanning it in one go. */
  lemma JoinScans<E, R>(table: seq<E>, i: nat, j: nat, report: E -> seq<R>)
    requires i <= j <= |table|
    ensures Scan(table[..i], report) + Scan(table[i..j], report) == Scan(table[..j], report)
    ensures i == j ==> table[i..j] == []
    ensures table[..|table|] == table
  {
    assert table[..i] + table[i..j] == table[..j];
    ScanAppend(table[..i], table[i..j], report);
  }

  lemma NextScan<E, R>(table: seq<E>, i: nat, report: E -> seq<R>)
    requires i < |table|
    ensures Scan(table[..i + 1], report) == Scan(table[..i], report) + report(table[i])
  {
    assert table[..i + 1][..i] == table[..i];
  }

  lemma {:induction false} ScanHas<E, R>(table: seq<E>, i: nat, x: R, report: E -> seq<R>)
    requires i < |table| && x in report(table[i])
    ensures x in Scan(table, report)
  {
    if i < |table| - 1 {
      ScanHas(table[..|table| - 1], i, x, report);
    }
  }

  ghost predicate Increasing(from: seq<nat>) {
    forall j, k | 0 <= j < k < |from| :: from[j] < from[k]
  }

  /** Element `x` of a list is what entry `i` of the table reports. */
  ghost predicate ReportOf<E, R>(table: seq<E>, report: E -> seq<R>, i: nat, x: R) {
    i < |table| && report(table[i]) == [x]
  }

  /** The list `out` is what the entries numbered `from` report, in order, and no other entry reports anything. */
  ghost predicate ListedFrom<E, R>(table: seq<E>, report: E -> seq<R>, out: seq<R>, from: seq<nat>) {
    && |from| == |out| && Increasing(from)
    && (forall k | 0 <= k < |out| :: ReportOf(table, report, from[k], out[k]))
    && (forall i | 0 <= i < |table| && i !in from :: report(table[i]) == [])
  }

  lemma {:induction false} ScanLists<E, R>(table: seq<E>, report: E -> seq<R>) returns (from: seq<nat>)
    requires forall i | 0 <= i < |table| :: |report(table[i])| <= 1
    ensures ListedFrom(table, report, Scan(table, report), from)
  {
    if table == [] {
      from := [];
    } else {
      var last := |table| - 1;
      from := ScanLists(table[..last], report);
      ListsNext(table, report, Scan(table[..last], report), from);
      if report(table[last]) == [] {
        assert Scan(table, report) == Scan(table[..last], report);
      } else {
        from := from + [last];
      }
    }
  }

  lemma ListsNext<E, R>(table: seq<E>, report: E -> seq<R>, out: seq<R>, from: seq<nat>)
    requires table != [] && ListedFrom(table[..|table| - 1], report, out, from)
    requires |report(table[|table| - 1])| <= 1
    ensures var last := |table| - 1;
            var r := report(table[last]);
            ListedFrom(table, report, out + r, if r == [] then from else from + [last])
  {
    var last := |table| - 1;
    var r := report(table[last]);
    var more := if r == [] then from else from + [last];
    assert r != [] ==> more[|from|] == last && last in more;
    forall k | 0 <= k < |out + r| ensures ReportOf(table, report, more[k], (out + r)[k]) {
      assert k < |out| ==> ReportOf(table[..last], report, from[k], out[k]);
    }
    forall i | 0 <= i < |table| && i !in more ensures report(table[i]) == [] {
      if i < last {
        assert table[..last][i] == table[i];
        assert i !in from;
      }
    }
    forall j, k | 0 <= j < k < |more| ensures more[j] < more[k] {
      assert j < |from| ==> ReportOf(table[..last], report, from[j], out[j]);
    }
  }
}
