/**
  The two views the table gives of `/proc/<pid>/cmdline`: the string `cmndline`,
  made by turning NULs into spaces in place, and the array `cmdline`, made by
  format letter 'a'.
 */
module CommandLines {
  import opened Memory
  import opened Bless

  /** The buffer after the loop of `get_proc_cmndline`: every NUL but the last byte's becomes a space. */
  function Spaced(data: seq<char>): (r: seq<char>)
    ensures |r| == |data|
    ensures forall i | 0 <= i < |data| :: r[i] == if data[i] == NUL && i < |data| - 1 then ' ' else data[i]
  {
    seq(|data|, i requires 0 <= i < |data| => if data[i] == NUL && i < |data| - 1 then ' ' else data[i])
  }

  function Join(items: seq<seq<char>>): seq<char> {
    if items == [] then []
    else if |items| == 1 then items[0]
    else items[0] + ([' '] + Join(items[1..]))
  }

  /** Arguments as the kernel stores them: each followed by a NUL. */
  function Encode(items: seq<seq<char>>): seq<char> {
    if items == [] then [] else items[0] + ([NUL] + Encode(items[1..]))
  }

  /** For every content of the file: the array joined with single spaces is the string. */
  lemma TwoViews(data: seq<char>, junk: seq<char>)
    ensures Join(DecodeArray(data + [NUL] + junk, |data|, 0)) == CString(Spaced(data) + [NUL] + junk)
  {
    TwoViewsFrom(data, junk, 0);
    assert Spaced(data)[0..] == Spaced(data);
  }

  /** The string `cmndline` from offset `from` on, and the same part of the array `cmdline`, joined. */
  ghost function StringFrom(data: seq<char>, junk: seq<char>, from: nat): seq<char>
    requires from <= |data|
  {
    CString(Spaced(data)[from..] + [NUL] + junk)
  }

  ghost function JoinFrom(data: seq<char>, junk: seq<char>, from: nat): seq<char>
    requires from <= |data|
  {
    Join(DecodedFrom(data, junk, from))
  }

  ghost function DecodedFrom(data: seq<char>, junk: seq<char>, from: nat): seq<seq<char>> {
    DecodeArray(data + [NUL] + junk, |data|, from)
  }

  lemma {:induction false} TwoViewsFrom(data: seq<char>, junk: seq<char>, from: nat)
    requires from <= |data|
    ensures JoinFrom(data, junk, from) == StringFrom(data, junk, from)
    decreases |data| - from
  {
    if from < |data| {
      var e := NextItem(data, junk, from);
      if e + 1 < |data| {
        TwoViewsFrom(data, junk, e + 1);
      }
      SameStep(data, junk, from, e);
    } else {
      NothingLeft(data, junk);
    }
  }

  /** The item at `from` is cut off alike in both views. */
  lemma SameStep(data: seq<char>, junk: seq<char>, from: nat, e: nat)
    requires ItemAt(data, junk, from, e)
    requires e + 1 < |data| ==> JoinFrom(data, junk, e + 1) == StringFrom(data, junk, e + 1)
    ensures JoinFrom(data, junk, from) == StringFrom(data, junk, from)
  {
    DecodeStep(data, junk, from, e);
    if e + 1 < |data| {
      SpacedSplit(data, junk, from, e);
    } else {
      LastItem(data, junk, from, e);
    }
  }

  /** The item decoded at `from` ends at `e`, at the first NUL: one inside the file or the one that closes it. */
  ghost predicate ItemAt(data: seq<char>, junk: seq<char>, from: nat, e: nat) {
    && from < |data| && from <= e <= |data| && CString((data + [NUL] + junk)[from..]) == data[from..e]
    && NUL !in data[from..e] && (e < |data| ==> data[e] == NUL)
  }

  /** The join of the items from `from` on, by its first item. */
  lemma DecodeStep(data: seq<char>, junk: seq<char>, from: nat, e: nat)
    requires ItemAt(data, junk, from, e)
    ensures JoinFrom(data, junk, from) ==
            if e + 1 < |data| then data[from..e] + ([' '] + JoinFrom(data, junk, e + 1)) else data[from..e]
  {
    JoinCons(data[from..e], DecodeArray(data + [NUL] + junk, |data|, e + 1));
  }

  lemma NothingLeft(data: seq<char>, junk: seq<char>)
    ensures JoinFrom(data, junk, |data|) == StringFrom(data, junk, |data|)
  {
    assert Spaced(data)[|data|..] + [NUL] + junk == [] + [NUL] + junk;
    CStringIs([], junk);
  }

  lemma JoinCons(x: seq<char>, rest: seq<seq<char>>)
    ensures Join([x] + rest) == if rest == [] then x else x + ([' '] + Join(rest))
  {
    assert ([x] + rest)[1..] == rest;
  }

  lemma NextItem(data: seq<char>, junk: seq<char>, from: nat) returns (e: nat)
    requires from < |data|
    ensures ItemAt(data, junk, from, e)
  {
    var buf := data + [NUL] + junk;
    e := from + |CString(buf[from..])|;
    CStringBound(buf[from..], |data| - from);
    assert buf[from..e] == data[from..e];
  }

  lemma SpacedHead(data: seq<char>, from: nat, e: nat)
    requires from <= e && e + 1 < |data| && data[e] == NUL && NUL !in data[from..e]
    ensures Spaced(data)[from..] == (data[from..e] + [' ']) + Spaced(data)[e + 1..]
  {
    assert forall i | from <= i < e :: data[i] == data[from..e][i - from];
  }

  lemma SpacedSplit(data: seq<char>, junk: seq<char>, from: nat, e: nat)
    requires from <= e && e + 1 < |data| && data[e] == NUL && NUL !in data[from..e]
    ensures StringFrom(data, junk, from) == data[from..e] + ([' '] + StringFrom(data, junk, e + 1))
  {
    var head := data[from..e] + [' '];
    var body := Spaced(data)[e + 1..];
    SpacedHead(data, from, e);
    Regroup(head, body, [NUL], junk);
    assert NUL !in head;
    CStringAppend(head, body + [NUL] + junk);
    Regroup(data[from..e], [' '], CString(body + [NUL] + junk), []);
  }

  lemma Regroup(a: seq<char>, b: seq<char>, c: seq<char>, d: seq<char>)
    ensures (a + b) + c + d == a + (b + c + d)
    ensures d == [] ==> (a + b) + c == a + (b + c)
  {
  }

  lemma LastItem(data: seq<char>, junk: seq<char>, from: nat, e: nat)
    requires from <= e <= |data| <= e + 1 && NUL !in data[from..e] && (e < |data| ==> data[e] == NUL)
    ensures StringFrom(data, junk, from) == data[from..e]
  {
    var buf := Spaced(data)[from..] + [NUL] + junk;
    assert forall i | from <= i < e :: data[i] == data[from..e][i - from];
    assert buf[..e - from] == data[from..e] && buf[e - from] == NUL;
    CStringUnique(buf, data[from..e]);
  }

  /** NUL-terminated arguments decode to exactly themselves, empty ones included. */
  lemma DecodeEncode(items: seq<seq<char>>, junk: seq<char>)
    requires forall i | 0 <= i < |items| :: NUL !in items[i]
    ensures DecodeArray(Encode(items) + [NUL] + junk, |Encode(items)|, 0) == items
  {
    assert Encode(items)[0..] == Encode(items);
    DecodeEncodeFrom(Encode(items), junk, 0, items);
  }

  /** The strings laid out from `from` on are the items decoded from there. */
  lemma {:induction false} DecodeEncodeFrom(data: seq<char>, junk: seq<char>, from: nat, items: seq<seq<char>>)
    requires from <= |data| && data[from..] == Encode(items) && forall i | 0 <= i < |items| :: NUL !in items[i]
    ensures DecodedFrom(data, junk, from) == items
    decreases |items|
  {
    if items == [] {
      assert |data[from..]| == 0;
    } else {
      var e := EncodedItem(data, junk, from, items);
      DecodeEncodeFrom(data, junk, e + 1, items[1..]);
      DecodedItems(data, junk, from, e, items);
    }
  }

  /** The first of the strings, and where the others begin. */
  lemma EncodedItem(data: seq<char>, junk: seq<char>, from: nat, items: seq<seq<char>>) returns (e: nat)
    requires from <= |data| && data[from..] == Encode(items) && items != [] && NUL !in items[0]
    ensures e < |data| && ItemAt(data, junk, from, e) && data[from..e] == items[0]
    ensures data[e + 1..] == Encode(items[1..])
  {
    e := from + |items[0]|;
    assert data[from..] == items[0] + ([NUL] + Encode(items[1..]));
    assert data[from..e] == data[from..][..|items[0]|] && data[e] == data[from..][|items[0]|];
    assert data[e + 1..] == data[from..][|items[0]| + 1..];
    EndsAt(data, junk, from, e);
  }

  lemma EndsAt(data: seq<char>, junk: seq<char>, from: nat, e: nat)
    requires from <= e < |data| && data[e] == NUL && NUL !in data[from..e]
    ensures ItemAt(data, junk, from, e)
  {
    var buf := data + [NUL] + junk;
    assert buf[from..][..e - from] == data[from..e] && buf[from..][e - from] == NUL;
    CStringUnique(buf[from..], data[from..e]);
  }

  lemma DecodedItems(data: seq<char>, junk: seq<char>, from: nat, e: nat, items: seq<seq<char>>)
    requires ItemAt(data, junk, from, e) && e < |data| && items != [] && data[from..e] == items[0]
    requires DecodedFrom(data, junk, e + 1) == items[1..]
    ensures DecodedFrom(data, junk, from) == items
  {
  }
}
