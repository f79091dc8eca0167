/**
  `getproclline` of os/darwin.c, for kernels with KERN_PROCARGS2: the command
  line of a process, cut in place out of the buffer the kernel fills with the
  argument count, the path, padding, the arguments and the environment.
 */
module Darwin {
  import opened Memory
  import opened CommandLines

  /** `memcpy (&nargs, procargs, 4)` on a little-endian machine: a signed 32-bit count. */
  function ArgCount(buf: seq<char>): int
    requires |buf| >= 4
  {
    var u := buf[0] as int + 256 * (buf[1] as int) + 65536 * (buf[2] as int) + 16777216 * (buf[3] as int);
    if u >= 0x8000_0000 then u - 0x1_0000_0000 else u
  }

  /** The first place at or after `from` that does not hold NUL. */
  function SkipNuls(data: seq<char>, from: nat): (i: nat)
    requires from <= |data|
    ensures from <= i <= |data| && (i < |data| ==> data[i] != NUL)
    ensures forall j | from <= j < i :: data[j] == NUL
    decreases |data| - from
  {
    if from == |data| || data[from] != NUL then from else SkipNuls(data, from + 1)
  }

  /** The complete strings from `from` on, at most `n`: a string is complete when its NUL is there. */
  function Items(data: seq<char>, from: nat, n: nat): seq<seq<char>>
    requires from <= |data|
    decreases n
  {
    var e := IndexFrom(data, NUL, from);
    if n == 0 || e == |data| then [] else [data[from..e]] + Items(data, e + 1, n - 1)
  }

  /** The short name in parentheses, for a process whose arguments cannot be had. */
  function Bracketed(comm: seq<char>): seq<char> {
    "(" + comm + ")"
  }

  /** Where the arguments start: past the path and the NULs behind it. */
  function ArgStart(data: seq<char>): nat
    requires |data| >= 4
  {
    SkipNuls(data, IndexFrom(data, NUL, 4))
  }

  function Wanted(nargs: int, showArgs: bool): nat {
    if nargs <= 0 then 0 else if showArgs then nargs else 1
  }

  /** The command line: the complete arguments, at most as many as counted, joined with spaces. */
  function CommandLine(buf: seq<char>, size: nat, comm: seq<char>, showArgs: bool): seq<char>
    requires 4 <= |buf| && size <= |buf|
  {
    if size < 4 then Bracketed(comm)
    else
      var items := Items(buf[..size], ArgStart(buf[..size]), Wanted(ArgCount(buf), showArgs));
      if items == [] then Bracketed(comm) else Join(items)
  }

  ghost predicate NulFree(items: seq<seq<char>>) {
    forall i | 0 <= i < |items| :: NUL !in items[i]
  }

  lemma {:induction false} EncodeAppend(items: seq<seq<char>>, x: seq<char>)
    ensures Encode(items + [x]) == Encode(items) + (x + [NUL])
  {
    if items == [] {
      assert Encode([x][1..]) == [];
    } else {
      EncodeAppend(items[1..], x);
      assert (items + [x])[1..] == items[1..] + [x];
    }
  }

  lemma EncodeRest(items: seq<seq<char>>, rest: seq<char>)
    requires items != []
    ensures Encode(items) + rest == items[0] + ([NUL] + (Encode(items[1..]) + rest))
  {
    var more := Encode(items[1..]);
    Associate(items[0], [NUL] + more, rest);
    Associate([NUL], more, rest);
  }

  lemma HeadItem(data: seq<char>, from: nat, x: seq<char>, more: seq<char>)
    requires from <= |data| && data[from..] == x + ([NUL] + more) && NUL !in x
    ensures var e := from + |x|;
            e < |data| && IndexFrom(data, NUL, from) == e && data[from..e] == x && data[e + 1..] == more
  {
    var e := from + |x|;
    assert forall j | from <= j < |data| :: data[j] == data[from..][j - from];
    assert data[from..][|x|] == NUL;
    IndexIs(data, NUL, from, e);
    assert data[from..e] == data[from..][..|x|];
    assert data[e + 1..] == data[from..][|x| + 1..];
  }

  ghost predicate LaidOut(data: seq<char>, from: nat, items: seq<seq<char>>, rest: seq<char>) {
    from <= |data| && data[from..] == Encode(items) + rest && NulFree(items)
  }

  /** The first string, and where the second begins. */
  lemma LaidStep(data: seq<char>, from: nat, items: seq<seq<char>>, rest: seq<char>) returns (e: nat)
    requires LaidOut(data, from, items, rest) && items != []
    ensures from <= e < |data| && IndexFrom(data, NUL, from) == e && data[from..e] == items[0]
    ensures LaidOut(data, e + 1, items[1..], rest)
  {
    e := from + |items[0]|;
    EncodeRest(items, rest);
    HeadItem(data, from, items[0], Encode(items[1..]) + rest);
  }

  lemma ItemsStep(data: seq<char>, from: nat, e: nat, n: nat, items: seq<seq<char>>)
    requires from <= e < |data| && IndexFrom(data, NUL, from) == e && n > 0
    requires items != [] && data[from..e] == items[0] && Items(data, e + 1, n - 1) == items[1..]
    ensures Items(data, from, n) == items
  {
  }

  lemma NoItems(data: seq<char>, from: nat, rest: seq<char>, n: nat)
    requires LaidOut(data, from, [], rest) && (0 < n ==> NUL !in rest)
    ensures Items(data, from, n) == []
  {
    if n > 0 {
      assert data[from..] == rest;
      assert forall j | from <= j < |data| :: data[j] == data[from..][j - from];
      IndexIs(data, NUL, from, |data|);
    }
  }

  /** Strings laid out one after the other, with an incomplete rest or with as many as wanted, are the items. */
  lemma {:induction false} ItemsAre(data: seq<char>, from: nat, items: seq<seq<char>>, rest: seq<char>, n: nat)
    requires LaidOut(data, from, items, rest)
    requires |items| <= n && (|items| < n ==> NUL !in rest)
    ensures Items(data, from, n) == items
    decreases n
  {
    if items == [] {
      NoItems(data, from, rest, n);
    } else {
      var e := LaidStep(data, from, items, rest);
      ItemsAre(data, e + 1, items[1..], rest, n - 1);
      ItemsStep(data, from, e, n, items);
    }
  }

  /** In-place: with the NULs between them made spaces, encoded strings read as their join. */
  lemma {:induction false} JoinEncoded(items: seq<seq<char>>)
    requires items != [] && NulFree(items)
    ensures |Encode(items)| == |Join(items)| + 1 && NUL !in Join(items) && Encode(items)[|Join(items)|] == NUL
    ensures forall i | 0 <= i < |Join(items)| ::
              Join(items)[i] == if Encode(items)[i] == NUL then ' ' else Encode(items)[i]
  {
    if |items| > 1 {
      JoinEncoded(items[1..]);
    }
  }

  /** One more NUL seen, at `cp`: one more complete string. */
  lemma OneMore(data: seq<char>, sp: nat, q: nat, cp: nat, items: seq<seq<char>>)
    requires sp <= q <= cp < |data| && data[sp..q] == Encode(items) && NulFree(items)
    requires data[cp] == NUL && forall i | q <= i < cp :: data[i] != NUL
    ensures data[sp..cp + 1] == Encode(items + [data[q..cp]]) && NulFree(items + [data[q..cp]])
  {
    EncodeAppend(items, data[q..cp]);
    Slices(data, sp, q, cp);
  }

  lemma Slices(data: seq<char>, sp: nat, q: nat, cp: nat)
    requires sp <= q <= cp < |data|
    ensures data[sp..cp + 1] == data[sp..q] + (data[q..cp] + [data[cp]])
  {
  }

  /** The buffer when the loop has passed the bytes from `sp` to `cp`; `np` is the last NUL seen, or -1. */
  ghost predicate Passed(a: array<char>, data: seq<char>, sp: nat, cp: nat, np: int)
    reads a
  {
    && |data| <= a.Length && cp <= |data|
    && (forall i | cp <= i < |data| :: a[i] == data[i])
    && (forall i | sp <= i < cp :: a[i] == if data[i] == NUL && i != np then ' ' else data[i])
  }

  /** The NUL at `cp` is the last one seen; the one before it, if any, becomes a space. */
  method MarkNul(a: array<char>, cp: nat, np: int, ghost data: seq<char>, ghost sp: nat) returns (np': int)
    requires Passed(a, data, sp, cp, np) && sp <= cp < |data| && data[cp] == NUL
    requires np == -1 || (sp <= np < cp && data[np] == NUL)
    modifies a
    ensures np' == cp && Passed(a, data, sp, cp + 1, np')
  {
    if np != -1 {
      a[np] := ' ';
    }
    np' := cp;
  }

  /** The loop that turns the NULs between arguments into spaces; `np` ends up at the last one, which stays. */
  method CutArguments(a: array<char>, size: nat, sp: nat, nargs: int, showArgs: bool)
    returns (np: int, ghost items: seq<seq<char>>)
    requires sp < size <= a.Length && a[sp] != NUL
    modifies a
    ensures items == Items(old(a[..size]), sp, Wanted(nargs, showArgs))
    ensures items == [] ==> np == -1
    ensures items != [] ==> NulFree(items) && sp < np && NUL !in Join(items) && Stored(a, sp, Join(items) + [NUL])
  {
    ghost var data := a[..size];
    var c, cp := 0, sp;
    np, items := -1, [];
    ghost var q := sp;
    while c < nargs && cp < size
      invariant sp <= q <= cp <= size && c == |items| <= Wanted(nargs, showArgs)
      invariant data[sp..q] == Encode(items) && NulFree(items)
      invariant forall i | q <= i < cp :: data[i] != NUL
      invariant q == (if items == [] then sp else np + 1) && (items == [] <==> np == -1) && np >= -1
      invariant Passed(a, data, sp, cp, np)
      invariant items != [] ==> sp < np < cp && data[np] == NUL && showArgs
    {
      if a[cp] == NUL {
        c := c + 1;
        np := MarkNul(a, cp, np, data, sp);
        OneMore(data, sp, q, cp, items);
        items := items + [data[q..cp]];
        q := cp + 1;
        if !showArgs {
          break;
        }
      }
      cp := cp + 1;
    }
    CutItems(data, sp, q, cp, items, Wanted(nargs, showArgs));
    if items != [] {
      CutStored(a, data, sp, np, items);
    }
  }

  /** When the loop stops, by count or at the end of the buffer, the strings it has seen are the items. */
  lemma CutItems(data: seq<char>, sp: nat, q: nat, cp: nat, items: seq<seq<char>>, n: nat)
    requires sp <= q <= |data| && data[sp..q] == Encode(items) && NulFree(items) && |items| <= n
    requires |items| < n ==> q <= cp == |data| && forall i | q <= i < cp :: data[i] != NUL
    ensures Items(data, sp, n) == items
  {
    assert data[sp..] == data[sp..q] + data[q..];
    assert |items| < n ==> NUL !in data[q..];
    ItemsAre(data, sp, items, data[q..], n);
  }

  lemma CutStored(a: array<char>, data: seq<char>, sp: nat, np: int, items: seq<seq<char>>)
    requires items != [] && NulFree(items) && sp <= np < |data| <= a.Length && data[sp..np + 1] == Encode(items)
    requires Passed(a, data, sp, np + 1, np)
    ensures NUL !in Join(items) && Stored(a, sp, Join(items) + [NUL])
  {
    JoinEncoded(items);
    var text := Join(items) + [NUL];
    forall i | 0 <= i < |text| ensures a[sp + i] == text[i] {
      assert data[sp..np + 1][i] == data[sp + i];
    }
  }

  /** `getproclline` with `eflg == 0`, as this repository calls it. */
  method GetProcLine(procargs: array<char>, size: nat, comm: seq<char>, showArgs: bool) returns (line: seq<char>)
    requires 4 <= procargs.Length && size <= procargs.Length
    modifies procargs
    ensures line == CommandLine(old(procargs[..]), size, comm, showArgs)
  {
    ghost var buf := procargs[..];
    ghost var data := buf[..size];
    var nargs := ArgCount(procargs[..4]);
    assert nargs == ArgCount(buf);
    var cp := 4;
    while cp < size && procargs[cp] != NUL
      invariant 4 <= cp && (size >= 4 ==> cp <= size)
      invariant forall j | 4 <= j < cp :: j < size && data[j] != NUL
    {
      cp := cp + 1;
    }
    if cp == size {
      if size >= 4 {
        IndexIs(data, NUL, 4, size);
        assert ArgStart(data) == size;
        assert Items(data, size, Wanted(nargs, showArgs)) == [];
      }
      return Bracketed(comm);
    }
    if size < 4 {
      return Bracketed(comm);
    }
    IndexIs(data, NUL, 4, cp);
    ghost var pathEnd := cp;
    while cp < size && procargs[cp] == NUL
      invariant pathEnd <= cp <= size
      invariant SkipNuls(data, pathEnd) == SkipNuls(data, cp)
    {
      cp := cp + 1;
    }
    assert ArgStart(data) == cp;
    if cp == size {
      return Bracketed(comm);
    }
    var sp := cp;
    var np;
    ghost var items;
    np, items := CutArguments(procargs, size, sp, nargs, showArgs);
    if np == -1 || np == sp {
      return Bracketed(comm);
    }
    line := ReadString(procargs, sp, Join(items));
  }
}
