/**
  What `getproclline` of os/darwin.c makes of the buffers the kernel hands out:
  which strings are shown, and when those are the arguments.
 */
module DarwinBuffers {
  import opened Memory
  import opened CommandLines
  import opened Darwin

  /** A buffer as the kernel lays it out: count, path, at least one NUL, and the strings. */
  function Layout(count: seq<char>, path: seq<char>, padding: nat, strings: seq<char>): seq<char> {
    count + (path + (seq(padding, _ => NUL) + strings))
  }

  /** What the command line should be for these arguments. */
  function Shown(args: seq<seq<char>>, comm: seq<char>): seq<char> {
    if args == [] then Bracketed(comm) else Join(args)
  }

  /** What comes out of a buffer with these strings. */
  function Decoded(count: seq<char>, path: seq<char>, padding: nat, strings: seq<char>, comm: seq<char>): seq<char>
    requires |count| == 4
  {
    var buf := Layout(count, path, padding, strings);
    CommandLine(buf, |buf|, comm, true)
  }

  /** A buffer that counts `nargs` arguments and holds `tail` from where they are looked for. */
  ghost predicate Read(buf: seq<char>, nargs: int, tail: seq<char>) {
    |buf| >= 4 && ArgCount(buf) == nargs && ArgStart(buf) <= |buf| && buf[ArgStart(buf)..] == tail
  }

  lemma {:induction false} SkipIs(data: seq<char>, from: nat, i: nat)
    requires from <= i <= |data| && (i < |data| ==> data[i] != NUL) && forall j | from <= j < i :: data[j] == NUL
    ensures SkipNuls(data, from) == i
    decreases i - from
  {
    if from < i {
      SkipIs(data, from + 1, i);
    }
  }

  /** Path, padding and the NULs in front of the strings are skipped. */
  lemma LayoutRead(count: seq<char>, path: seq<char>, padding: nat, n: nat, tail: seq<char>)
    requires |count| == 4 && NUL !in path && padding > 0 && (tail == [] || tail[0] != NUL)
    ensures Read(Layout(count, path, padding, seq(n, _ => NUL) + tail), ArgCount(count), tail)
  {
    var data := Layout(count, path, padding, seq(n, _ => NUL) + tail);
    var p := 4 + |path|;
    var q := p + padding + n;
    assert data == count + path + seq(padding, _ => NUL) + seq(n, _ => NUL) + tail;
    assert forall j | 4 <= j < p :: data[j] == path[j - 4];
    assert forall j | p <= j < q :: data[j] == NUL;
    IndexIs(data, NUL, 4, p);
    assert data[q..] == tail;
    assert q < |data| ==> data[q] == tail[0];
    SkipIs(data, p, q);
  }

  /** The count is a signed 32-bit number, its lowest byte first. */
  lemma CountRead(n: int)
    requires -0x8000_0000 <= n < 0x8000_0000
    ensures var u: nat := if n < 0 then n + 0x1_0000_0000 else n;
            ArgCount([(u % 0x100) as char, (u / 0x100 % 0x100) as char, (u / 0x1_0000 % 0x100) as char,
                      (u / 0x100_0000) as char]) == n
  {
    var u: nat := if n < 0 then n + 0x1_0000_0000 else n;
    assert u / 0x1_0000 == u / 0x100 / 0x100 && u / 0x100_0000 == u / 0x1_0000 / 0x100;
  }

  /** The strings found are the first of the complete ones. */
  lemma ReadShown(buf: seq<char>, nargs: int, items: seq<seq<char>>, rest: seq<char>, comm: seq<char>)
    requires Read(buf, nargs, Encode(items) + rest) && NulFree(items)
    requires |items| <= Wanted(nargs, true) && (|items| < Wanted(nargs, true) ==> NUL !in rest)
    ensures CommandLine(buf, |buf|, comm, true) == Shown(items, comm)
  {
    ItemsAre(buf, ArgStart(buf), items, rest, Wanted(nargs, true));
    assert buf[..|buf|] == buf;
  }

  /**
    Arguments that do not begin with an empty one come back joined by spaces:
    all that were counted, whatever follows them, or, when the buffer ends
    inside one of them, the ones before it; and the name in parentheses when
    there is none.
   */
  lemma DecodesArguments(count: seq<char>, path: seq<char>, padding: nat, items: seq<seq<char>>, rest: seq<char>,
                         comm: seq<char>)
    requires |count| == 4 && NUL !in path && padding > 0 && NulFree(items)
    requires var strings := Encode(items) + rest; strings == [] || strings[0] != NUL
    requires |items| <= Wanted(ArgCount(count), true) && (|items| < ArgCount(count) ==> NUL !in rest)
    ensures Decoded(count, path, padding, Encode(items) + rest, comm) ==
            if items == [] then "(" + comm + ")" else Join(items)
  {
    var strings := Encode(items) + rest;
    LayoutRead(count, path, padding, 0, strings);
    assert seq(0, _ => NUL) + strings == strings;
    ReadShown(Layout(count, path, padding, strings), ArgCount(count), items, rest, comm);
  }

  function LeadingEmpty(items: seq<seq<char>>): (n: nat)
    ensures n <= |items| && (forall i | 0 <= i < n :: items[i] == []) && (n < |items| ==> items[n] != [])
  {
    if items == [] || items[0] != [] then 0 else 1 + LeadingEmpty(items[1..])
  }

  /** Empty strings in front look like padding. */
  lemma {:induction false} EncodeLeading(items: seq<seq<char>>, n: nat)
    requires n <= |items| && forall i | 0 <= i < n :: items[i] == []
    ensures Encode(items) == seq(n, _ => NUL) + Encode(items[n..])
  {
    if n == 0 {
      assert items[0..] == items;
    } else {
      EncodeLeading(items[1..], n - 1);
      assert items[1..][n - 1..] == items[n..];
      assert seq(n, _ => NUL) == [NUL] + seq(n - 1, _ => NUL);
    }
  }

  lemma {:induction false} EncodeSplit(items: seq<seq<char>>, n: nat)
    requires n <= |items|
    ensures Encode(items) == Encode(items[..n]) + Encode(items[n..])
  {
    if n == 0 {
      assert items[0..] == items;
    } else {
      EncodeSplit(items[1..], n - 1);
      assert items[..n][1..] == items[1..][..n - 1] && items[1..][n - 1..] == items[n..];
      EncodeRest(items[..n], Encode(items[n..]));
    }
  }

  function FirstOf(items: seq<seq<char>>, n: nat): seq<seq<char>> {
    if n < |items| then items[..n] else items
  }

  /** As many of the strings as were counted are shown. */
  lemma FirstShown(buf: seq<char>, nargs: int, items: seq<seq<char>>, rest: seq<char>, comm: seq<char>)
    requires Read(buf, nargs, Encode(items) + rest) && NulFree(items) && NUL !in rest
    ensures CommandLine(buf, |buf|, comm, true) == Shown(FirstOf(items, Wanted(nargs, true)), comm)
  {
    var n := Wanted(nargs, true);
    if n < |items| {
      EncodeSplit(items, n);
      Associate(Encode(items[..n]), Encode(items[n..]), rest);
      ReadShown(buf, nargs, items[..n], Encode(items[n..]) + rest, comm);
    } else {
      ReadShown(buf, nargs, items, rest, comm);
    }
  }

  lemma TailStarts(items: seq<seq<char>>, rest: seq<char>)
    requires NulFree(items) && NUL !in rest && (items == [] || items[0] != [])
    ensures var tail := Encode(items) + rest; tail == [] || tail[0] != NUL
  {
    if items != [] {
      EncodeRest(items, rest);
      assert items[0][0] in items[0];
    }
  }

  /**
    Every buffer: of its complete strings the empty ones in front are skipped,
    and as many of the others as were counted are shown, be they arguments or
    environment.
   */
  lemma DecodesStrings(count: seq<char>, path: seq<char>, padding: nat, items: seq<seq<char>>, rest: seq<char>,
                       comm: seq<char>)
    requires |count| == 4 && NUL !in path && padding > 0 && NulFree(items) && NUL !in rest
    ensures Decoded(count, path, padding, Encode(items) + rest, comm) ==
            Shown(FirstOf(items[LeadingEmpty(items)..], Wanted(ArgCount(count), true)), comm)
  {
    var n := LeadingEmpty(items);
    var found := items[n..];
    EncodeLeading(items, n);
    Associate(seq(n, _ => NUL), Encode(found), rest);
    TailStarts(found, rest);
    LayoutRead(count, path, padding, n, Encode(found) + rest);
    FirstShown(Layout(count, path, padding, Encode(items) + rest), ArgCount(count), found, rest, comm);
  }

  /** Whatever stands behind the padding is a number of complete strings and an incomplete one. */
  lemma {:induction false} Decompose(strings: seq<char>) returns (items: seq<seq<char>>, rest: seq<char>)
    ensures NulFree(items) && NUL !in rest && strings == Encode(items) + rest
  {
    var e := IndexFrom(strings, NUL, 0);
    if e == |strings| {
      items, rest := [], strings;
    } else {
      var more;
      more, rest := Decompose(strings[e + 1..]);
      items := [strings[..e]] + more;
      EncodeRest(items, rest);
      assert items[1..] == more;
      assert strings == strings[..e] + ([NUL] + strings[e + 1..]);
    }
  }

  /** These arguments, with this environment and this incomplete string behind them, are shown as they are. */
  ghost predicate ShownRight(count: seq<char>, path: seq<char>, padding: nat, args: seq<seq<char>>,
                             env: seq<seq<char>>, rest: seq<char>, comm: seq<char>)
    requires |count| == 4
  {
    Decoded(count, path, padding, Encode(args + env) + rest, comm) == Shown(args, comm)
  }

  /** Arguments are shown right before every environment if and only if there are none or the first is not empty. */
  lemma ShownRightIff(count: seq<char>, path: seq<char>, padding: nat, args: seq<seq<char>>, comm: seq<char>)
    requires |count| == 4 && NUL !in path && padding > 0 && NulFree(args)
    requires |args| == Wanted(ArgCount(count), true)
    ensures (forall env, rest | NulFree(env) && NUL !in rest ::
               ShownRight(count, path, padding, args, env, rest, comm)) <==> args == [] || args[0] != []
  {
    if args == [] || args[0] != [] {
      forall env: seq<seq<char>>, rest: seq<char> | NulFree(env) && NUL !in rest
        ensures ShownRight(count, path, padding, args, env, rest, comm)
      {
        FullFirst(count, path, padding, args, env, rest, comm);
      }
    } else {
      EmptyFirst(count, path, padding, args, comm);
      assert NulFree([]) && NUL !in [];
    }
  }

  lemma FullFirst(count: seq<char>, path: seq<char>, padding: nat, args: seq<seq<char>>,
                  env: seq<seq<char>>, rest: seq<char>, comm: seq<char>)
    requires |count| == 4 && NUL !in path && padding > 0 && NulFree(args) && NulFree(env) && NUL !in rest
    requires |args| == Wanted(ArgCount(count), true) && (args == [] || args[0] != [])
    ensures ShownRight(count, path, padding, args, env, rest, comm)
  {
    var items := args + env;
    DecodesStrings(count, path, padding, items, rest, comm);
    assert FirstOf(items[LeadingEmpty(items)..], |args|) == args;
  }

  lemma EmptyFirst(count: seq<char>, path: seq<char>, padding: nat, args: seq<seq<char>>, comm: seq<char>)
    requires |count| == 4 && NUL !in path && padding > 0 && NulFree(args)
    requires |args| == Wanted(ArgCount(count), true) && args != [] && args[0] == []
    ensures !ShownRight(count, path, padding, args, [], [], comm)
  {
    DecodesStrings(count, path, padding, args, [], comm);
    assert args + [] == args;
    FewerShown(args, comm);
  }

  /** The line without the empty arguments in front is not the line with them. */
  lemma FewerShown(args: seq<seq<char>>, comm: seq<char>)
    requires NulFree(args) && args != [] && args[0] == []
    ensures Shown(args[LeadingEmpty(args)..], comm) != Join(args)
  {
    var n := LeadingEmpty(args);
    EncodeLeading(args, n);
    JoinEncoded(args);
    if n < |args| {
      JoinEncoded(args[n..]);
    } else if |args| > 1 {
      assert Join(args)[0] == ' ' && Bracketed(comm)[0] == '(';
    }
  }

  /** One empty argument: the environment's first string is shown in its place. */
  lemma EnvironmentShown()
    ensures Decoded([1 as char, NUL, NUL, NUL], "/p", 1, Encode(["", "A=b"]), "p") == "A=b"
  {
    var count, items: seq<seq<char>> := [1 as char, NUL, NUL, NUL], ["", "A=b"];
    assert ArgCount(count) == 1;
    DecodesStrings(count, "/p", 1, items, [], "p");
    assert Encode(items) + [] == Encode(items);
    assert LeadingEmpty(items) == 1 && items[1..] == ["A=b"];
  }
}
