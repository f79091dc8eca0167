/**
  The conversions of `sscanf` the readers use: `%d` and its unsigned and long
  kin, `%c`, and white space in the format.  Values are unbounded integers.
 */
module Scanf {
  import opened Memory

  predicate IsSpace(c: char) {
    c == ' ' || c == '\t' || c == '\n' || c == '\r' || c == '\U{b}' || c == '\U{c}'
  }

  predicate IsDigit(c: char) {
    '0' <= c <= '9'
  }

  /** White space in a format: skips any amount, none included. */
  function SkipSpace(s: seq<char>): (r: seq<char>)
    ensures |r| <= |s|
    ensures r == [] || !IsSpace(r[0])
  {
    if s != [] && IsSpace(s[0]) then SkipSpace(s[1..]) else s
  }

  /** The number of digits at the front. */
  function DigitRun(s: seq<char>): (n: nat)
    ensures n <= |s| && (forall i | 0 <= i < n :: IsDigit(s[i])) && (n < |s| ==> !IsDigit(s[n]))
  {
    if s != [] && IsDigit(s[0]) then 1 + DigitRun(s[1..]) else 0
  }

  function DigitValue(c: char): nat
    requires IsDigit(c)
  {
    (c - '0') as nat
  }

  function Value(digits: seq<char>): nat
    requires forall i | 0 <= i < |digits| :: IsDigit(digits[i])
  {
    if digits == [] then 0 else 10 * Value(digits[..|digits| - 1]) + DigitValue(digits[|digits| - 1])
  }

  /** One converted number and the input left after it. */
  datatype Scanned = Scanned(value: int, rest: seq<char>)

  /** The digits of a number whose sign has been read. */
  function ScanDigits(u: seq<char>, minus: bool): (r: Option<Scanned>)
    ensures r.Some? ==> |r.value.rest| < |u|
  {
    var n := DigitRun(u);
    if n == 0 then None
    else Some(Scanned(if minus then -(Value(u[..n]) as int) else Value(u[..n]), u[n..]))
  }

  /** An optional sign and at least one digit. */
  function ScanSigned(t: seq<char>): (r: Option<Scanned>)
    ensures r.Some? ==> |r.value.rest| < |t|
  {
    if t == [] then None
    else if t[0] == '-' then ScanDigits(t[1..], true)
    else if t[0] == '+' then ScanDigits(t[1..], false)
    else ScanDigits(t, false)
  }

  /** `%d`: leading white space, then the number. */
  function ScanInt(s: seq<char>): (r: Option<Scanned>)
    ensures r.Some? ==> |r.value.rest| < |s|
  {
    ScanSigned(SkipSpace(s))
  }

  /** " %d %d ...": as many numbers, at most `k`, as convert before the first failure. */
  function ScanInts(s: seq<char>, k: nat): (r: seq<int>)
    ensures |r| <= k
    decreases k
  {
    if k == 0 then []
    else match ScanInt(s)
      case None => []
      case Some(first) => [first.value] + ScanInts(first.rest, k - 1)
  }

  /** " %c": the first character that is not white space. */
  function ScanChar(s: seq<char>): (r: Option<char>)
  {
    var t := SkipSpace(s);
    if t == [] then None else Some(t[0])
  }

  /** The input after " %c". */
  function AfterChar(s: seq<char>): seq<char>
    requires ScanChar(s).Some?
  {
    SkipSpace(s)[1..]
  }

  /** Decimal notation, as the kernel prints it. */
  function Decimal(n: nat): (s: seq<char>)
    ensures |s| > 0 && forall i | 0 <= i < |s| :: IsDigit(s[i])
  {
    var d := ['0' + (n % 10) as char];
    if n < 10 then d else Decimal(n / 10) + d
  }

  function Printed(n: int): (s: seq<char>)
    ensures |s| > 0 && forall i | 0 <= i < |s| :: IsDigit(s[i]) || s[i] == '-'
  {
    if n < 0 then ['-'] + Decimal(-n) else Decimal(n)
  }

  lemma {:induction false} ValueOfDecimal(n: nat)
    ensures Value(Decimal(n)) == n
  {
    if n >= 10 {
      ValueOfDecimal(n / 10);
      var s := Decimal(n);
      assert s[..|s| - 1] == Decimal(n / 10);
    }
  }

  lemma {:induction false} DigitRunIs(d: seq<char>, rest: seq<char>)
    requires forall i | 0 <= i < |d| :: IsDigit(d[i])
    requires rest == [] || !IsDigit(rest[0])
    ensures DigitRun(d + rest) == |d|
  {
    if d == [] {
      assert d + rest == rest;
    } else {
      DigitRunIs(d[1..], rest);
      assert (d + rest)[1..] == d[1..] + rest;
    }
  }

  lemma ScanDigitsIs(d: seq<char>, rest: seq<char>, minus: bool)
    requires d != [] && forall i | 0 <= i < |d| :: IsDigit(d[i])
    requires rest == [] || !IsDigit(rest[0])
    ensures ScanDigits(d + rest, minus) == Some(Scanned(if minus then -(Value(d) as int) else Value(d), rest))
  {
    DigitRunIs(d, rest);
    assert (d + rest)[..|d|] == d && (d + rest)[|d|..] == rest;
  }

  /** A printed number scans back to itself. */
  lemma ScanPrinted(n: int, rest: seq<char>)
    requires rest == [] || !IsDigit(rest[0])
    ensures ScanInt(Printed(n) + rest) == Some(Scanned(n, rest))
  {
    if n < 0 {
      Associate(['-'], Decimal(-n), rest);
      ScanMinus(Printed(n) + rest, -n, rest);
    } else {
      ScanPlain(n, rest);
    }
  }

  lemma ScanPlain(n: nat, rest: seq<char>)
    requires rest == [] || !IsDigit(rest[0])
    ensures ScanInt(Decimal(n) + rest) == Some(Scanned(n, rest))
  {
    var s := Decimal(n) + rest;
    ValueOfDecimal(n);
    ScanDigitsIs(Decimal(n), rest, false);
    assert IsDigit(s[0]) && SkipSpace(s) == s;
  }

  lemma ScanMinus(s: seq<char>, n: nat, rest: seq<char>)
    requires s == ['-'] + (Decimal(n) + rest) && (rest == [] || !IsDigit(rest[0]))
    ensures ScanInt(s) == Some(Scanned(-(n as int), rest))
  {
    ValueOfDecimal(n);
    ScanDigitsIs(Decimal(n), rest, true);
    assert s[0] == '-' && SkipSpace(s) == s && s[1..] == Decimal(n) + rest;
  }

  /** " n1 n2 ... nk". */
  function PrintAll(ns: seq<int>): seq<char> {
    if ns == [] then [] else [' '] + Printed(ns[0]) + PrintAll(ns[1..])
  }

  lemma ScanPastSpace(s: seq<char>)
    ensures ScanInt([' '] + s) == ScanInt(s)
  {
    assert ([' '] + s)[1..] == s;
    assert SkipSpace([' '] + s) == SkipSpace(s);
  }

  lemma PrintAllBreaks(ns: seq<int>, rest: seq<char>)
    requires rest == [] || !IsDigit(rest[0])
    ensures PrintAll(ns) + rest == [] || !IsDigit((PrintAll(ns) + rest)[0])
  {
    if ns == [] {
      assert PrintAll(ns) + rest == rest;
    } else {
      assert (PrintAll(ns) + rest)[0] == ' ';
    }
  }

  lemma Regroup(a: seq<char>, b: seq<char>, c: seq<char>, d: seq<char>)
    ensures (a + b + c) + d == a + (b + (c + d))
  {
  }

  lemma PrintAllHead(ns: seq<int>, rest: seq<char>)
    requires ns != [] && (rest == [] || !IsDigit(rest[0]))
    ensures ScanInt(PrintAll(ns) + rest) == Some(Scanned(ns[0], PrintAll(ns[1..]) + rest))
  {
    var more := PrintAll(ns[1..]) + rest;
    PrintAllBreaks(ns[1..], rest);
    ScanPrinted(ns[0], more);
    ScanPastSpace(Printed(ns[0]) + more);
    Regroup([' '], Printed(ns[0]), PrintAll(ns[1..]), rest);
  }

  lemma ScanIntsStep(s: seq<char>, more: seq<char>, ns: seq<int>, k: nat)
    requires ns != [] && k > 0 && ScanInt(s) == Some(Scanned(ns[0], more)) && ScanInts(more, k - 1) == ns[1..]
    ensures ScanInts(s, k) == ns
  {
  }

  /** A printed line of numbers scans back to those numbers; asked for more, the scan stops where no number follows. */
  lemma {:induction false} ScanPrintAll(ns: seq<int>, rest: seq<char>, k: nat)
    requires |ns| <= k && (rest == [] || !IsDigit(rest[0])) && (|ns| < k ==> ScanInt(rest).None?)
    ensures ScanInts(PrintAll(ns) + rest, k) == ns
    decreases k
  {
    if ns == [] {
      assert PrintAll(ns) + rest == rest;
    } else {
      PrintAllHead(ns, rest);
      ScanPrintAll(ns[1..], rest, k - 1);
      ScanIntsStep(PrintAll(ns) + rest, PrintAll(ns[1..]) + rest, ns, k);
    }
  }

  /** White space is what C's `isspace` says: space, tab, newline, vertical tab, form feed and carriage return. */
  lemma SpaceIs(c: char)
    ensures IsSpace(c) <==> c as int == 32 || 9 <= c as int <= 13
  {
  }

  lemma DigitIs(c: char)
    ensures IsDigit(c) <==> 48 <= c as int <= 57
  {
  }

  /** Any white space in front of a number is skipped. */
  lemma {:induction false} ScanPastSpaces(blank: seq<char>, s: seq<char>)
    requires forall i | 0 <= i < |blank| :: blank[i] as int == 32 || 9 <= blank[i] as int <= 13
    ensures ScanInt(blank + s) == ScanInt(s)
  {
    if blank == [] {
      assert blank + s == s;
    } else {
      ScanPastSpaces(blank[1..], s);
      SpaceIs(blank[0]);
      assert (blank + s)[1..] == blank[1..] + s;
    }
  }

  /** A number may have a plus sign. */
  lemma ScanPlus(n: nat, rest: seq<char>)
    requires rest == [] || !IsDigit(rest[0])
    ensures ScanInt(['+'] + (Decimal(n) + rest)) == Some(Scanned(n, rest))
  {
    var s := ['+'] + (Decimal(n) + rest);
    ValueOfDecimal(n);
    ScanDigitsIs(Decimal(n), rest, false);
    assert s[0] == '+' && SkipSpace(s) == s && s[1..] == Decimal(n) + rest;
  }

  /** Leading zeros do not count. */
  lemma {:induction false} LeadingZero(digits: seq<char>)
    requires forall i | 0 <= i < |digits| :: IsDigit(digits[i])
    ensures Value(['0'] + digits) == Value(digits)
  {
    if digits != [] {
      var front := digits[..|digits| - 1];
      LeadingZero(front);
      assert (['0'] + digits)[..|digits|] == ['0'] + front;
    } else {
      assert (['0'] + digits)[..0] == [];
    }
  }

  predicate Blank(gap: seq<char>) {
    gap != [] && forall i | 0 <= i < |gap| :: gap[i] as int == 32 || 9 <= gap[i] as int <= 13
  }

  /** Numbers, each with some white space in front of it. */
  function PrintGaps(ns: seq<int>, gaps: seq<seq<char>>): seq<char>
    requires |gaps| == |ns|
  {
    if ns == [] then [] else gaps[0] + (Printed(ns[0]) + PrintGaps(ns[1..], gaps[1..]))
  }

  lemma GapsBreak(ns: seq<int>, gaps: seq<seq<char>>, rest: seq<char>)
    requires |gaps| == |ns| && (forall i | 0 <= i < |gaps| :: Blank(gaps[i])) && (rest == [] || !IsDigit(rest[0]))
    ensures var s := PrintGaps(ns, gaps) + rest; s == [] || !IsDigit(s[0])
  {
    if ns == [] {
      assert PrintGaps(ns, gaps) + rest == rest;
    } else {
      assert Blank(gaps[0]) && (PrintGaps(ns, gaps) + rest)[0] == gaps[0][0];
    }
  }

  lemma GapsHead(ns: seq<int>, gaps: seq<seq<char>>, rest: seq<char>)
    requires |gaps| == |ns| && (forall i | 0 <= i < |gaps| :: Blank(gaps[i])) && (rest == [] || !IsDigit(rest[0]))
    requires ns != []
    ensures ScanInt(PrintGaps(ns, gaps) + rest) == Some(Scanned(ns[0], PrintGaps(ns[1..], gaps[1..]) + rest))
  {
    var others := PrintGaps(ns[1..], gaps[1..]);
    GapsBreak(ns[1..], gaps[1..], rest);
    assert Blank(gaps[0]);
    Associate(gaps[0], Printed(ns[0]) + others, rest);
    Associate(Printed(ns[0]), others, rest);
    ScanGap(PrintGaps(ns, gaps) + rest, gaps[0], ns[0], others + rest);
  }

  lemma ScanGap(s: seq<char>, gap: seq<char>, n: int, more: seq<char>)
    requires s == gap + (Printed(n) + more) && Blank(gap) && (more == [] || !IsDigit(more[0]))
    ensures ScanInt(s) == Some(Scanned(n, more))
  {
    ScanPrinted(n, more);
    ScanPastSpaces(gap, Printed(n) + more);
  }

  lemma GapsStep(ns: seq<int>, gaps: seq<seq<char>>, rest: seq<char>, k: nat)
    requires |gaps| == |ns| && (forall i | 0 <= i < |gaps| :: Blank(gaps[i])) && (rest == [] || !IsDigit(rest[0]))
    requires ns != [] && k > 0 && ScanInts(PrintGaps(ns[1..], gaps[1..]) + rest, k - 1) == ns[1..]
    ensures ScanInts(PrintGaps(ns, gaps) + rest, k) == ns
  {
    GapsHead(ns, gaps, rest);
    ScanIntsStep(PrintGaps(ns, gaps) + rest, PrintGaps(ns[1..], gaps[1..]) + rest, ns, k);
  }

  /** Numbers scan back whatever white space stands between them. */
  lemma {:induction false} ScanGaps(ns: seq<int>, gaps: seq<seq<char>>, rest: seq<char>, k: nat)
    requires |gaps| == |ns| && (forall i | 0 <= i < |gaps| :: Blank(gaps[i])) && (rest == [] || !IsDigit(rest[0]))
    requires |ns| <= k && (|ns| < k ==> ScanInt(rest).None?)
    ensures ScanInts(PrintGaps(ns, gaps) + rest, k) == ns
    decreases k
  {
    if ns == [] {
      assert PrintGaps(ns, gaps) + rest == rest;
    } else {
      ScanGaps(ns[1..], gaps[1..], rest, k - 1);
      GapsStep(ns, gaps, rest, k);
    }
  }
}
