/**
  The loop of `get_proc_status`: the user and group ids, and on Linux the
  tracer, from the lines of `/proc/<pid>/status` that carry those words.
 */
module StatusFile {
  import opened Memory
  import opened Scanf
  import opened Lines

  /** Effective, saved and file-system id. */
  datatype Triple = Triple(effective: int, saved: int, fs: int)

  /** The ids read so far, and which groups of fields have been switched on. */
  datatype Ids = Ids(uid: Triple, gid: Triple, tracer: int, hasUid: bool, hasGid: bool, hasTracer: bool)

  const NO_IDS := Ids(Triple(0, 0, 0), Triple(0, 0, 0), 0, false, false, false)

  /** `sscanf (.., " %d %d %d %d", &dummy, &e, &s, &f)`: what does not convert keeps its value. */
  function Assign(old_: Triple, ns: seq<int>): Triple {
    Triple(if |ns| > 1 then ns[1] else old_.effective,
           if |ns| > 2 then ns[2] else old_.saved,
           if |ns| > 3 then ns[3] else old_.fs)
  }

  /** What the line at `v` does. */
  function ReadLine(text: seq<char>, v: nat, ids: Ids, tracers: bool): Ids
    requires v <= |text|
  {
    if HasWord(text, v, "Uid:") then
      ids.(uid := Assign(ids.uid, ScanInts(text[v + 4..], 4)), hasUid := true)
    else if HasWord(text, v, "Gid:") then
      ids.(gid := Assign(ids.gid, ScanInts(text[v + 4..], 4)), hasGid := true)
    else if tracers && HasWord(text, v, "TracerPid:") then
      var ns := ScanInts(text[v + 10..], 1);
      ids.(tracer := if |ns| > 0 then ns[0] else ids.tracer, hasTracer := true)
    else ids
  }

  /** The short circuit: everything wanted has been seen. */
  predicate Complete(ids: Ids, tracers: bool) {
    ids.hasUid && ids.hasGid && (tracers ==> ids.hasTracer)
  }

  function ReadLines(text: seq<char>, starts: seq<nat>, ids: Ids, tracers: bool): Ids
    requires forall i | 0 <= i < |starts| :: starts[i] <= |text|
  {
    if starts == [] then ids
    else
      var now := ReadLine(text, starts[0], ids, tracers);
      if Complete(now, tracers) then now else ReadLines(text, starts[1..], now, tracers)
  }

  /** `get_proc_status` on the whole text. */
  function ReadStatus(text: seq<char>, tracers: bool): Ids {
    ReadLines(text, LineStarts(text, 0), NO_IDS, tracers)
  }

  /** The words the loop looks for, and what a line with one of them means. */
  datatype Word = Uid | Gid | TracerPid

  function Spelled(w: Word): seq<char> {
    match w case Uid => "Uid:" case Gid => "Gid:" case TracerPid => "TracerPid:"
  }

  predicate Carries(text: seq<char>, v: nat, w: Word)
    requires v <= |text|
  {
    HasWord(text, v, Spelled(w))
  }

  /** Whether the fields of a word are switched on, and the value they have. */
  predicate Has(ids: Ids, w: Word) {
    match w case Uid => ids.hasUid case Gid => ids.hasGid case TracerPid => ids.hasTracer
  }

  function ValueAs(ids: Ids, w: Word): Triple {
    match w case Uid => ids.uid case Gid => ids.gid case TracerPid => Triple(ids.tracer, 0, 0)
  }

  /** What the numbers of a line make of the value its word had. */
  function ValueFrom(text: seq<char>, v: nat, w: Word, was: Triple): Triple
    requires v <= |text| && Carries(text, v, w)
  {
    if w == TracerPid then
      var ns := ScanInts(text[v + 10..], 1);
      was.(effective := if |ns| > 0 then ns[0] else was.effective)
    else Assign(was, ScanInts(text[v + 4..], 4))
  }

  ghost predicate SomeLine(text: seq<char>, starts: seq<nat>, w: Word)
    requires forall i | 0 <= i < |starts| :: starts[i] <= |text|
  {
    exists i | 0 <= i < |starts| :: Carries(text, starts[i], w)
  }

  /** No line carries two of the words. */
  lemma WordsDiffer(text: seq<char>, v: nat, w: Word, x: Word)
    requires v <= |text| && Carries(text, v, w) && Carries(text, v, x)
    ensures w == x
  {
    assert Spelled(w)[0] == text[v..][0] == Spelled(x)[0];
  }

  /** A line acts on the word it carries, and on nothing else. */
  lemma LineActs(text: seq<char>, v: nat, ids: Ids, tracers: bool, w: Word)
    requires v <= |text| && (w == TracerPid ==> tracers)
    ensures var now := ReadLine(text, v, ids, tracers);
            if Carries(text, v, w) then Has(now, w) && ValueAs(now, w) == ValueFrom(text, v, w, ValueAs(ids, w))
            else (Has(now, w) <==> Has(ids, w)) && ValueAs(now, w) == ValueAs(ids, w)
  {
    if Carries(text, v, w) {
      if Carries(text, v, Uid) {
        WordsDiffer(text, v, w, Uid);
      }
      if Carries(text, v, Gid) {
        WordsDiffer(text, v, w, Gid);
      }
    }
  }

  lemma CompleteHas(ids: Ids, tracers: bool, w: Word)
    requires Complete(ids, tracers) && (w == TracerPid ==> tracers)
    ensures Has(ids, w)
  {
  }

  /** The fields of a word are switched on exactly when some line carries it, however early the loop stops. */
  lemma {:induction false} EnabledIff(text: seq<char>, starts: seq<nat>, ids: Ids, tracers: bool, w: Word)
    requires forall i | 0 <= i < |starts| :: starts[i] <= |text|
    requires w == TracerPid ==> tracers
    ensures Has(ReadLines(text, starts, ids, tracers), w) <==> Has(ids, w) || SomeLine(text, starts, w)
  {
    if starts != [] {
      var now := ReadLine(text, starts[0], ids, tracers);
      LineActs(text, starts[0], ids, tracers, w);
      if Complete(now, tracers) {
        CompleteHas(now, tracers, w);
      } else {
        EnabledIff(text, starts[1..], now, tracers, w);
        assert forall i | 1 <= i < |starts| :: starts[i] == starts[1..][i - 1];
      }
    }
  }

  /** If one line alone carries a word, its value is what that line says. */
  lemma {:induction false} ValueFromItsLine(text: seq<char>, starts: seq<nat>, ids: Ids, tracers: bool, w: Word, i: nat)
    requires forall j | 0 <= j < |starts| :: starts[j] <= |text|
    requires i < |starts| && !Has(ids, w) && (w == TracerPid ==> tracers)
    requires Carries(text, starts[i], w) && forall j | 0 <= j < |starts| && j != i :: !Carries(text, starts[j], w)
    ensures ValueAs(ReadLines(text, starts, ids, tracers), w) == ValueFrom(text, starts[i], w, ValueAs(ids, w))
  {
    var now := ReadLine(text, starts[0], ids, tracers);
    var rest := starts[1..];
    LineActs(text, starts[0], ids, tracers, w);
    assert forall j | 0 <= j < |rest| :: rest[j] == starts[j + 1];
    if Complete(now, tracers) {
      CompleteHas(now, tracers, w);
    } else if i > 0 {
      assert !Carries(text, starts[0], w);
      ValueFromItsLine(text, rest, now, tracers, w, i - 1);
    } else {
      ValueUntouched(text, rest, now, tracers, w);
    }
  }

  /** How many lines the loop looks at. */
  function LinesRead(text: seq<char>, starts: seq<nat>, ids: Ids, tracers: bool): (n: nat)
    requires forall i | 0 <= i < |starts| :: starts[i] <= |text|
    ensures n <= |starts|
  {
    if starts == [] then 0
    else
      var now := ReadLine(text, starts[0], ids, tracers);
      if Complete(now, tracers) then 1 else 1 + LinesRead(text, starts[1..], now, tracers)
  }

  lemma ReadPrefix(text: seq<char>, starts: seq<nat>, ids: Ids, tracers: bool, m: nat)
    requires forall i | 0 <= i < |starts| :: starts[i] <= |text|
    requires 0 < m <= |starts|
    ensures var now := ReadLine(text, starts[0], ids, tracers);
            ReadLines(text, starts[..m], ids, tracers) ==
            if Complete(now, tracers) then now else ReadLines(text, starts[1..][..m - 1], now, tracers)
  {
    assert starts[..m][1..] == starts[1..][..m - 1];
  }

  /** It looks at lines until everything wanted has been seen, and not one more. */
  lemma {:induction false} ReadUntilComplete(text: seq<char>, starts: seq<nat>, ids: Ids, tracers: bool, m: nat)
    requires forall i | 0 <= i < |starts| :: starts[i] <= |text|
    requires !Complete(ids, tracers) && m <= |starts|
    ensures var n := LinesRead(text, starts, ids, tracers);
            && (m < n ==> !Complete(ReadLines(text, starts[..m], ids, tracers), tracers))
            && (m == n < |starts| ==> Complete(ReadLines(text, starts[..m], ids, tracers), tracers))
  {
    if m > 0 {
      var now := ReadLine(text, starts[0], ids, tracers);
      ReadPrefix(text, starts, ids, tracers, m);
      if !Complete(now, tracers) {
        ReadUntilComplete(text, starts[1..], now, tracers, m - 1);
      }
    }
  }

  /**
    Whatever the text, the last of the lines looked at that carries a word
    decides its value; what that line leaves open is as the lines before it
    left it.
   */
  lemma {:induction false} LastLineDecides(text: seq<char>, starts: seq<nat>, ids: Ids, tracers: bool, w: Word, i: nat)
    requires forall j | 0 <= j < |starts| :: starts[j] <= |text|
    requires i < LinesRead(text, starts, ids, tracers) && (w == TracerPid ==> tracers)
    requires Carries(text, starts[i], w)
    requires forall j | i < j < LinesRead(text, starts, ids, tracers) :: !Carries(text, starts[j], w)
    ensures ValueAs(ReadLines(text, starts, ids, tracers), w) ==
            ValueFrom(text, starts[i], w, ValueAs(ReadLines(text, starts[..i], ids, tracers), w))
  {
    var now := ReadLine(text, starts[0], ids, tracers);
    var rest := starts[1..];
    LineActs(text, starts[0], ids, tracers, w);
    assert forall j | 0 <= j < |rest| :: rest[j] == starts[j + 1];
    if i > 0 {
      ReadPrefix(text, starts, ids, tracers, i);
      LastLineDecides(text, rest, now, tracers, w, i - 1);
    } else if !Complete(now, tracers) {
      ValueUntouched(text, rest, now, tracers, w);
    }
  }

  /** No line looked at carries the word: its value stays. */
  lemma {:induction false} ValueUntouched(text: seq<char>, starts: seq<nat>, ids: Ids, tracers: bool, w: Word)
    requires w == TracerPid ==> tracers
    requires forall j | 0 <= j < |starts| :: starts[j] <= |text|
    requires forall j | 0 <= j < LinesRead(text, starts, ids, tracers) :: !Carries(text, starts[j], w)
    ensures ValueAs(ReadLines(text, starts, ids, tracers), w) == ValueAs(ids, w)
  {
    if starts != [] {
      var now := ReadLine(text, starts[0], ids, tracers);
      LineActs(text, starts[0], ids, tracers, w);
      assert forall j | 0 <= j < |starts[1..]| :: starts[1..][j] == starts[j + 1];
      if !Complete(now, tracers) {
        ValueUntouched(text, starts[1..], now, tracers, w);
      }
    }
  }

  /** The last of the lines looked at that carries the word is line `i` of the text. */
  ghost predicate Decides(text: seq<char>, tracers: bool, w: Word, i: nat) {
    var starts := LineStarts(text, 0);
    && i < LinesRead(text, starts, NO_IDS, tracers) && Carries(text, starts[i], w)
    && forall j | i < j < LinesRead(text, starts, NO_IDS, tracers) :: !Carries(text, starts[j], w)
  }

  /** From `v` on the text is the word and these numbers; what follows them is no digit. */
  ghost predicate LineIs(text: seq<char>, v: nat, word: seq<char>, ns: seq<int>, gaps: seq<seq<char>>,
                         rest: seq<char>)
  {
    && v <= |text| && |gaps| == |ns| && (forall j | 0 <= j < |gaps| :: Blank(gaps[j]))
    && (rest == [] || !IsDigit(rest[0])) && text[v..] == word + (PrintGaps(ns, gaps) + rest)
  }

  lemma LineNumbers(text: seq<char>, v: nat, word: seq<char>, ns: seq<int>, gaps: seq<seq<char>>,
                    rest: seq<char>, k: nat)
    requires LineIs(text, v, word, ns, gaps, rest) && |ns| <= k && (|ns| < k ==> ScanInt(rest).None?)
    ensures v + |word| <= |text| && ScanInts(text[v + |word|..], k) == ns
  {
    ScanGaps(ns, gaps, rest, k);
    BehindWord(text, v, word, PrintGaps(ns, gaps) + rest);
  }

  lemma BehindWord(text: seq<char>, v: nat, word: seq<char>, tail: seq<char>)
    requires v <= |text| && text[v..] == word + tail
    ensures v + |word| <= |text| && text[v + |word|..] == tail
  {
    assert text[v + |word|..] == text[v..][|word|..];
  }

  /**
    Of the numbers of the deciding "Uid:" line the second, third and fourth are
    the effective, saved and file-system id; one that is missing leaves its id
    as the lines before left it.
   */
  lemma UidsRead(text: seq<char>, tracers: bool, i: nat, ns: seq<int>, gaps: seq<seq<char>>, rest: seq<char>)
    requires i < |LineStarts(text, 0)| && LineIs(text, LineStarts(text, 0)[i], "Uid:", ns, gaps, rest)
    requires Decides(text, tracers, Uid, i) && |ns| <= 4 && (|ns| < 4 ==> ScanInt(rest).None?)
    ensures var was := ReadLines(text, LineStarts(text, 0)[..i], NO_IDS, tracers).uid;
            var now := ReadStatus(text, tracers);
            && now.hasUid
            && now.uid.effective == (if |ns| >= 2 then ns[1] else was.effective)
            && now.uid.saved == (if |ns| >= 3 then ns[2] else was.saved)
            && now.uid.fs == (if |ns| >= 4 then ns[3] else was.fs)
  {
    var starts := LineStarts(text, 0);
    LineNumbers(text, starts[i], "Uid:", ns, gaps, rest, 4);
    LastLineDecides(text, starts, NO_IDS, tracers, Uid, i);
    EnabledIff(text, starts, NO_IDS, tracers, Uid);
  }

  lemma GidsRead(text: seq<char>, tracers: bool, i: nat, ns: seq<int>, gaps: seq<seq<char>>, rest: seq<char>)
    requires i < |LineStarts(text, 0)| && LineIs(text, LineStarts(text, 0)[i], "Gid:", ns, gaps, rest)
    requires Decides(text, tracers, Gid, i) && |ns| <= 4 && (|ns| < 4 ==> ScanInt(rest).None?)
    ensures var was := ReadLines(text, LineStarts(text, 0)[..i], NO_IDS, tracers).gid;
            var now := ReadStatus(text, tracers);
            && now.hasGid
            && now.gid.effective == (if |ns| >= 2 then ns[1] else was.effective)
            && now.gid.saved == (if |ns| >= 3 then ns[2] else was.saved)
            && now.gid.fs == (if |ns| >= 4 then ns[3] else was.fs)
  {
    var starts := LineStarts(text, 0);
    LineNumbers(text, starts[i], "Gid:", ns, gaps, rest, 4);
    LastLineDecides(text, starts, NO_IDS, tracers, Gid, i);
    EnabledIff(text, starts, NO_IDS, tracers, Gid);
  }

  lemma TracerRead(text: seq<char>, i: nat, tracer: int, gaps: seq<seq<char>>, rest: seq<char>)
    requires i < |LineStarts(text, 0)| && LineIs(text, LineStarts(text, 0)[i], "TracerPid:", [tracer], gaps, rest)
    requires Decides(text, true, TracerPid, i)
    ensures ReadStatus(text, true).hasTracer && ReadStatus(text, true).tracer == tracer
  {
    var starts := LineStarts(text, 0);
    LineNumbers(text, starts[i], "TracerPid:", [tracer], gaps, rest, 1);
    LastLineDecides(text, starts, NO_IDS, true, TracerPid, i);
    EnabledIff(text, starts, NO_IDS, true, TracerPid);
  }

  /** By its `n`th visit the loop has come to a line that carries the word. */
  ghost predicate SeenBy(text: seq<char>, w: Word, n: nat) {
    exists m: nat :: m <= n && VisitCarries(text, w, m)
  }

  ghost predicate VisitCarries(text: seq<char>, w: Word, m: nat) {
    Visit(text, m).Some? && Carries(text, Visit(text, m).value, w)
  }

  /** The loop is over at its `n`th visit: no line is left, or everything wanted has been seen. */
  ghost predicate StatusExit(text: seq<char>, tracers: bool, n: nat) {
    Visit(text, n) == None || forall w: Word :: SeenBy(text, w, n) || (w == TracerPid && !tracers)
  }

  /** The loop of `get_proc_status`, `goto done` included, ends exactly when the text does not start with a newline. */
  lemma StatusLoopEndsIff(text: seq<char>, tracers: bool)
    ensures (exists n: nat :: StatusExit(text, tracers, n)) <==> !StartsWithNewline(text)
  {
    if StartsWithNewline(text) {
      NoWordThere(text, Spelled(Uid));
      forall n: nat ensures !StatusExit(text, tracers, n) {
        NewlineFirstLoops(text, n);
        forall m: nat ensures !VisitCarries(text, Uid, m) {
          NewlineFirstLoops(text, m);
        }
        assert !SeenBy(text, Uid, n);
      }
    } else {
      LoopEndsIff(text);
      var n: nat :| Visit(text, n) == None;
      assert StatusExit(text, tracers, n);
    }
  }

  /** The body of the loop. */
  method StatusLine(mem: array<char>, p: nat, v: nat, ids: Ids, tracers: bool, ghost text: seq<char>)
    returns (now: Ids)
    requires Stored(mem, p, text + [NUL]) && NUL !in text && v <= |text|
    ensures now == ReadLine(text, v, ids, tracers)
  {
    now := ids;
    var s := ReadString(mem, p, text);
    var uid := StrNCmp(mem, p, v, "Uid:", text);
    if uid {
      return now.(uid := Assign(now.uid, ScanInts(s[v + 4..], 4)), hasUid := true);
    }
    var gid := StrNCmp(mem, p, v, "Gid:", text);
    if gid {
      return now.(gid := Assign(now.gid, ScanInts(s[v + 4..], 4)), hasGid := true);
    }
    if tracers {
      var tracer := StrNCmp(mem, p, v, "TracerPid:", text);
      if tracer {
        var ns := ScanInts(s[v + 10..], 1);
        now := now.(tracer := if |ns| > 0 then ns[0] else now.tracer, hasTracer := true);
      }
    }
  }

  /** The ids when the loop goes on at its `n`th line. */
  ghost function ReadFrom(text: seq<char>, n: nat, ids: Ids, tracers: bool): Ids
    requires n <= |LineStarts(text, 0)|
  {
    ReadLines(text, LineStarts(text, 0)[n..], ids, tracers)
  }

  lemma ReadStart(text: seq<char>, tracers: bool)
    ensures ReadFrom(text, 0, NO_IDS, tracers) == ReadStatus(text, tracers)
  {
    assert LineStarts(text, 0)[0..] == LineStarts(text, 0);
  }

  lemma ReadNext(text: seq<char>, n: nat, ids: Ids, tracers: bool)
    requires n < |LineStarts(text, 0)|
    ensures var now := ReadLine(text, LineStarts(text, 0)[n], ids, tracers);
            ReadFrom(text, n, ids, tracers) ==
            if Complete(now, tracers) || n + 1 == |LineStarts(text, 0)| then now
            else ReadFrom(text, n + 1, now, tracers)
  {
    ReadRest(text, LineStarts(text, 0), n, ids, tracers);
  }

  lemma ReadRest(text: seq<char>, starts: seq<nat>, n: nat, ids: Ids, tracers: bool)
    requires n < |starts| && forall i | 0 <= i < |starts| :: starts[i] <= |text|
    ensures var now := ReadLine(text, starts[n], ids, tracers);
            ReadLines(text, starts[n..], ids, tracers) ==
            if Complete(now, tracers) || n + 1 == |starts| then now else ReadLines(text, starts[n + 1..], now, tracers)
  {
    var rest := starts[n..];
    assert rest[0] == starts[n] && rest[1..] == starts[n + 1..];
    if n + 1 == |starts| {
      assert rest[1..] == [];
    }
  }

  /** Where the loop goes from its `n`th line, and what is still to be read there. */
  lemma LineRead(text: seq<char>, n: nat, ids: Ids, tracers: bool)
    requires n < |LineStarts(text, 0)| && !StartsWithNewline(text)
    ensures var v := LineStarts(text, 0)[n];
            var now := ReadLine(text, v, ids, tracers);
            var next := if Complete(now, tracers) then None else NextVisit(text, v);
            if next.None? then ReadFrom(text, n, ids, tracers) == now
            else n + 1 < |LineStarts(text, 0)| && LineStarts(text, 0)[n + 1] == next.value
                 && ReadFrom(text, n + 1, now, tracers) == ReadFrom(text, n, ids, tracers)
  {
    ReadNext(text, n, ids, tracers);
    VisitNext(text, n);
  }

  /** The loop; it ends because the text does not start with a newline. */
  method ScanStatus(mem: array<char>, p: nat, tracers: bool, ghost text: seq<char>) returns (ids: Ids)
    requires Stored(mem, p, text + [NUL]) && NUL !in text && !StartsWithNewline(text)
    ensures ids == ReadStatus(text, tracers)
  {
    ids := NO_IDS;
    var loc := 0;
    ghost var n := 0;
    ReadStart(text, tracers);
    while true
      invariant 0 <= n < |LineStarts(text, 0)| && loc == LineStarts(text, 0)[n]
      invariant ReadFrom(text, n, ids, tracers) == ReadStatus(text, tracers)
      decreases |LineStarts(text, 0)| - n
    {
      ReadNext(text, n, ids, tracers);
      ids := StatusLine(mem, p, loc, ids, tracers, text);
      if Complete(ids, tracers) {
        return;
      }
      VisitNext(text, n);
      var next := NextLine(mem, p, loc, text);
      if next.None? {
        return;
      }
      loc := next.value;
      n := n + 1;
    }
  }
}
