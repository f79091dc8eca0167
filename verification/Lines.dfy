/**
  The line loop of `init_static_vars` and `get_proc_status`:

      for(loc = text; loc; loc = strchr(loc, '\n')) { if(loc != text) loc++; ... }

  Positions are offsets in the text; a visit is the value of `loc` when the
  body looks at it.
 */
module Lines {
  import opened Memory
  import opened Scanf

  /** The visit after the one at `v`: the loop's `strchr`, then the increment unless that is the start of the text. */
  function NextVisit(text: seq<char>, v: nat): Option<nat>
    requires v <= |text|
  {
    var i := IndexFrom(text, '\n', v);
    if i == |text| then None else Some(if i == 0 then 0 else i + 1)
  }

  /** The `n`th visit, if the loop gets that far. */
  function Visit(text: seq<char>, n: nat): (v: Option<nat>)
    ensures v.Some? ==> v.value <= |text|
  {
    if n == 0 then Some(0)
    else match Visit(text, n - 1)
      case None => None
      case Some(v) => NextVisit(text, v)
  }

  /** The starts of the lines at or after `v`, itself a line start: after each newline one more. */
  function LineStarts(text: seq<char>, v: nat): (starts: seq<nat>)
    requires v <= |text|
    ensures |starts| > 0 && starts[0] == v
    ensures forall i | 0 <= i < |starts| :: starts[i] <= |text|
    decreases |text| - v
  {
    var i := IndexFrom(text, '\n', v);
    if i == |text| then [v] else [v] + LineStarts(text, i + 1)
  }

  predicate StartsWithNewline(text: seq<char>) {
    text != [] && text[0] == '\n'
  }

  /** `LineStarts` is what its name says: increasing, and after `v` exactly the positions behind a newline. */
  lemma {:induction false} LineStartsAre(text: seq<char>, v: nat)
    requires v <= |text|
    ensures forall i, j | 0 <= i < j < |LineStarts(text, v)| :: LineStarts(text, v)[i] < LineStarts(text, v)[j]
    ensures forall p | v < p <= |text| :: p in LineStarts(text, v) <==> text[p - 1] == '\n'
    decreases |text| - v
  {
    var i := IndexFrom(text, '\n', v);
    if i < |text| {
      LineStartsAre(text, i + 1);
      var more := LineStarts(text, i + 1);
      forall j | 0 <= j < |more| ensures more[j] > v {
        assert j > 0 ==> more[0] < more[j];
      }
      forall p | v < p <= |text| ensures p in [v] + more <==> text[p - 1] == '\n' {
        assert p <= i ==> text[p - 1] != '\n';
        if p in more {
          var j :| 0 <= j < |more| && more[j] == p;
          assert j > 0 ==> more[0] < more[j];
        }
      }
    }
  }

  /** Unless the text starts with a newline, the visits are the line starts, in order, and then the loop ends. */
  lemma {:induction false} VisitsAreLineStarts(text: seq<char>, n: nat)
    requires !StartsWithNewline(text)
    ensures Visit(text, n) == (if n < |LineStarts(text, 0)| then Some(LineStarts(text, 0)[n]) else None)
  {
    if n > 0 {
      VisitsAreLineStarts(text, n - 1);
      if n - 1 < |LineStarts(text, 0)| {
        VisitNext(text, n - 1);
      }
    }
  }

  lemma VisitNext(text: seq<char>, n: nat)
    requires !StartsWithNewline(text) && n < |LineStarts(text, 0)|
    ensures var starts := LineStarts(text, 0);
            NextVisit(text, starts[n]) == if n + 1 < |starts| then Some(starts[n + 1]) else None
  {
    NextLineStart(text, 0, n);
    NotFirst(text, LineStarts(text, 0)[n]);
  }

  lemma NotFirst(text: seq<char>, v: nat)
    requires !StartsWithNewline(text) && v <= |text|
    ensures IndexFrom(text, '\n', v) > 0 || text == []
  {
  }

  lemma {:induction false} NextLineStart(text: seq<char>, v: nat, n: nat)
    requires v <= |text| && n < |LineStarts(text, v)|
    ensures var starts := LineStarts(text, v);
            var i := IndexFrom(text, '\n', starts[n]);
            if n + 1 < |starts| then i < |text| && starts[n + 1] == i + 1 else i == |text|
    decreases n
  {
    if n > 0 {
      NextLineStart(text, IndexFrom(text, '\n', v) + 1, n - 1);
    }
  }

  /** A text that starts with a newline is visited at its start for ever. */
  lemma {:induction false} NewlineFirstLoops(text: seq<char>, n: nat)
    requires StartsWithNewline(text)
    ensures Visit(text, n) == Some(0)
  {
    if n > 0 {
      NewlineFirstLoops(text, n - 1);
    }
  }

  /** The loop, left to itself, ends exactly when the text does not start with a newline. */
  lemma LoopEndsIff(text: seq<char>)
    ensures (exists n: nat :: Visit(text, n) == None) <==> !StartsWithNewline(text)
  {
    if StartsWithNewline(text) {
      forall n: nat ensures Visit(text, n) != None {
        NewlineFirstLoops(text, n);
      }
    } else {
      VisitsAreLineStarts(text, |LineStarts(text, 0)|);
    }
  }

  /** `strncmp (loc, word, strlen (word)) == 0` at offset `v`. */
  predicate HasWord(text: seq<char>, v: nat, word: seq<char>)
    requires v <= |text|
  {
    word <= text[v..]
  }

  /** The number behind the word at `v`, as `sscanf (loc, "word %lld")` reads it. */
  function NumberAt(text: seq<char>, v: nat, word: seq<char>): Option<int>
    requires v <= |text|
  {
    if HasWord(text, v, word) && ScanInt(text[v + |word|..]).Some?
    then Some(ScanInt(text[v + |word|..]).value.value)
    else None
  }

  /** The number on the first line that carries `word` and a number after it. */
  function FirstNumber(text: seq<char>, word: seq<char>, starts: seq<nat>): Option<int>
    requires forall i | 0 <= i < |starts| :: starts[i] <= |text|
  {
    if starts == [] then None
    else if NumberAt(text, starts[0], word).Some? then NumberAt(text, starts[0], word)
    else FirstNumber(text, word, starts[1..])
  }

  /** The line at `v` carries the word and a number. */
  predicate HasNumber(text: seq<char>, v: nat, word: seq<char>)
    requires v <= |text|
  {
    NumberAt(text, v, word).Some?
  }

  /** The word of a loop never stands at the start of a text that starts with a newline. */
  lemma NoWordThere(text: seq<char>, word: seq<char>)
    requires StartsWithNewline(text) && word != [] && word[0] != '\n'
    ensures !HasWord(text, 0, word)
  {
    assert text[0..][0] == text[0];
  }

  /** The loop for a word's number is over at its `n`th visit: no line is left, or the number is found. */
  ghost predicate NumberExit(text: seq<char>, word: seq<char>, n: nat) {
    Visit(text, n) == None || HasNumber(text, Visit(text, n).value, word)
  }

  /** The loops of `init_static_vars`, `break` included, end exactly when the text does not start with a newline. */
  lemma NumberLoopEndsIff(text: seq<char>, word: seq<char>)
    requires word != [] && word[0] != '\n'
    ensures (exists n: nat :: NumberExit(text, word, n)) <==> !StartsWithNewline(text)
  {
    if StartsWithNewline(text) {
      NoWordThere(text, word);
      forall n: nat ensures !NumberExit(text, word, n) {
        NewlineFirstLoops(text, n);
      }
    } else {
      LoopEndsIff(text);
      var n: nat :| Visit(text, n) == None;
      assert NumberExit(text, word, n);
    }
  }

  /** The number is that of the first line that has one; there is none exactly when no line has one. */
  lemma {:induction false} FirstNumberIs(text: seq<char>, word: seq<char>, starts: seq<nat>, i: nat)
    requires forall j | 0 <= j < |starts| :: starts[j] <= |text|
    requires i <= |starts| && forall j | 0 <= j < i :: !HasNumber(text, starts[j], word)
    requires i < |starts| ==> HasNumber(text, starts[i], word)
    ensures FirstNumber(text, word, starts) ==
            if i < |starts| then NumberAt(text, starts[i], word) else None
  {
    if i > 0 {
      assert !HasNumber(text, starts[0], word);
      assert forall j | 0 <= j < |starts[1..]| :: starts[1..][j] == starts[j + 1];
      FirstNumberIs(text, word, starts[1..], i - 1);
    }
  }

  /** The first line with the word reads: the word, some white space, a number, and no digit behind it. */
  lemma FirstNumberRead(text: seq<char>, word: seq<char>, i: nat, gap: seq<char>, n: int, rest: seq<char>)
    requires i < |LineStarts(text, 0)| && Blank(gap) && (rest == [] || !IsDigit(rest[0]))
    requires text[LineStarts(text, 0)[i]..] == word + (gap + (Printed(n) + rest))
    requires forall j | 0 <= j < i :: !(word <= text[LineStarts(text, 0)[j]..])
    ensures FirstNumber(text, word, LineStarts(text, 0)) == Some(n)
  {
    var v := LineStarts(text, 0)[i];
    ScanGap(gap + (Printed(n) + rest), gap, n, rest);
    assert text[v + |word|..] == text[v..][|word|..] == gap + (Printed(n) + rest);
    FirstNumberIs(text, word, LineStarts(text, 0), i);
  }

  /** `strncmp` against memory that holds the C string `text` at `p`. */
  method StrNCmp(mem: array<char>, p: nat, v: nat, word: seq<char>, ghost text: seq<char>) returns (equal: bool)
    requires Stored(mem, p, text + [NUL]) && NUL !in text && v <= |text| && NUL !in word
    ensures equal == HasWord(text, v, word)
  {
    StoredSplit(mem, p, text, [NUL]);
    assert mem[p + |text| + 0] == [NUL][0];
    var i := 0;
    while i < |word| && mem[p + v + i] == word[i]
      invariant 0 <= i <= |word| && v + i <= |text|
      invariant v + i < |text| ==> mem[p + (v + i)] == text[v + i]
      invariant word[..i] == text[v..v + i]
    {
      assert word[i] in word && word[i] != NUL;
      i := i + 1;
      assert text[v..v + i] == text[v..v + i - 1] + [text[v + i - 1]];
      assert v + i < |text| ==> mem[p + (v + i)] == text[v + i];
    }
    equal := i == |word|;
    if equal {
      assert text[v..][..|word|] == text[v..v + |word|];
    } else {
      assert v + i < |text| ==> text[v..][i] == text[v + i];
    }
  }

  /** The number the loop finds from its `n`th line on. */
  ghost function NumberFrom(text: seq<char>, word: seq<char>, n: nat): Option<int>
    requires n <= |LineStarts(text, 0)|
  {
    FirstNumber(text, word, LineStarts(text, 0)[n..])
  }

  lemma NumberNext(text: seq<char>, word: seq<char>, n: nat)
    requires n < |LineStarts(text, 0)|
    ensures NumberFrom(text, word, n) ==
            if NumberAt(text, LineStarts(text, 0)[n], word).Some? then NumberAt(text, LineStarts(text, 0)[n], word)
            else NumberFrom(text, word, n + 1)
  {
    var starts := LineStarts(text, 0);
    assert starts[n..][1..] == starts[n + 1..];
  }

  lemma NumberDone(text: seq<char>, word: seq<char>)
    ensures NumberFrom(text, word, 0) == FirstNumber(text, word, LineStarts(text, 0))
    ensures NumberFrom(text, word, |LineStarts(text, 0)|) == None
  {
    assert LineStarts(text, 0)[0..] == LineStarts(text, 0);
  }

  /** The `btime` and `MemTotal` loops: the first visit whose line carries the word and a number decides. */
  method ScanForNumber(mem: array<char>, p: nat, word: seq<char>, ghost text: seq<char>) returns (r: Option<int>)
    requires Stored(mem, p, text + [NUL]) && NUL !in text && NUL !in word
    requires !StartsWithNewline(text)
    ensures r == FirstNumber(text, word, LineStarts(text, 0))
  {
    var off := 0;
    ghost var n := 0;
    NumberDone(text, word);
    while true
      invariant 0 <= n < |LineStarts(text, 0)| && off == LineStarts(text, 0)[n]
      invariant NumberFrom(text, word, n) == NumberFrom(text, word, 0)
      decreases |LineStarts(text, 0)| - n
    {
      NumberNext(text, word, n);
      r := ReadNumber(mem, p, off, word, text);
      if r.Some? {
        return;
      }
      VisitNext(text, n);
      var next := NextLine(mem, p, off, text);
      if next.None? {
        return;
      }
      off := next.value;
      n := n + 1;
    }
  }

  /** The MemTotal loop: the size of the memory, in bytes. */
  method SystemMemory(mem: array<char>, p: nat, ghost text: seq<char>) returns (bytes: Option<int>)
    requires Stored(mem, p, text + [NUL]) && NUL !in text && !StartsWithNewline(text)
    ensures var n := FirstNumber(text, "MemTotal:", LineStarts(text, 0));
            bytes == if n.Some? then Some(1024 * n.value) else None
  {
    bytes := ScanForNumber(mem, p, "MemTotal:", text);
    if bytes.Some? {
      bytes := Some(1024 * bytes.value);
    }
  }

  /** The `strncmp` and the `sscanf` of the loop's body. */
  method ReadNumber(mem: array<char>, p: nat, off: nat, word: seq<char>, ghost text: seq<char>)
    returns (r: Option<int>)
    requires Stored(mem, p, text + [NUL]) && NUL !in text && NUL !in word && off <= |text|
    ensures r == NumberAt(text, off, word)
  {
    r := None;
    var equal := StrNCmp(mem, p, off, word, text);
    if equal {
      r := SScanInt(mem, p, off + |word|, text);
    }
  }

  /** The `strchr` of the loop and the increment at the top of its body. */
  method NextLine(mem: array<char>, p: nat, off: nat, ghost text: seq<char>) returns (next: Option<nat>)
    requires Stored(mem, p, text + [NUL]) && NUL !in text && off <= |text|
    ensures next == NextVisit(text, off)
  {
    var i, found := StrChr(mem, p, off, '\n', text);
    if !found {
      return None;
    }
    if i != 0 {
      i := i + 1;
    }
    next := Some(i);
  }

  /** `sscanf (text + v, "%lld", &value)`. */
  method SScanInt(mem: array<char>, p: nat, v: nat, ghost text: seq<char>) returns (r: Option<int>)
    requires Stored(mem, p, text + [NUL]) && NUL !in text && v <= |text|
    ensures r == (if ScanInt(text[v..]).Some? then Some(ScanInt(text[v..]).value.value) else None)
  {
    var s := ReadString(mem, p, text);
    match ScanInt(s[v..]) {
      case None => r := None;
      case Some(n) => r := Some(n.value);
    }
  }
}
