/**
  The `/proc/<pid>/stat` line, "pid (name) state n n n ...", as `get_proc_stat`
  reads it.  The name is whatever the program called itself, so it may hold
  spaces and parentheses of its own.
 */
module StatLine {
  import opened Memory
  import opened Scanf

  /**
    What one reading leaves in the process record.  `readOk` is the function's
    answer, `enabled` whether the fields scanned here are switched on, and
    `nums` the numbers that converted after the state letter.
   */
  datatype StatRecord = StatRecord(
    pid: int, comm: seq<char>, state: Option<char>, nums: seq<int>, enabled: bool, readOk: bool)

  /** The state letter and the numbers after the closing parenthesis. */
  function Tail(tail: seq<char>, items: nat): (r: (Option<char>, seq<int>))
    requires items > 0
  {
    match ScanChar(tail)
    case None => (None, [])
    case Some(c) => (Some(c), ScanInts(AfterChar(tail), items - 1))
  }

  /** `strncpy` into a field of `size` bytes whose last byte is kept NUL. */
  function Cut(name: seq<char>, size: nat): seq<char>
    requires size > 0
  {
    if |name| > size - 1 then name[..size - 1] else name
  }

  /** The name and the rest of the line, once the text is cut at its last ')'. */
  function ParseParts(pid: int, front: seq<char>, tail: seq<char>, commSize: nat, items: nat): StatRecord
    requires commSize > 0 && items > 0
  {
    var open := IndexFrom(front, '(', 0);
    if open == |front| then StatRecord(pid, [], None, [], false, false)
    else
      var (state, nums) := Tail(tail, items);
      var all := state.Some? && |nums| == items - 1;
      StatRecord(pid, Cut(front[open + 1..], commSize), state, nums, all, all)
  }

  /** `get_proc_stat` on the text of the file; `items` conversions must succeed, the name field has `commSize` bytes. */
  function ParseStat(text: seq<char>, commSize: nat, items: nat): StatRecord
    requires commSize > 0 && items > 0
  {
    match ScanInt(text)
    case None => StatRecord(0, [], None, [], false, true)
    case Some(first) =>
      var close := LastEnd(text, ')');
      if close == 0 then StatRecord(first.value, [], None, [], false, false)
      else ParseParts(first.value, text[..close - 1], text[close..], commSize, items)
  }

  /** The line for a process, up to whatever follows the closing parenthesis. */
  function Line(pid: int, name: seq<char>, tail: seq<char>): seq<char> {
    Front(Printed(pid), name) + ([')'] + tail)
  }

  function Front(digits: seq<char>, name: seq<char>): seq<char> {
    digits + ([' ', '('] + name)
  }

  /** The last ')' of the line is the one that closes the name. */
  lemma CloseFound(front: seq<char>, tail: seq<char>)
    requires ')' !in tail
    ensures var text := front + ([')'] + tail);
            LastEnd(text, ')') == |front| + 1 && text[..|front|] == front && text[|front| + 1..] == tail
  {
    var text := front + ([')'] + tail);
    forall j | |front| + 1 <= j < |text| ensures text[j] != ')' {
      assert text[j] == tail[j - |front| - 1];
    }
    LastIs(text, ')', |front| + 1);
  }

  /** The first '(' of the line is the one that opens the name. */
  lemma OpenFound(digits: seq<char>, name: seq<char>)
    requires '(' !in digits
    ensures IndexFrom(Front(digits, name), '(', 0) == |digits| + 1 < |Front(digits, name)|
    ensures Front(digits, name)[|digits| + 2..] == name
  {
    var front := Front(digits, name);
    forall j | 0 <= j < |digits| + 1 ensures front[j] != '(' {
      assert j < |digits| ==> front[j] == digits[j];
    }
    IndexIs(front, '(', 0, |digits| + 1);
  }

  lemma PidFound(pid: int, name: seq<char>, tail: seq<char>)
    ensures ScanInt(Line(pid, name, tail)).Some? && ScanInt(Line(pid, name, tail)).value.value == pid
  {
    var more := ([' ', '('] + name) + ([')'] + tail);
    assert Line(pid, name, tail) == Printed(pid) + more;
    assert more[0] == ' ';
    ScanPrinted(pid, more);
  }

  /**
    For every name and every tail without ')': the pid, the name, cut if it does
    not fit its field, the tail's own conversions, and the fields switched on
    exactly when all of them succeed.
   */
  lemma StatReads(pid: int, name: seq<char>, tail: seq<char>, commSize: nat, items: nat)
    requires ')' !in tail && commSize > 0 && items > 0
    ensures var rec := ParseStat(Line(pid, name, tail), commSize, items);
            && rec.pid == pid
            && rec.comm == (if |name| < commSize then name else name[..commSize - 1])
            && (rec.state, rec.nums) == Tail(tail, items)
            && rec.enabled == rec.readOk == (rec.state.Some? && |rec.nums| == items - 1)
  {
    PidFound(pid, name, tail);
    CloseFound(Front(Printed(pid), name), tail);
    OpenFound(Printed(pid), name);
  }

  /** " c n n n ...": the tail of a line as it is printed. */
  function PrintTail(state: char, nums: seq<int>, rest: seq<char>): seq<char> {
    [' '] + ([state] + (PrintAll(nums) + rest))
  }

  lemma SkipLetter(state: char, more: seq<char>)
    requires !IsSpace(state)
    ensures SkipSpace([' '] + ([state] + more)) == [state] + more
  {
    var s := [state] + more;
    assert SkipSpace(s) == s;
    assert ([' '] + s)[1..] == s;
  }

  lemma TailPrinted(state: char, nums: seq<int>, rest: seq<char>, items: nat)
    requires !IsSpace(state) && (rest == [] || !IsDigit(rest[0]))
    requires |nums| < items && (|nums| + 1 < items ==> ScanInt(rest).None?)
    ensures Tail(PrintTail(state, nums, rest), items) == (Some(state), nums)
  {
    var more := PrintAll(nums) + rest;
    SkipLetter(state, more);
    assert ([state] + more)[1..] == more;
    ScanPrintAll(nums, rest, items - 1);
  }

  lemma TailPlain(state: char, nums: seq<int>, rest: seq<char>)
    requires state != ')' && ')' !in rest
    ensures ')' !in PrintTail(state, nums, rest)
  {
    PrintAllPlain(nums);
  }

  /**
    A line printed from a process reads back as that process.  With fewer numbers
    than asked for, what there is is kept, and nothing is switched on.
   */
  lemma StatRoundTrip(pid: int, name: seq<char>, state: char, nums: seq<int>, rest: seq<char>,
                      commSize: nat, items: nat)
    requires commSize > 0 && state != ')' && !IsSpace(state)
    requires ')' !in rest && (rest == [] || !IsDigit(rest[0]))
    requires |nums| < items && (|nums| + 1 < items ==> ScanInt(rest).None?)
    ensures var all := |nums| + 1 == items;
            ParseStat(Line(pid, name, PrintTail(state, nums, rest)), commSize, items) ==
            StatRecord(pid, if |name| < commSize then name else name[..commSize - 1], Some(state), nums, all, all)
  {
    TailPlain(state, nums, rest);
    TailPrinted(state, nums, rest, items);
    StatReads(pid, name, PrintTail(state, nums, rest), commSize, items);
  }

  lemma {:induction false} PrintAllPlain(ns: seq<int>)
    ensures ')' !in PrintAll(ns)
  {
    if ns != [] {
      PrintAllPlain(ns[1..]);
    }
  }
}
