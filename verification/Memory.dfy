/** Byte strings in the flat memory of the C programs. */
module Memory {

  /** The characters of `data` are in memory from address `p` on. */
  ghost predicate Stored(mem: array<char>, p: nat, data: seq<char>)
    reads mem
  {
    p + |data| <= mem.Length && forall i | 0 <= i < |data| :: mem[p + i] == data[i]
  }

  lemma StoredSplit(mem: array<char>, p: nat, a: seq<char>, b: seq<char>)
    ensures Stored(mem, p, a + b) <==> Stored(mem, p, a) && Stored(mem, p + |a|, b)
  {
    if Stored(mem, p, a + b) {
      forall i | 0 <= i < |a| ensures mem[p + i] == a[i] {
        assert (a + b)[i] == a[i];
      }
      forall i | 0 <= i < |b| ensures mem[p + |a| + i] == b[i] {
        assert (a + b)[|a| + i] == b[i];
      }
    }
  }

  lemma Associate<T>(a: seq<T>, b: seq<T>, c: seq<T>)
    ensures a + (b + c) == (a + b) + c
  {
  }

  /** `s` with `bytes` written over it from offset `off` on. */
  function Splice(s: seq<char>, off: nat, bytes: seq<char>): (r: seq<char>)
    requires off + |bytes| <= |s|
    ensures |r| == |s|
  {
    s[..off] + bytes + s[off + |bytes|..]
  }

  lemma StoredAround(mem: array<char>, p: nat, was: seq<char>, off: nat, end: nat)
    requires off <= end <= |was| && Stored(mem, p, was)
    ensures Stored(mem, p, was[..off]) && Stored(mem, p + end, was[end..])
  {
    forall i | 0 <= i < |was| - end ensures mem[p + end + i] == was[end..][i] {
      assert was[end..][i] == was[end + i];
    }
  }

  lemma StoredSpliced(mem: array<char>, p: nat, was: seq<char>, off: nat, bytes: seq<char>)
    requires off + |bytes| <= |was|
    requires Stored(mem, p, was[..off]) && Stored(mem, p + off, bytes)
    requires Stored(mem, p + off + |bytes|, was[off + |bytes|..])
    ensures Stored(mem, p, Splice(was, off, bytes))
  {
    var r := Splice(was, off, bytes);
    var end := off + |bytes|;
    forall i | 0 <= i < |r| ensures mem[p + i] == r[i] {
      if i < off {
        assert r[i] == was[..off][i];
      } else if i < end {
        assert r[i] == bytes[i - off] && mem[p + off + (i - off)] == bytes[i - off];
      } else {
        assert r[i] == was[end..][i - end] && mem[p + end + (i - end)] == was[end..][i - end];
      }
    }
  }

  const NUL: char := '\0'

  datatype Option<+T> = None | Some(value: T)

  /** The C string at the front of a buffer: everything before the first NUL. */
  function CString(buf: seq<char>): (s: seq<char>)
    ensures |s| <= |buf| && s == buf[..|s|] && NUL !in s
    ensures |s| < |buf| ==> buf[|s|] == NUL
  {
    if buf == [] || buf[0] == NUL then [] else [buf[0]] + CString(buf[1..])
  }

  lemma {:induction false} CStringBound(buf: seq<char>, i: nat)
    requires i < |buf| && buf[i] == NUL
    ensures |CString(buf)| <= i
  {
    if buf[0] != NUL {
      CStringBound(buf[1..], i - 1);
    }
  }

  lemma {:induction false} CStringIs(s: seq<char>, rest: seq<char>)
    requires NUL !in s
    ensures CString(s + [NUL] + rest) == s
  {
    if s == [] {
      assert (s + [NUL] + rest)[0] == NUL;
    } else {
      CStringIs(s[1..], rest);
      assert (s + [NUL] + rest)[1..] == s[1..] + [NUL] + rest;
    }
  }

  lemma {:induction false} CStringAppend(a: seq<char>, b: seq<char>)
    requires NUL !in a
    ensures CString(a + b) == a + CString(b)
  {
    if a == [] {
      assert a + b == b;
    } else {
      CStringAppend(a[1..], b);
      assert (a + b)[1..] == a[1..] + b;
    }
  }

  /** The closing NUL adds nothing to a string. */
  lemma CStringClosed(s: seq<char>)
    ensures CString(s + [NUL]) == CString(s)
  {
    var t := CString(s);
    if |t| < |s| {
      CStringUnique(s + [NUL], t);
    } else {
      CStringUnique(s + [NUL], s);
    }
  }

  lemma CStringUnique(buf: seq<char>, s: seq<char>)
    requires |s| < |buf| && buf[..|s|] == s && buf[|s|] == NUL && NUL !in s
    ensures CString(buf) == s
  {
    assert buf == s + [NUL] + buf[|s| + 1..];
    CStringIs(s, buf[|s| + 1..]);
  }

  /** `strchr`: the first place of `c` at or after `from`; `|s|` when there is none. */
  function IndexFrom(s: seq<char>, c: char, from: nat): (i: nat)
    requires from <= |s|
    ensures from <= i <= |s|
    ensures i < |s| ==> s[i] == c
    ensures forall j | from <= j < i :: s[j] != c
    decreases |s| - from
  {
    if from == |s| || s[from] == c then from else IndexFrom(s, c, from + 1)
  }

  lemma IndexIs(s: seq<char>, c: char, from: nat, i: nat)
    requires from <= i <= |s| && (i < |s| ==> s[i] == c) && forall j | from <= j < i :: s[j] != c
    ensures IndexFrom(s, c, from) == i
  {
  }

  /** `strrchr`: one past the last place of `c`; 0 when there is none. */
  function LastEnd(s: seq<char>, c: char): (e: nat)
    ensures e <= |s|
    ensures e > 0 ==> s[e - 1] == c
    ensures forall j | e <= j < |s| :: s[j] != c
  {
    if s == [] then 0
    else if s[|s| - 1] == c then |s|
    else LastEnd(s[..|s| - 1], c)
  }

  lemma LastIs(s: seq<char>, c: char, e: nat)
    requires e <= |s| && (e > 0 ==> s[e - 1] == c) && forall j | e <= j < |s| :: s[j] != c
    ensures LastEnd(s, c) == e
  {
  }

  /** `strchr` on memory that holds the C string `text` at `p`: its offset, or the length when absent. */
  method StrChr(mem: array<char>, p: nat, from: nat, c: char, ghost text: seq<char>) returns (i: nat, found: bool)
    requires Stored(mem, p, text + [NUL]) && NUL !in text && from <= |text| && c != NUL
    ensures i == IndexFrom(text, c, from) && found == (i < |text|)
  {
    i := from;
    StoredSplit(mem, p, text, [NUL]);
    assert mem[p + |text| + 0] == [NUL][0];
    while mem[p + i] != NUL && mem[p + i] != c
      invariant from <= i <= |text|
      invariant i < |text| ==> mem[p + i] == text[i] && text[i] in text
      invariant forall j | from <= j < i :: text[j] != c
      decreases |text| - i
    {
      i := i + 1;
    }
    found := mem[p + i] == c;
    IndexIs(text, c, from, i);
  }

  /** `strrchr`: one past the last `c`, or 0. */
  method StrRChr(mem: array<char>, p: nat, c: char, ghost text: seq<char>) returns (e: nat)
    requires Stored(mem, p, text + [NUL]) && NUL !in text && c != NUL
    ensures e == LastEnd(text, c)
  {
    e := 0;
    var i := 0;
    StoredSplit(mem, p, text, [NUL]);
    assert mem[p + |text| + 0] == [NUL][0];
    while mem[p + i] != NUL
      invariant 0 <= e <= i <= |text|
      invariant i < |text| ==> mem[p + i] == text[i] && text[i] in text
      invariant e > 0 ==> text[e - 1] == c
      invariant forall j | e <= j < i :: text[j] != c
      decreases |text| - i
    {
      i := i + 1;
      if mem[p + i - 1] == c {
        e := i;
      }
    }
    LastIs(text, c, e);
  }

  /** The C string at `p`, as a value: what library functions that take it by pointer read. */
  method ReadString(mem: array<char>, p: nat, ghost text: seq<char>) returns (s: seq<char>)
    requires Stored(mem, p, text + [NUL]) && NUL !in text
    ensures s == text
  {
    StoredSplit(mem, p, text, [NUL]);
    assert mem[p + |text| + 0] == [NUL][0];
    var i := 0;
    while mem[p + i] != NUL
      invariant 0 <= i <= |text|
      invariant i < |text| ==> mem[p + i] == text[i] && text[i] in text
      decreases |text| - i
    {
      i := i + 1;
    }
    s := mem[p..p + i];
  }
}
