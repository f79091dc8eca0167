/**
  `bless_into_proc` of ProcessTable.xs: a format string, an array of field
  names and a C argument list are walked side by side, and a Perl hash comes out.
 */
module Bless {
  import opened Memory
  import opened Scanf

  /** One slot of the argument list: a number, a pointer (the bytes found behind it), or a Perl scalar. */
  datatype Arg = Num(n: int) | Ptr(bytes: seq<char>) | Scalar(id: nat)

  /** A Perl value. */
  datatype Value = Undef | Number(n: int) | Text(s: seq<char>) | List(items: seq<seq<char>>) | Given(id: nat)

  type Hash = map<seq<char>, Value>

  const IGNORED := "ASIULPJ"
  const ENABLED := "asiulpjV"

  predicate Known(letter: char) {
    letter in IGNORED || letter in ENABLED
  }

  /** How many slots a letter takes from the argument list. */
  function Slots(letter: char): nat {
    if letter == 'a' || letter == 'A' then 2 else 1
  }

  /** A buffer with a NUL at index `n`, so that the strings starting before `n` end by then. */
  predicate Closed(buf: seq<char>, n: nat) {
    n < |buf| && buf[n] == NUL
  }

  /** The strings of a NUL-separated array of `n` bytes, from offset `from` on. */
  function DecodeArray(buf: seq<char>, n: nat, from: nat): (items: seq<seq<char>>)
    requires Closed(buf, n)
    decreases n - from
  {
    if from >= n then []
    else
      var item := CString(buf[from..]);
      [item] + DecodeArray(buf, n, from + |item| + 1)
  }

  /** What the caller owes for one letter: the slots, of the right kind, with their strings closed. */
  predicate FitsLetter(letter: char, args: seq<Arg>) {
    Slots(letter) <= |args| &&
    match letter
    case 's' => args[0].Ptr? && NUL in args[0].bytes
    case 'a' => args[0].Ptr? && args[1].Num? && (args[1].n > 0 ==> Closed(args[0].bytes, args[1].n))
    case 'i' => args[0].Num?
    case 'u' => args[0].Num?
    case 'l' => args[0].Num?
    case 'p' => args[0].Num?
    case 'j' => args[0].Num?
    case 'V' => args[0].Scalar?
    case _ => true
  }

  /** The caller's obligation for a whole format, as far as the interpreter gets. */
  predicate Fits(format: seq<char>, args: seq<Arg>) {
    format != [] && Known(format[0]) ==>
      FitsLetter(format[0], args) && Fits(format[1..], args[Slots(format[0])..])
  }

  /** The value a letter stores. */
  function ValueOf(letter: char, args: seq<Arg>): Value
    requires Known(letter) && FitsLetter(letter, args)
  {
    match letter
    case 's' => Text(CString(args[0].bytes))
    case 'a' => List(if args[1].n > 0 then DecodeArray(args[0].bytes, args[1].n, 0) else [])
    case 'V' => Given(args[0].id)
    case 'i' => Number(args[0].n)
    case 'u' => Number(args[0].n)
    case 'l' => Number(args[0].n)
    case 'p' => Number(args[0].n)
    case 'j' => Number(args[0].n)
    case _ => Undef
  }

  /** The name of the terminal with this device number, "" when there is none (`store_ttydev`). */
  function TtyName(ttydevs: Option<map<seq<char>, seq<char>>>, ttynum: int): seq<char>
  {
    var key := Decimal(ttynum % 0x1_0000_0000_0000_0000);
    if ttydevs.Some? && key in ttydevs.value then ttydevs.value[key] else ""
  }

  predicate LooksUpTty(letter: char, key: seq<char>) {
    (letter == 'i' || letter == 'l') && key == "ttynum"
  }

  /** The hash after one field. */
  function StoreField(hash: Hash, letter: char, key: seq<char>, args: seq<Arg>,
                      ttydevs: Option<map<seq<char>, seq<char>>>): Hash
    requires Known(letter) && FitsLetter(letter, args)
  {
    var stored := hash[key := ValueOf(letter, args)];
    if LooksUpTty(letter, key) then stored["ttydev" := Text(TtyName(ttydevs, args[0].n))] else stored
  }

  /** The whole walk; `None` is the `croak` on an unknown letter. */
  function BlessFrom(format: seq<char>, fields: seq<seq<char>>, args: seq<Arg>,
                     ttydevs: Option<map<seq<char>, seq<char>>>, hash: Hash): Option<Hash>
    requires |fields| >= |format| && Fits(format, args)
  {
    if format == [] then Some(hash)
    else if !Known(format[0]) then None
    else BlessFrom(format[1..], fields[1..], args[Slots(format[0])..], ttydevs,
                   StoreField(hash, format[0], fields[0], args, ttydevs))
  }

  /** The strings split off so far, and those still to come from offset `s` on. */
  ghost function SplitAt(buf: seq<char>, n: nat, items: seq<seq<char>>, s: nat): seq<seq<char>>
    requires Closed(buf, n)
  {
    items + DecodeArray(buf, n, s)
  }

  lemma SplitDone(buf: seq<char>, n: nat, items: seq<seq<char>>, s: nat)
    requires Closed(buf, n) && s >= n
    ensures SplitAt(buf, n, items, s) == items
  {
  }

  lemma SplitNext(buf: seq<char>, n: nat, s: nat, items: seq<seq<char>>)
    requires Closed(buf, n) && s < n
    ensures var item := CString(buf[s..]);
            SplitAt(buf, n, items, s) == SplitAt(buf, n, items + [item], s + |item| + 1)
  {
    var item := CString(buf[s..]);
    Associate(items, [item], DecodeArray(buf, n, s + |item| + 1));
  }

  /** The loop of case 'a'. */
  method SplitArray(buf: seq<char>, n: int) returns (items: seq<seq<char>>)
    requires n > 0 ==> Closed(buf, n)
    ensures items == (if n > 0 then DecodeArray(buf, n, 0) else [])
  {
    items := [];
    var s := 0;
    assert n > 0 ==> SplitAt(buf, n, [], 0) == DecodeArray(buf, n, 0);
    while s < n
      invariant 0 <= s
      invariant n > 0 ==> SplitAt(buf, n, items, s) == DecodeArray(buf, n, 0)
      invariant n <= 0 ==> items == []
      decreases n - s
    {
      var item := CString(buf[s..]);
      SplitNext(buf, n, s, items);
      items := items + [item];
      s := s + |item| + 1;
    }
    if n > 0 {
      SplitDone(buf, n, items, s);
    }
  }

  /** `bless_into_proc`. */
  method BlessIntoProc(format: seq<char>, fields: seq<seq<char>>, args: seq<Arg>,
                       ttydevs: Option<map<seq<char>, seq<char>>>) returns (r: Option<Hash>)
    requires |fields| >= |format| && Fits(format, args)
    ensures r == BlessFrom(format, fields, args, ttydevs, map[])
  {
    var hash: Hash := map[];
    var f, a := 0, 0;
    while f < |format|
      invariant 0 <= f <= |format| && 0 <= a <= |args|
      invariant Fits(format[f..], args[a..])
      invariant BlessFrom(format, fields, args, ttydevs, map[]) ==
                BlessFrom(format[f..], fields[f..], args[a..], ttydevs, hash)
    {
      if !Known(format[f]) {
        return None;
      }
      assert format[f..][1..] == format[f + 1..] && fields[f..][1..] == fields[f + 1..];
      assert args[a..][Slots(format[f])..] == args[a + Slots(format[f])..];
      hash := StoreArg(format[f], fields[f], args[a..], ttydevs, hash);
      a := a + Slots(format[f]);
      f := f + 1;
    }
    r := Some(hash);
  }

  /** `store_ttydev`. */
  method StoreTtyDev(ttydevs: Option<map<seq<char>, seq<char>>>, ttynum: int, hash: Hash) returns (stored: Hash)
    ensures stored == hash["ttydev" := Text(TtyName(ttydevs, ttynum))]
  {
    var key := Decimal(ttynum % 0x1_0000_0000_0000_0000);
    if ttydevs.Some? && key in ttydevs.value {
      stored := hash["ttydev" := Text(ttydevs.value[key])];
    } else {
      stored := hash["ttydev" := Text("")];
    }
  }

  /** Cases 'i' and 'l': the number, and for "ttynum" the terminal's name as well. */
  method StoreInteger(key: seq<char>, n: int, ttydevs: Option<map<seq<char>, seq<char>>>, hash: Hash)
    returns (stored: Hash)
    ensures var numbered := hash[key := Number(n)];
            stored == if key == "ttynum" then numbered["ttydev" := Text(TtyName(ttydevs, n))] else numbered
  {
    stored := hash[key := Number(n)];
    if key == "ttynum" {
      stored := StoreTtyDev(ttydevs, n, stored);
    }
  }

  /** The cases of its switch. */
  method StoreArg(letter: char, key: seq<char>, args: seq<Arg>, ttydevs: Option<map<seq<char>, seq<char>>>, hash: Hash)
    returns (stored: Hash)
    requires Known(letter) && FitsLetter(letter, args)
    ensures stored == StoreField(hash, letter, key, args, ttydevs)
  {
    match letter {
      case 's' => stored := hash[key := Text(CString(args[0].bytes))];
      case 'a' =>
        var items := SplitArray(args[0].bytes, args[1].n);
        stored := hash[key := List(items)];
      case 'V' => stored := hash[key := Given(args[0].id)];
      case 'i' => stored := StoreInteger(key, args[0].n, ttydevs, hash);
      case 'l' => stored := StoreInteger(key, args[0].n, ttydevs, hash);
      case 'u' => stored := hash[key := Number(args[0].n)];
      case 'p' => stored := hash[key := Number(args[0].n)];
      case 'j' => stored := hash[key := Number(args[0].n)];
      case _ => stored := hash[key := Undef];
    }
  }

  /** The argument slot at which field `i` begins. */
  function SlotOf(format: seq<char>, i: nat): nat
    requires i <= |format|
  {
    if i == 0 then 0 else Slots(format[0]) + SlotOf(format[1..], i - 1)
  }

  /** Field `i` stores key `k`: its own name, or "ttydev" by way of "ttynum". */
  predicate Writes(letter: char, key: seq<char>, k: seq<char>) {
    key == k || (k == "ttydev" && LooksUpTty(letter, key))
  }

  function Written(letter: char, k: seq<char>, key: seq<char>, args: seq<Arg>,
                   ttydevs: Option<map<seq<char>, seq<char>>>): Value
    requires Known(letter) && FitsLetter(letter, args)
  {
    if k == "ttydev" && LooksUpTty(letter, key) then Text(TtyName(ttydevs, args[0].n)) else ValueOf(letter, args)
  }

  lemma {:induction false} SlotStep(format: seq<char>, i: nat)
    requires i < |format|
    ensures SlotOf(format, i + 1) == SlotOf(format, i) + Slots(format[i])
  {
    if i > 0 {
      SlotStep(format[1..], i - 1);
    }
  }

  /** The caller's obligation, met field by field. */
  lemma {:induction false} FitsByField(format: seq<char>, args: seq<Arg>)
    requires forall i | 0 <= i < |format| ::
               SlotOf(format, i) <= |args| && FitsLetter(format[i], args[SlotOf(format, i)..])
    ensures Fits(format, args)
  {
    if format != [] {
      assert SlotOf(format, 0) == 0 && args[0..] == args && FitsLetter(format[0], args);
      var n := Slots(format[0]);
      forall i | 0 <= i < |format[1..]|
        ensures SlotOf(format[1..], i) <= |args[n..]|
        ensures FitsLetter(format[1..][i], args[n..][SlotOf(format[1..], i)..])
      {
        assert SlotOf(format, i + 1) == n + SlotOf(format[1..], i);
        assert FitsLetter(format[i + 1], args[SlotOf(format, i + 1)..]);
        assert args[n..][SlotOf(format[1..], i)..] == args[SlotOf(format, i + 1)..];
      }
      FitsByField(format[1..], args[n..]);
    }
  }

  /** All letters known: the caller's obligation holds at every field's own slots. */
  lemma {:induction false} FitsAt(format: seq<char>, args: seq<Arg>, i: nat)
    requires Fits(format, args) && i < |format| && forall j | 0 <= j < |format| :: Known(format[j])
    ensures SlotOf(format, i) <= |args| && FitsLetter(format[i], args[SlotOf(format, i)..])
  {
    if i > 0 {
      var n := Slots(format[0]);
      FitsAt(format[1..], args[n..], i - 1);
      assert args[n..][SlotOf(format[1..], i - 1)..] == args[SlotOf(format, i)..];
    }
  }

  /** A key that no field writes is left alone. */
  lemma {:induction false} Untouched(format: seq<char>, fields: seq<seq<char>>, args: seq<Arg>,
                                     ttydevs: Option<map<seq<char>, seq<char>>>, hash: Hash, k: seq<char>)
    requires |fields| >= |format| && Fits(format, args)
    requires BlessFrom(format, fields, args, ttydevs, hash).Some?
    requires forall j | 0 <= j < |format| :: !Writes(format[j], fields[j], k)
    ensures var h := BlessFrom(format, fields, args, ttydevs, hash).value;
            (k in h <==> k in hash) && (k in hash ==> h[k] == hash[k])
  {
    if format != [] {
      assert !Writes(format[0], fields[0], k);
      Untouched(format[1..], fields[1..], args[Slots(format[0])..], ttydevs,
                StoreField(hash, format[0], fields[0], args, ttydevs), k);
    }
  }

  /**
    The last field that writes a key decides it, and it decides from its own
    argument slots.  So a field with a name of its own holds its own value if
    enabled and undef if ignored, and of "ttydev" and "ttynum" the later wins.
   */
  lemma {:induction false} LastWriter(format: seq<char>, fields: seq<seq<char>>, args: seq<Arg>,
                                      ttydevs: Option<map<seq<char>, seq<char>>>, hash: Hash, i: nat, k: seq<char>)
    requires |fields| >= |format| && Fits(format, args) && i < |format|
    requires forall j | 0 <= j < |format| :: Known(format[j])
    requires Writes(format[i], fields[i], k) && forall j | i < j < |format| :: !Writes(format[j], fields[j], k)
    ensures BlessFrom(format, fields, args, ttydevs, hash).Some?
    ensures SlotOf(format, i) <= |args| && FitsLetter(format[i], args[SlotOf(format, i)..])
    ensures var h := BlessFrom(format, fields, args, ttydevs, hash).value;
            k in h && h[k] == Written(format[i], k, fields[i], args[SlotOf(format, i)..], ttydevs)
  {
    FitsAt(format, args, i);
    var n := Slots(format[0]);
    var stored := StoreField(hash, format[0], fields[0], args, ttydevs);
    if i == 0 {
      NoCroak(format[1..], fields[1..], args[n..], ttydevs, stored);
      Untouched(format[1..], fields[1..], args[n..], ttydevs, stored, k);
      assert args[0..] == args;
    } else {
      LastWriter(format[1..], fields[1..], args[n..], ttydevs, stored, i - 1, k);
      assert args[n..][SlotOf(format[1..], i - 1)..] == args[SlotOf(format, i)..];
    }
  }

  /** The interpreter croaks exactly when some letter is unknown. */
  lemma {:induction false} NoCroak(format: seq<char>, fields: seq<seq<char>>, args: seq<Arg>,
                                   ttydevs: Option<map<seq<char>, seq<char>>>, hash: Hash)
    requires |fields| >= |format| && Fits(format, args)
    ensures BlessFrom(format, fields, args, ttydevs, hash).Some? <==> forall j | 0 <= j < |format| :: Known(format[j])
  {
    if format != [] && Known(format[0]) {
      NoCroak(format[1..], fields[1..], args[Slots(format[0])..], ttydevs,
              StoreField(hash, format[0], fields[0], args, ttydevs));
      assert forall j | 1 <= j < |format| :: format[j] == format[1..][j - 1];
    }
  }

  /** The letters it knows: seven kinds of field, ignored in capitals, and the Perl scalar. */
  lemma CroaksIff(format: seq<char>, fields: seq<seq<char>>, args: seq<Arg>,
                  ttydevs: Option<map<seq<char>, seq<char>>>, hash: Hash)
    requires |fields| >= |format| && Fits(format, args)
    ensures BlessFrom(format, fields, args, ttydevs, hash) == None <==>
            exists j | 0 <= j < |format| :: format[j] !in "ASIULPJasiulpjV"
  {
    NoCroak(format, fields, args, ttydevs, hash);
    forall j | 0 <= j < |format| ensures Known(format[j]) <==> format[j] in "ASIULPJasiulpjV" {
      KnownIs(format[j]);
    }
  }

  lemma KnownIs(letter: char)
    ensures Known(letter) <==> letter in "ASIULPJasiulpjV"
  {
  }

  /** `tolower`. */
  function ToLower(c: char): char {
    if 'A' <= c <= 'Z' then c - 'A' + 'a' else c
  }

  lemma LowerIs(c: char)
    ensures ToLower(c) as int == if 65 <= c as int <= 90 then c as int + 32 else c as int
  {
  }

  /** The format after `field_enable` on every position in `on`. */
  function Enable(format: seq<char>, on: set<nat>): (r: seq<char>)
    ensures |r| == |format|
    ensures forall i | 0 <= i < |format| :: r[i] == if i in on then ToLower(format[i]) else format[i]
  {
    seq(|format|, i requires 0 <= i < |format| => if i in on then ToLower(format[i]) else format[i])
  }

  /** Switching fields on never moves any field's argument slots. */
  lemma {:induction false} InStep(format: seq<char>, format': seq<char>, i: nat)
    requires i <= |format| == |format'|
    requires forall j | 0 <= j < |format| :: format'[j] == format[j] || format'[j] == ToLower(format[j])
    ensures SlotOf(format', i) == SlotOf(format, i)
  {
    if i > 0 {
      InStep(format[1..], format'[1..], i - 1);
    }
  }

  /** Switching on is safe for every documented letter but one: a switched-on 'V' becomes 'v', which is unknown. */
  lemma EnableKnown(format: seq<char>, on: set<nat>)
    requires forall i | 0 <= i < |format| :: Known(format[i])
    ensures (forall i | 0 <= i < |format| :: Known(Enable(format, on)[i])) <==>
            (forall i | 0 <= i < |format| :: i in on ==> format[i] != 'V')
  {
    var format' := Enable(format, on);
    forall i | 0 <= i < |format| ensures Known(format'[i]) <==> (i in on ==> format[i] != 'V') {
      LowerKnown(format[i]);
    }
    if i :| 0 <= i < |format| && i in on && format[i] == 'V' {
      assert !Known(format'[i]);
    }
  }

  lemma LowerKnown(c: char)
    requires Known(c)
    ensures Known(ToLower(c)) <==> c != 'V'
  {
  }

  /** The counterexample: a format of one scalar field, switched on, croaks. */
  lemma EnabledScalarCroaks(id: nat)
    ensures BlessFrom("V", ["groups"], [Scalar(id)], None, map[]).Some?
    ensures Enable("V", {0}) == "v"
    ensures BlessFrom("v", ["groups"], [Scalar(id)], None, map[]) == None
  {
    assert Known("V"[0]) && !Known("v"[0]);
    assert BlessFrom("V"[1..], ["groups"][1..], [Scalar(id)][1..], None, map["groups" := Given(id)]).Some?;
    assert Enable("V", {0})[0] == 'v';
  }
}
