/**
  The hash pushed for a Cygwin process, field by field: what every key of it
  holds, whatever the system says.
 */
module RecordFields {
  import opened Memory
  import opened Scanf
  import opened Bless
  import opened CommandLines
  import opened ProcFiles
  import opened ProcRecord

  const F_TTYNUM: nat := 7

  /** The place of a field in the list of names, read off its length and a few letters: no two names are the same. */
  function Place(name: seq<char>): nat {
    if |name| == 3 then PlaceOf3(name[0])
    else if |name| == 4 then PlaceOf4(name[0], name[1])
    else if |name| == 5 then PlaceOf5(name[0], name[1], name[3])
    else if |name| == 6 then PlaceOf6(name[0], name[1], name[3])
    else if |name| == 7 then PlaceOf7(name[2])
    else if |name| == 8 then if name[0] == 'p' then 17 else F_CMNDLINE
    else F_WINEXENAME
  }

  function PlaceOf3(a: char): nat {
    match a case 'u' => F_UID case 'g' => F_GID case 'p' => F_PID case 'r' => F_RSS case _ => F_CWD
  }

  function PlaceOf4(a: char, b: char): nat {
    match b
    case 'p' => 4
    case 'g' => (match a case 'p' => 5 case 'e' => F_EGID case 's' => 28 case _ => F_FGID)
    case 'e' => 6
    case 'i' => if a == 's' then 19 else F_TIME
    case 'u' => (match a case 'e' => F_EUID case 's' => 25 case _ => F_FUID)
    case _ => F_EXEC
  }

  function PlaceOf5(a: char, b: char, d: char): nat {
    match a
    case 'f' => if b == 'n' then 3 else 8
    case 'u' => 13
    case 's' => (match d case 'm' => 14 case 'r' => 18 case _ => F_STATE)
    case _ => F_CTIME
  }

  function PlaceOf6(a: char, b: char, d: char): nat {
    match b
    case 't' => F_TTYNUM
    case 'i' => if a == 'm' then 9 else F_WINPID
    case 'a' => 11
    case 'u' => 15
    case 's' => 16
    case _ => if d == 'c' then F_PCTCPU else F_PCTMEM
  }

  function PlaceOf7(c: char): nat {
    match c case 'i' => 10 case 'a' => 12 case 'd' => F_CMDLINE case _ => F_ENVIRON
  }

  lemma NamePlace(i: nat)
    requires i < N_FIELDS
    ensures |FIELD_NAMES| == N_FIELDS && Place(FIELD_NAMES[i]) == i
  {
    if i < 13 {
      PlaceLow(i);
    } else if i < 26 {
      PlaceMiddle(i);
    } else {
      PlaceHigh(i);
    }
  }

  lemma PlaceLow(i: nat)
    requires i < 13
    ensures |FIELD_NAMES| == N_FIELDS && Place(FIELD_NAMES[i]) == i
  {
  }

  lemma PlaceMiddle(i: nat)
    requires 13 <= i < 26
    ensures |FIELD_NAMES| == N_FIELDS && Place(FIELD_NAMES[i]) == i
  {
  }

  lemma PlaceHigh(i: nat)
    requires 26 <= i < N_FIELDS
    ensures |FIELD_NAMES| == N_FIELDS && Place(FIELD_NAMES[i]) == i
  {
  }

  /** No two fields have the same name, and none is called "ttydev". */
  lemma NamesApart(i: nat)
    requires i < N_FIELDS
    ensures |FIELD_NAMES| == N_FIELDS && FIELD_NAMES[i] != "ttydev"
    ensures forall j | 0 <= j < N_FIELDS && j != i :: FIELD_NAMES[j] != FIELD_NAMES[i]
    ensures FIELD_NAMES[i] == "ttynum" <==> i == F_TTYNUM
  {
    NamePlace(i);
    assert FIELD_NAMES[F_TTYNUM] == "ttynum" && Place("ttydev") == F_TTYNUM && "ttydev"[3] != "ttynum"[3];
    NamePlace(F_TTYNUM);
    forall j | 0 <= j < N_FIELDS && j != i ensures FIELD_NAMES[j] != FIELD_NAMES[i] {
      NamePlace(j);
    }
  }

  /** A NUL-separated buffer as a list. */
  function ListOf(content: seq<char>): Value {
    List(if |content| > 0 then DecodeArray(content + [NUL], |content|, 0) else [])
  }

  /** What a field holds when it is switched on. */
  function FieldValue(v: View, sys: System, i: nat): Value {
    if i == F_CMDLINE then ListOf(if v.cmdline.Some? then v.cmdline.value else [])
    else if i == F_ENVIRON then ListOf(if v.environ.Some? then v.environ.value else [])
    else match ArgAt(v, sys, SlotOfField(i))
      case Num(n) => Number(n)
      case Ptr(bytes) => Text(CString(bytes))
      case Scalar(id) => Given(id)
  }

  /** The letter of a field, switched on or not. */
  lemma FieldLetter(on: set<nat>, i: nat)
    requires i < N_FIELDS
    ensures |FormatWith(on)| == N_FIELDS
    ensures i !in on ==> FormatWith(on)[i] in IGNORED
    ensures i in on ==> FormatWith(on)[i] == if IsTextField(i) then 's' else if IsArrayField(i) then 'a'
                                             else ToLower(DEFAULT_FORMAT[i])
    ensures i in on && !IsTextField(i) && !IsArrayField(i) ==> FormatWith(on)[i] in "iljp"
  {
    DefaultLetter(i);
  }

  lemma ArrayValue(args: seq<Arg>, content: seq<char>)
    requires |args| >= 2 && args[0] == Ptr(content + [NUL]) && args[1] == Num(|content|)
    ensures FitsLetter('a', args) && ValueOf('a', args) == ListOf(content)
  {
  }

  lemma TextValue(args: seq<Arg>, bytes: seq<char>)
    requires |args| >= 1 && args[0] == Ptr(bytes) && FitsLetter('s', args)
    ensures ValueOf('s', args) == Text(CString(bytes))
  {
  }

  lemma NumberValue(letter: char, args: seq<Arg>, n: int)
    requires letter in "iljp" && |args| >= 1 && args[0] == Num(n)
    ensures FitsLetter(letter, args) && ValueOf(letter, args) == Number(n)
  {
  }

  lemma IgnoredValue(letter: char, args: seq<Arg>)
    requires letter in IGNORED && FitsLetter(letter, args)
    ensures ValueOf(letter, args) == Undef
  {
  }

  /** The value stored for a field from its own slots. */
  lemma StoredValue(v: View, sys: System, on: set<nat>, i: nat)
    requires i < N_FIELDS && |FIELD_NAMES| == N_FIELDS && Backs(v, on)
    requires |FormatWith(on)| == N_FIELDS && Known(FormatWith(on)[i])
    requires FitsLetter(FormatWith(on)[i], Args(v, sys)[SlotOfField(i)..])
    ensures ValueOf(FormatWith(on)[i], Args(v, sys)[SlotOfField(i)..]) ==
            if i in on then FieldValue(v, sys, i) else Undef
  {
    var args := Args(v, sys)[SlotOfField(i)..];
    FieldLetter(on, i);
    if i !in on {
      IgnoredValue(FormatWith(on)[i], args);
    } else if IsArrayField(i) {
      StoredArray(v, sys, on, i);
    } else {
      StoredScalar(v, sys, FormatWith(on)[i], i);
    }
  }

  lemma StoredArray(v: View, sys: System, on: set<nat>, i: nat)
    requires IsArrayField(i) && Backs(v, on) && i in on
    ensures FitsLetter('a', Args(v, sys)[SlotOfField(i)..])
    ensures ValueOf('a', Args(v, sys)[SlotOfField(i)..]) == FieldValue(v, sys, i)
  {
    var args := Args(v, sys)[SlotOfField(i)..];
    assert args[0] == ArgAt(v, sys, SlotOfField(i)) && args[1] == ArgAt(v, sys, SlotOfField(i) + 1);
    ArrayValue(args, if i == F_CMDLINE then v.cmdline.value else v.environ.value);
  }

  lemma StoredScalar(v: View, sys: System, letter: char, i: nat)
    requires i < N_FIELDS && |FIELD_NAMES| == N_FIELDS && !IsArrayField(i)
    requires if IsTextField(i) then letter == 's' else letter in "iljp"
    requires FitsLetter(letter, Args(v, sys)[SlotOfField(i)..])
    ensures Known(letter) && ValueOf(letter, Args(v, sys)[SlotOfField(i)..]) == FieldValue(v, sys, i)
  {
    var args, arg := Args(v, sys)[SlotOfField(i)..], ArgAt(v, sys, SlotOfField(i));
    ArgKinds(v, sys, i);
    assert args[0] == arg;
    if IsTextField(i) {
      TextValue(args, arg.bytes);
    } else {
      NumberValue(letter, args, arg.n);
    }
  }

  /** What `bless_into_proc` may rely on when it is called for a process. */
  lemma CallFits(p: Proc, sys: System, i: nat)
    requires i < N_FIELDS
    ensures var format := FormatWith(Fields(p, sys));
            && |FIELD_NAMES| == |format| == N_FIELDS && Fits(format, Args(ViewOf(p), sys))
            && Backs(ViewOf(p), Fields(p, sys)) && (forall j | 0 <= j < N_FIELDS :: Known(format[j]))
            && SlotOf(format, i) == SlotOfField(i)
  {
    var on := Fields(p, sys);
    DefaultLetter(0);
    FieldsBacked(p, sys);
    RecordFits(ViewOf(p), sys, on);
    FormatShaped(on);
    FormatKnown(on);
    ShapedSlots(FormatWith(on), i);
  }

  /** Every field of every record holds its own value if its reader found it, and undef if not. */
  lemma FieldOf(p: Proc, sys: System, i: nat)
    requires i < N_FIELDS
    ensures |FIELD_NAMES| == N_FIELDS && Record(p, sys).Some?
    ensures FIELD_NAMES[i] in Record(p, sys).value
    ensures Record(p, sys).value[FIELD_NAMES[i]] ==
            if i in Fields(p, sys) then FieldValue(ViewOf(p), sys, i) else Undef
  {
    var on := Fields(p, sys);
    CallFits(p, sys, i);
    NamesApart(i);
    LastWriter(FormatWith(on), FIELD_NAMES, Args(ViewOf(p), sys), sys.ttydevs, map[], i, FIELD_NAMES[i]);
    StoredValue(ViewOf(p), sys, on, i);
  }

  /** Only the terminal's number, switched on, writes a key that is no field's name. */
  lemma OnlyTtyNum(on: set<nat>, k: seq<char>)
    requires forall i | 0 <= i < |FIELD_NAMES| :: FIELD_NAMES[i] != k
    ensures |FormatWith(on)| == |FIELD_NAMES| == N_FIELDS
    ensures forall j | 0 <= j < N_FIELDS ::
              Writes(FormatWith(on)[j], FIELD_NAMES[j], k) <==> j == F_TTYNUM && k == "ttydev" && F_TTYNUM in on
  {
    DefaultLetter(0);
    forall j | 0 <= j < N_FIELDS
      ensures Writes(FormatWith(on)[j], FIELD_NAMES[j], k) <==> j == F_TTYNUM && k == "ttydev" && F_TTYNUM in on
    {
      NamesApart(j);
      FieldLetter(on, j);
      TtyNumLetter(on);
    }
  }

  lemma TtyNumLetter(on: set<nat>)
    ensures |FormatWith(on)| == N_FIELDS && FormatWith(on)[F_TTYNUM] == if F_TTYNUM in on then 'i' else 'I'
  {
    DefaultLetter(F_TTYNUM);
    assert DEFAULT_FORMAT[F_TTYNUM] == 'I';
  }

  /**
    The one key beside the fields, the terminal's name, is there exactly when the
    terminal's number is switched on: the name listed for that number, "" when
    there is none.
   */
  lemma TtyDevOf(p: Proc, sys: System)
    ensures Record(p, sys).Some?
    ensures "ttydev" in Record(p, sys).value <==> F_TTYNUM in Fields(p, sys)
    ensures F_TTYNUM in Fields(p, sys) ==>
              var number := Decimal(StatNum(StatOf(p), 3) % 0x1_0000_0000_0000_0000);
              Record(p, sys).value["ttydev"] ==
              Text(if sys.ttydevs.Some? && number in sys.ttydevs.value then sys.ttydevs.value[number] else "")
  {
    CallFits(p, sys, F_TTYNUM);
    RecordExists(p, sys);
    TtyFrom(ViewOf(p), sys, Fields(p, sys));
  }

  lemma TtyFrom(v: View, sys: System, on: set<nat>)
    requires |FIELD_NAMES| == |FormatWith(on)| == N_FIELDS && Fits(FormatWith(on), Args(v, sys))
    requires (forall j | 0 <= j < N_FIELDS :: Known(FormatWith(on)[j])) && SlotOf(FormatWith(on), F_TTYNUM) == F_TTYNUM
    requires BlessFrom(FormatWith(on), FIELD_NAMES, Args(v, sys), sys.ttydevs, map[]).Some?
    ensures var h := BlessFrom(FormatWith(on), FIELD_NAMES, Args(v, sys), sys.ttydevs, map[]).value;
            && ("ttydev" in h <==> F_TTYNUM in on)
            && (F_TTYNUM in on ==> h["ttydev"] == Text(TtyName(sys.ttydevs, StatNum(v.stat, 3))))
  {
    var format, args := FormatWith(on), Args(v, sys);
    forall i | 0 <= i < |FIELD_NAMES| ensures FIELD_NAMES[i] != "ttydev" {
      NamesApart(i);
    }
    OnlyTtyNum(on, "ttydev");
    if F_TTYNUM in on {
      LastWriter(format, FIELD_NAMES, args, sys.ttydevs, map[], F_TTYNUM, "ttydev");
      TtyWritten(v, sys, on);
    } else {
      Untouched(format, FIELD_NAMES, args, sys.ttydevs, map[], "ttydev");
    }
  }

  lemma TtyWritten(v: View, sys: System, on: set<nat>)
    requires F_TTYNUM in on && |FormatWith(on)| == N_FIELDS && |FIELD_NAMES| == N_FIELDS
    requires Known(FormatWith(on)[F_TTYNUM]) && FitsLetter(FormatWith(on)[F_TTYNUM], Args(v, sys)[F_TTYNUM..])
    ensures Written(FormatWith(on)[F_TTYNUM], "ttydev", FIELD_NAMES[F_TTYNUM], Args(v, sys)[F_TTYNUM..], sys.ttydevs) ==
            Text(TtyName(sys.ttydevs, StatNum(v.stat, 3)))
  {
    TtyNumLetter(on);
    NamesApart(F_TTYNUM);
    assert Args(v, sys)[F_TTYNUM..][0] == ArgAt(v, sys, F_TTYNUM) == Num(StatNum(v.stat, 3));
  }

  /** And no other key is there. */
  lemma KeysOf(p: Proc, sys: System, k: seq<char>)
    requires forall i | 0 <= i < |FIELD_NAMES| :: FIELD_NAMES[i] != k
    requires k != "ttydev"
    ensures Record(p, sys).Some? && k !in Record(p, sys).value
  {
    CallFits(p, sys, 0);
    OnlyTtyNum(Fields(p, sys), k);
    RecordExists(p, sys);
    Untouched(FormatWith(Fields(p, sys)), FIELD_NAMES, Args(ViewOf(p), sys), sys.ttydevs, map[], k);
  }

  /**
    In every record whose two readings of the command line found the same bytes,
    however they were cut up, the array "cmdline" joined with single spaces is
    the string "cmndline".
   */
  lemma RecordViewsAgree(p: Proc, sys: System)
    requires Readable(p.cmdline) && Readable(p.cmndline) && Content(p.cmndline) == Content(p.cmdline)
    ensures Record(p, sys).Some?
    ensures var h := Record(p, sys).value;
            && "cmdline" in h && h["cmdline"].List?
            && "cmndline" in h && h["cmndline"] == Text(Join(h["cmdline"].items))
  {
    CmndlineOf(p, sys);
    CmdlineOf(p, sys);
    SameString(Content(p.cmdline));
  }

  lemma CmndlineOf(p: Proc, sys: System)
    requires Readable(p.cmndline)
    ensures Record(p, sys).Some? && "cmndline" in Record(p, sys).value
    ensures Record(p, sys).value["cmndline"] == Text(CString(CString(Spaced(Content(p.cmndline))) + [NUL]))
  {
    assert FIELD_NAMES[F_CMNDLINE] == "cmndline";
    FieldOf(p, sys, F_CMNDLINE);
    assert IsOn(SwitchesOf(p, sys), F_CMNDLINE);
    CmndlineValue(ViewOf(p), sys);
  }

  lemma CmdlineOf(p: Proc, sys: System)
    requires Readable(p.cmdline)
    ensures Record(p, sys).Some? && "cmdline" in Record(p, sys).value
    ensures Record(p, sys).value["cmdline"] == ListOf(Content(p.cmdline))
  {
    assert FIELD_NAMES[F_CMDLINE] == "cmdline";
    FieldOf(p, sys, F_CMDLINE);
    assert IsOn(SwitchesOf(p, sys), F_CMDLINE);
  }

  lemma CmndlineValue(v: View, sys: System)
    requires v.cmndline.Some?
    ensures FieldValue(v, sys, F_CMNDLINE) == Text(CString(v.cmndline.value + [NUL]))
  {
  }

  lemma SameString(content: seq<char>)
    ensures CString(CString(Spaced(content)) + [NUL]) == Join(ListOf(content).items)
  {
    TwoViews(content, []);
    assert content + [NUL] + [] == content + [NUL];
    assert Spaced(content) + [NUL] + [] == Spaced(content) + [NUL];
    CStringClosed(Spaced(content));
    CStringIs(CString(Spaced(content)), []);
    assert CString(Spaced(content)) + [NUL] + [] == CString(Spaced(content)) + [NUL];
  }
}
