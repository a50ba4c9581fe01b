/** How `SyntaxTokenizer` turns configuration properties into calls on the
    character-class setters of `java.io.StreamTokenizer`. The scanning those
    setters configure belongs to the JDK and is not modelled: the result here
    is the ordered list of setter calls. */
module SyntaxTokenizer {
  import opened Base
  import opened Strings
  import opened Props

  const EolIsSignificantKey := "tokenizer.eolIsSignificant"
  const LowerCaseModeKey := "tokenizer.lowerCaseMode"
  const OrdinaryCharKey := "tokenizer.ordinaryChar"
  const OrdinaryCharsKey := "tokenizer.ordinaryChars"
  const ParseNumbersKey := "tokenizer.parseNumbers"
  const QuoteCharKey := "tokenizer.quoteChar"
  const SlashSlashCommentsKey := "tokenizer.slashSlashComments"
  const SlashStarCommentsKey := "tokenizer.slashStarComments"
  const WhitespaceCharsKey := "tokenizer.whitespaceChars"
  const WordCharKey := "tokenizer.wordChar"
  const WordCharsKey := "tokenizer.wordChars"

  /** One call on a `StreamTokenizer` setter. */
  datatype Op =
    | EolIsSignificant(on: bool)
    | LowerCaseMode(on: bool)
    | OrdinaryChar(c: int)
    | OrdinaryChars(lo: int, hi: int)
    | QuoteChar(c: int)
    | WhitespaceChars(lo: int, hi: int)
    | WordChars(lo: int, hi: int)

  // ---------------------------------------------------------------------
  // Character codes

  /** Length of the radix prefix `Integer.decode` recognises after the sign. */
  function PrefixLength(rest: string): (n: nat)
    ensures n <= |rest|
  {
    if "0x" <= rest || "0X" <= rest then 2
    else if "#" <= rest then 1
    else if "0" <= rest && |rest| > 1 then 1
    else 0
  }

  function Radix(rest: string): nat {
    if "0x" <= rest || "0X" <= rest || "#" <= rest then 16
    else if "0" <= rest && |rest| > 1 then 8
    else 10
  }

  /** `Integer.decode`: an optional sign, then hex after `0x`, `0X` or `#`,
      octal after a leading `0`, decimal otherwise; the signed value must fit
      an `int`. `None` is NumberFormatException, which also covers a second
      sign after the prefix, since a sign is not a digit. */
  function Decode(nm: string): Option<int> {
    if |nm| == 0 then None
    else
      var rest := if nm[0] == '-' || nm[0] == '+' then nm[1..] else nm;
      var radix := Radix(rest);
      var digits := rest[PrefixLength(rest)..];
      if |digits| == 0 || !AllDigits(digits, radix) then None
      else
        var v: int := if nm[0] == '-' then -(DigitsValue(digits, radix) as int) else DigitsValue(digits, radix);
        if MinInt32 <= v <= MaxInt32 then Some(v) else None
  }

  /** `parse_char_code`: `Integer.decode` first; when that fails, the numeric
      value of the first character; a negative result is replaced by the code
      of the first character. An empty string has no first character. */
  function ParseCharCode(code: string): (r: Result<int>)
    ensures r.Failure? <==> |code| == 0
    ensures r.Success? ==> r.value >= 0
    ensures r.Failure? ==> r.error == EmptyCharCode
  {
    if |code| == 0 then Failure(EmptyCharCode)
    else
      var decoded := match Decode(code) case Some(v) => v case None => DigitValue(code[0]);
      Success(if decoded < 0 then code[0] as int else decoded)
  }

  // ---------------------------------------------------------------------
  // initialise

  /** The `eolIsSignificant` call its key issues when it is non-empty. */
  function EolOps(o: Option<string>): (r: seq<Op>)
    ensures |r| <= 1 && (|r| == 1 <==> NonEmpty(o))
    ensures forall i :: 0 <= i < |r| ==> r[i] == EolIsSignificant(BooleanOf(o))
  {
    if NonEmpty(o) then [EolIsSignificant(BooleanOf(o))] else []
  }

  /** The `lowerCaseMode` call a flag key issues when it is non-empty. */
  function LowerCaseOps(o: Option<string>): (r: seq<Op>)
    ensures |r| <= 1 && (|r| == 1 <==> NonEmpty(o))
    ensures forall i :: 0 <= i < |r| ==> r[i] == LowerCaseMode(BooleanOf(o))
  {
    if NonEmpty(o) then [LowerCaseMode(BooleanOf(o))] else []
  }

  /** The four keys after eolIsSignificant, in source order: parseNumbers,
      slashSlashComments and slashStarComments all call `lowerCaseMode`,
      exactly as lowerCaseMode itself does. */
  function LowerCaseFlagOps(cfg: Properties): seq<Op> {
    LowerCaseOps(Get(cfg, LowerCaseModeKey))
    + LowerCaseOps(Get(cfg, ParseNumbersKey))
    + LowerCaseOps(Get(cfg, SlashSlashCommentsKey))
    + LowerCaseOps(Get(cfg, SlashStarCommentsKey))
  }

  /** The five flag keys, in source order. */
  function FlagOps(cfg: Properties): seq<Op> {
    EolOps(Get(cfg, EolIsSignificantKey)) + LowerCaseFlagOps(cfg)
  }

  /** The comma-separated keys. */
  datatype ListKind = OrdinaryList | QuoteList | WordList

  /** The call one list element issues: `ordinaryChar` gets the code
      narrowed to a `char`, `wordChar` becomes the one-character range. */
  function ListOp(kind: ListKind, code: int): (op: Op)
    ensures Rank(op) == ListRank(kind)
  {
    match kind
    case OrdinaryList => OrdinaryChar(code % 0x1_0000)
    case QuoteList => QuoteChar(code)
    case WordList => WordChars(code, code)
  }

  /** One call per element, in input order; an empty element aborts. */
  function ParseEach(codes: seq<string>, kind: ListKind): (r: Result<seq<Op>>)
    ensures r.Failure? <==> exists i :: 0 <= i < |codes| && codes[i] == ""
    ensures r.Failure? ==> r.error == EmptyCharCode
    ensures r.Success? ==> |r.value| == |codes|
    ensures r.Success? ==> forall i :: 0 <= i < |codes| ==> Rank(r.value[i]) == ListRank(kind)
    decreases |codes|
  {
    if |codes| == 0 then Success([])
    else
      match ParseCharCode(codes[0])
      case Failure(e) => Failure(e)
      case Success(c) =>
        match ParseEach(codes[1..], kind)
        case Failure(e) => Failure(e)
        case Success(ops) => Success([ListOp(kind, c)] + ops)
  }

  /** A list value with an empty element, which `parse_char_code` rejects. */
  predicate ListMalformed(o: Option<string>) {
    NonEmpty(o) && exists i :: 0 <= i < |Split(o.value, ',')| && Split(o.value, ',')[i] == ""
  }

  /** One call per comma-separated element, in order; an absent or empty
      value issues none. */
  function ListOps(o: Option<string>, kind: ListKind): (r: Result<seq<Op>>)
    ensures r.Failure? <==> ListMalformed(o)
    ensures r.Failure? ==> r.error == EmptyCharCode
    ensures r.Success? ==> |r.value| == (if NonEmpty(o) then |Split(o.value, ',')| else 0)
    ensures r.Success? ==> forall i :: 0 <= i < |r.value| ==> Rank(r.value[i]) == ListRank(kind)
  {
    if NonEmpty(o) then ParseEach(Split(o.value, ','), kind) else Success([])
  }

  /** Element `i` of the list issues the call for the code it decodes to. */
  lemma ListOpsCodes(o: Option<string>, kind: ListKind)
    requires ListOps(o, kind).Success? && NonEmpty(o)
    ensures forall i :: 0 <= i < |ListOps(o, kind).value| ==>
              ListOps(o, kind).value[i] == ListOp(kind, ParseCharCode(Split(o.value, ',')[i]).value)
  {
    ParseEachCodes(Split(o.value, ','), kind);
  }

  /** Element `i` of a parsed list is the call for `codes[i]`. */
  lemma {:induction false} ParseEachCodes(codes: seq<string>, kind: ListKind)
    requires ParseEach(codes, kind).Success?
    ensures forall i :: 0 <= i < |codes| ==>
              ParseEach(codes, kind).value[i] == ListOp(kind, ParseCharCode(codes[i]).value)
    decreases |codes|
  {
    if |codes| > 0 {
      ParseEachCodes(codes[1..], kind);
      var r := ParseEach(codes, kind).value;
      forall i | 0 <= i < |codes|
        ensures r[i] == ListOp(kind, ParseCharCode(codes[i]).value)
      {
        if i > 0 {
          assert r[i] == ParseEach(codes[1..], kind).value[i - 1];
          assert codes[1..][i - 1] == codes[i];
        }
      }
    }
  }

  /** The `lo-hi` keys. */
  datatype RangeKind = OrdinaryRange | WhitespaceRange | WordRange

  function RangeOp(kind: RangeKind, lo: int, hi: int): (op: Op)
    ensures Rank(op) == RangeRank(kind)
    ensures op.OrdinaryChars? || op.WhitespaceChars? || op.WordChars?
    ensures op.lo == lo && op.hi == hi
  {
    match kind
    case OrdinaryRange => OrdinaryChars(lo, hi)
    case WhitespaceRange => WhitespaceChars(lo, hi)
    case WordRange => WordChars(lo, hi)
  }

  /** A range value of two parts, the first of them empty, as in "-5". */
  predicate RangeMalformed(o: Option<string>) {
    NonEmpty(o) && |Split(o.value, '-')| == 2 && Split(o.value, '-')[0] == ""
  }

  /** A range issues a call only when splitting on `-` gives exactly two
      parts; an empty first part (as in "-5") aborts. The second part cannot
      be empty: the split drops trailing empty fields. */
  function RangeOps(o: Option<string>, kind: RangeKind): (r: Result<seq<Op>>)
    ensures r.Failure? <==> RangeMalformed(o)
    ensures r.Failure? ==> r.error == EmptyCharCode
    ensures r.Success? ==> |r.value| <= 1
    ensures r.Success? && |r.value| == 1 ==>
              && (r.value[0].OrdinaryChars? || r.value[0].WhitespaceChars? || r.value[0].WordChars?)
              && r.value[0].lo >= 0 && r.value[0].hi >= 0
  {
    if !NonEmpty(o) then Success([])
    else
      var parts := Split(o.value, '-');
      if |parts| != 2 then Success([])
      else
        // the last part of a split is never empty, so only `lo` can fail
        var lo := ParseCharCode(parts[0]);
        if lo.Failure? then Failure(lo.error)
        else Success([RangeOp(kind, lo.value, ParseCharCode(parts[1]).value)])
  }

  /** `initialise(configuration)`: the setter calls, key by key in source
      order; the first failing key aborts the constructor. */
  function Initialise(cfg: Properties): (r: Result<seq<Op>>)
    ensures r.Failure? <==>
              || ListMalformed(Get(cfg, OrdinaryCharKey)) || RangeMalformed(Get(cfg, OrdinaryCharsKey))
              || ListMalformed(Get(cfg, QuoteCharKey)) || RangeMalformed(Get(cfg, WhitespaceCharsKey))
              || ListMalformed(Get(cfg, WordCharKey)) || RangeMalformed(Get(cfg, WordCharsKey))
    ensures r.Failure? ==> r.error == EmptyCharCode
  {
    var ordinary := ListOps(Get(cfg, OrdinaryCharKey), OrdinaryList);
    var ordinaryRange := RangeOps(Get(cfg, OrdinaryCharsKey), OrdinaryRange);
    var quotes := ListOps(Get(cfg, QuoteCharKey), QuoteList);
    var whitespace := RangeOps(Get(cfg, WhitespaceCharsKey), WhitespaceRange);
    var words := ListOps(Get(cfg, WordCharKey), WordList);
    var wordRange := RangeOps(Get(cfg, WordCharsKey), WordRange);
    if ordinary.Failure? then Failure(ordinary.error)
    else if ordinaryRange.Failure? then Failure(ordinaryRange.error)
    else if quotes.Failure? then Failure(quotes.error)
    else if whitespace.Failure? then Failure(whitespace.error)
    else if words.Failure? then Failure(words.error)
    else if wordRange.Failure? then Failure(wordRange.error)
    else Success(FlagOps(cfg) + ordinary.value + ordinaryRange.value + quotes.value
                 + whitespace.value + words.value + wordRange.value)
  }

  /** `get_defaults()`. */
  function Defaults(): Properties {
    map[EolIsSignificantKey := "true",
        LowerCaseModeKey := "false",
        OrdinaryCharKey := "_,0x20",
        ParseNumbersKey := "true",
        QuoteCharKey := "',\"",
        SlashSlashCommentsKey := "false",
        SlashStarCommentsKey := "false",
        WordCharsKey := "65-122"]
  }

  /** `new SyntaxTokenizer(reader, configuration)`: the defaults pass, then
      the configuration pass. */
  function ConstructorOps(cfg: Properties): Result<seq<Op>> {
    match Initialise(Defaults())
    case Failure(e) => Failure(e)
    case Success(defaults) =>
      match Initialise(cfg)
      case Failure(e) => Failure(e)
      case Success(configured) => Success(defaults + configured)
  }

  // ---------------------------------------------------------------------
  // Properties of the decoding

  /** `Integer.decode` wins for decimal text: a non-negative `int` written
      in decimal decodes to itself. */
  lemma DecimalCodeRoundTrip(n: int)
    requires 0 <= n <= MaxInt32
    ensures ParseCharCode(IntToString(n)) == Success(n)
  {
    var s := IntToString(n);
    NatToStringValue(n);
    assert s[0] != '-' && s[0] != '+' by {
      assert 0 <= DigitValue(s[0]);
    }
    assert Radix(s) == 10 && PrefixLength(s) == 0 by {
      if "0" <= s {
        assert n == 0;
      }
    }
    assert s[0..] == s;
  }

  /** A one-character code is that character's code only when the character
      is not a digit or letter: digits and letters yield their numeric value,
      so "a" decodes to 10, not 97. */
  lemma {:induction false} SingleCharCode(c: char)
    ensures ParseCharCode([c]) == Success(if DigitValue(c) >= 0 then DigitValue(c) else c as int)
  {
    var s := [c];
    if IsDigit(c) {
      assert Radix(s) == 10 && PrefixLength(s) == 0;
      assert s[0..] == s;
      assert s[..0] == [];
      assert AllDigits(s, 10);
      assert DigitsValue(s, 10) == DigitValue(c);
      assert Decode(s) == Some(DigitValue(c));
    } else if c == '-' || c == '+' {
      assert Decode(s) == None;
    } else {
      assert Decode(s) == None by {
        if c == '#' {
          assert s[1..] == [];
        } else {
          assert Radix(s) == 10 && PrefixLength(s) == 0;
          assert !AllDigits(s, 10) by {
            assert !(0 <= DigitValue(s[0]) < 10);
          }
        }
      }
    }
  }

  /** A decoded negative value gives way to the first character's code, so
      "-5" decodes to 45, the code of '-'. */
  lemma NegativeCodeFallsBack()
    ensures Decode("-5") == Some(-5)
    ensures ParseCharCode("-5") == Success('-' as int)
  {
    var rest := "-5"[1..];
    assert rest == "5";
    assert Radix(rest) == 10 && PrefixLength(rest) == 0;
    assert rest[0..] == "5";
    assert rest[..0] == [];
  }

  /** Lower-case hexadecimal digits of `n`, without leading zeros. */
  function HexDigits(n: nat): (r: string)
    ensures |r| >= 1
    decreases n
  {
    if n < 16 then [HexDigit(n)] else HexDigits(n / 16) + [HexDigit(n % 16)]
  }

  function HexDigit(d: nat): (c: char)
    requires d < 16
    ensures DigitValue(c) == d
  {
    if d < 10 then DigitChar(d) else ('a' as int + d - 10) as char
  }

  lemma {:induction false} HexDigitsValue(n: nat)
    ensures AllDigits(HexDigits(n), 16)
    ensures DigitsValue(HexDigits(n), 16) == n
    decreases n
  {
    var s := HexDigits(n);
    if n >= 16 {
      HexDigitsValue(n / 16);
      assert s[..|s| - 1] == HexDigits(n / 16);
      forall i | 0 <= i < |s|
        ensures 0 <= DigitValue(s[i]) < 16
      {
        if i < |s| - 1 {
          assert s[i] == HexDigits(n / 16)[i];
        }
      }
    }
  }

  /** The `0x` branch of `Integer.decode`: a non-negative `int` written in
      hexadecimal after `0x` decodes to itself. */
  lemma HexCodeRoundTrip(n: int)
    requires 0 <= n <= MaxInt32
    ensures ParseCharCode("0x" + HexDigits(n)) == Success(n)
  {
    var s := "0x" + HexDigits(n);
    HexDigitsValue(n);
    assert "0x" <= s;
    assert Radix(s) == 16 && PrefixLength(s) == 2;
    assert s[2..] == HexDigits(n);
  }

  lemma HexCode()
    ensures ParseCharCode("0x20") == Success(32)
  {
    var rest := "0x20";
    assert "0x" <= rest;
    assert rest[2..] == "20";
    assert "20"[..1] == "2";
    assert "2"[..0] == [];
  }

  lemma DecimalCodes()
    ensures ParseCharCode("65") == Success(65)
    ensures ParseCharCode("122") == Success(122)
  {
    DecimalCodeRoundTrip(65);
    DecimalCodeRoundTrip(122);
    assert IntToString(65) == "65";
    assert IntToString(122) == "122";
  }

  /** "lo-hi" with two non-empty codes issues one range call. */
  lemma RangeTwo(lo: string, hi: string, kind: RangeKind)
    requires lo != "" && hi != "" && '-' !in lo && '-' !in hi
    ensures RangeOps(Some(lo + ['-'] + hi), kind)
            == Success([RangeOp(kind, ParseCharCode(lo).value, ParseCharCode(hi).value)])
  {
    SplitTwo(lo, hi, '-');
  }

  /** A leading dash leaves an empty low code: "-5" aborts rather than
      reading as a negative number. */
  lemma RangeLeadingDash(hi: string, kind: RangeKind)
    requires hi != "" && '-' !in hi
    ensures RangeOps(Some(['-'] + hi), kind) == Failure(EmptyCharCode)
  {
    assert ['-'] + hi == "" + ['-'] + hi;
    SplitTwo("", hi, '-');
  }

  /** A trailing dash is dropped by the split, leaving one part and no call. */
  lemma RangeTrailingDash(lo: string, kind: RangeKind)
    requires lo != "" && '-' !in lo
    ensures RangeOps(Some(lo + ['-']), kind) == Success([])
  {
    var s := lo + ['-'];
    assert s == lo + ['-'] + "";
    FieldsAfterSeparator(lo, "", '-');
    assert Fields(s, '-') == [lo, ""];
    assert |Split(s, '-')| != 2;
  }

  /** A value without a dash is one part, and issues no call. */
  lemma RangeWithoutDash(v: string, kind: RangeKind)
    requires v != "" && '-' !in v
    ensures RangeOps(Some(v), kind) == Success([])
  {
    FieldsWithoutSeparator(v, '-');
  }

  /** A list without a comma issues exactly one call, for the whole value. */
  lemma ListSingle(v: string, kind: ListKind)
    requires v != "" && ',' !in v
    ensures ListOps(Some(v), kind) == Success([ListOp(kind, ParseCharCode(v).value)])
  {
    FieldsWithoutSeparator(v, ',');
    var r := ListOps(Some(v), kind);
    ListOpsCodes(Some(v), kind);
    assert r.value == [r.value[0]];
  }

  /** A leading comma gives an empty first element, which aborts. */
  lemma ListLeadingComma(v: string, kind: ListKind)
    requires v != "" && ',' !in v
    ensures ListOps(Some([','] + v), kind) == Failure(EmptyCharCode)
  {
    assert [','] + v == "" + [','] + v;
    SplitTwo("", v, ',');
    assert Split([','] + v, ',')[0] == "";
  }

  /** The op list of the defaults pass. */
  const DefaultOps: seq<Op> :=
    [EolIsSignificant(true),
     LowerCaseMode(false), LowerCaseMode(true), LowerCaseMode(false), LowerCaseMode(false),
     OrdinaryChar(95), OrdinaryChar(32),
     QuoteChar(39), QuoteChar(34),
     WordChars(65, 122)]

  /** Splits a two-element list, `a` and `b` around one separator. */
  lemma SplitTwo(a: string, b: string, sep: char)
    requires sep !in a && sep !in b && |b| > 0
    ensures Split(a + [sep] + b, sep) == [a, b]
  {
    FieldsAfterSeparator(a, b, sep);
    FieldsWithoutSeparator(b, sep);
  }

  lemma DefaultsLookup()
    ensures Get(Defaults(), EolIsSignificantKey) == Some("true")
    ensures Get(Defaults(), LowerCaseModeKey) == Some("false")
    ensures Get(Defaults(), ParseNumbersKey) == Some("true")
    ensures Get(Defaults(), SlashSlashCommentsKey) == Some("false")
    ensures Get(Defaults(), SlashStarCommentsKey) == Some("false")
    ensures Get(Defaults(), OrdinaryCharKey) == Some("_,0x20")
    ensures Get(Defaults(), QuoteCharKey) == Some("',\"")
    ensures Get(Defaults(), WordCharsKey) == Some("65-122")
    ensures Get(Defaults(), OrdinaryCharsKey) == None
    ensures Get(Defaults(), WhitespaceCharsKey) == None
    ensures Get(Defaults(), WordCharKey) == None
  {
  }

  lemma DefaultFlags()
    ensures FlagOps(Defaults()) == DefaultOps[..5]
  {
    DefaultsLookup();
    assert BooleanOf(Some("true")) by {
      assert Lower("true") == "true";
    }
    assert !BooleanOf(Some("false")) by {
      assert Lower("false")[0] == 'f';
      assert Lower("true")[0] == 't';
    }
  }

  /** A two-element list issues its two calls in order. */
  lemma ParseTwo(a: string, b: string, kind: ListKind)
    requires a != "" && b != ""
    ensures ParseEach([a, b], kind)
            == Success([ListOp(kind, ParseCharCode(a).value), ListOp(kind, ParseCharCode(b).value)])
  {
    var r := ParseEach([a, b], kind);
    assert r.Success?;
    ParseEachCodes([a, b], kind);
    assert r.value == [r.value[0], r.value[1]];
  }

  lemma OrdinaryParse()
    ensures ParseEach(["_", "0x20"], OrdinaryList) == Success([OrdinaryChar(95), OrdinaryChar(32)])
  {
    ParseTwo("_", "0x20", OrdinaryList);
    assert "_" == ['_'];
    SingleCharCode('_');
    HexCode();
  }

  lemma OrdinaryDefault()
    ensures ListOps(Some("_,0x20"), OrdinaryList) == Success([OrdinaryChar(95), OrdinaryChar(32)])
  {
    assert "_,0x20" == "_" + [','] + "0x20";
    SplitTwo("_", "0x20", ',');
    OrdinaryParse();
  }

  lemma QuoteParse()
    ensures ParseEach(["'", "\""], QuoteList) == Success([QuoteChar(39), QuoteChar(34)])
  {
    ParseTwo("'", "\"", QuoteList);
    assert "'" == ['\''] && "\"" == ['"'];
    SingleCharCode('\'');
    SingleCharCode('"');
  }

  lemma QuoteDefault()
    ensures ListOps(Some("',\""), QuoteList) == Success([QuoteChar(39), QuoteChar(34)])
  {
    assert "',\"" == "'" + [','] + "\"";
    SplitTwo("'", "\"", ',');
    QuoteParse();
  }

  lemma WordRangeDefault()
    ensures RangeOps(Some("65-122"), WordRange) == Success([WordChars(65, 122)])
  {
    assert "65-122" == "65" + ['-'] + "122";
    RangeTwo("65", "122", WordRange);
    DecimalCodes();
  }

  /** Any configuration holding the default character-class values decodes
      them to the last five default calls. */
  lemma DefaultClasses(cfg: Properties)
    requires Get(cfg, OrdinaryCharKey) == Some("_,0x20")
    requires Get(cfg, QuoteCharKey) == Some("',\"")
    requires Get(cfg, WordCharsKey) == Some("65-122")
    requires Get(cfg, OrdinaryCharsKey) == None
    requires Get(cfg, WhitespaceCharsKey) == None
    requires Get(cfg, WordCharKey) == None
    ensures Initialise(cfg).Success?
    ensures Initialise(cfg).value
            == FlagOps(cfg) + [OrdinaryChar(95), OrdinaryChar(32)] + [] + [QuoteChar(39), QuoteChar(34)]
               + [] + [] + [WordChars(65, 122)]
  {
    OrdinaryDefault();
    QuoteDefault();
    WordRangeDefault();
  }

  /** The calls the default character-class values issue. */
  const DefaultClassOps: seq<Op> :=
    [OrdinaryChar(95), OrdinaryChar(32)] + [] + [QuoteChar(39), QuoteChar(34)] + [] + [] + [WordChars(65, 122)]

  lemma Regroup(f: seq<Op>, a: seq<Op>, b: seq<Op>, c: seq<Op>)
    ensures f + a + [] + b + [] + [] + c == f + (a + [] + b + [] + [] + c)
  {
  }

  lemma DefaultsInitialise()
    ensures Initialise(Defaults()) == Success(FlagOps(Defaults()) + DefaultClassOps)
  {
    var r := Initialise(Defaults());
    assert r.Success? && r.value == FlagOps(Defaults()) + [OrdinaryChar(95), OrdinaryChar(32)] + []
                                    + [QuoteChar(39), QuoteChar(34)] + [] + [] + [WordChars(65, 122)] by {
      DefaultsLookup();
      DefaultClasses(Defaults());
    }
    Regroup(FlagOps(Defaults()), [OrdinaryChar(95), OrdinaryChar(32)], [QuoteChar(39), QuoteChar(34)],
            [WordChars(65, 122)]);
  }

  lemma DefaultOpsShape()
    ensures DefaultOps == DefaultOps[..5] + DefaultClassOps
  {
  }

  /** The defaults decode as '_' to 95, "0x20" to 32, the two quotes to 39
      and 34, and "65-122" to the word range 65..122, which comes after
      `ordinaryChar('_')` and contains 95. */
  lemma DefaultsDecode()
    ensures Initialise(Defaults()) == Success(DefaultOps)
    ensures DefaultOps[5] == OrdinaryChar('_' as int) && DefaultOps[9] == WordChars(65, 122)
    ensures 65 <= '_' as int <= 122
  {
    DefaultsInitialise();
    DefaultFlags();
    DefaultOpsShape();
  }

  // ---------------------------------------------------------------------
  // Order of the calls

  /** The position of each setter in `initialise`. */
  function Rank(op: Op): nat {
    match op
    case EolIsSignificant(_) => 0
    case LowerCaseMode(_) => 1
    case OrdinaryChar(_) => 2
    case OrdinaryChars(_, _) => 3
    case QuoteChar(_) => 4
    case WhitespaceChars(_, _) => 5
    case WordChars(_, _) => 6
  }

  predicate Ordered(ops: seq<Op>) {
    forall i, j :: 0 <= i < j < |ops| ==> Rank(ops[i]) <= Rank(ops[j])
  }

  predicate RanksWithin(ops: seq<Op>, lo: nat, hi: nat) {
    forall i :: 0 <= i < |ops| ==> lo <= Rank(ops[i]) <= hi
  }

  lemma OrderedAppend(a: seq<Op>, b: seq<Op>, lo: nat, k: nat, hi: nat)
    requires lo <= k <= hi
    requires Ordered(a) && Ordered(b) && RanksWithin(a, lo, k) && RanksWithin(b, k, hi)
    ensures Ordered(a + b) && RanksWithin(a + b, lo, hi)
  {
    forall i | 0 <= i < |a + b|
      ensures lo <= Rank((a + b)[i]) <= hi
    {
      if i < |a| { assert (a + b)[i] == a[i]; } else { assert (a + b)[i] == b[i - |a|]; }
    }
    forall i, j | 0 <= i < j < |a + b|
      ensures Rank((a + b)[i]) <= Rank((a + b)[j])
    {
      if j < |a| {
        assert (a + b)[i] == a[i] && (a + b)[j] == a[j];
      } else if i >= |a| {
        assert (a + b)[i] == b[i - |a|] && (a + b)[j] == b[j - |a|];
      } else {
        assert (a + b)[i] == a[i] && (a + b)[j] == b[j - |a|];
      }
    }
  }

  function ListRank(kind: ListKind): nat {
    match kind
    case OrdinaryList => 2
    case QuoteList => 4
    case WordList => 6
  }

  function RangeRank(kind: RangeKind): nat {
    match kind
    case OrdinaryRange => 3
    case WhitespaceRange => 5
    case WordRange => 6
  }

  lemma ListOpsRank(o: Option<string>, kind: ListKind)
    requires ListOps(o, kind).Success?
    ensures Ordered(ListOps(o, kind).value)
    ensures RanksWithin(ListOps(o, kind).value, ListRank(kind), ListRank(kind))
  {
  }

  lemma RangeOpsRank(o: Option<string>, kind: RangeKind)
    requires RangeOps(o, kind).Success?
    ensures Ordered(RangeOps(o, kind).value)
    ensures RanksWithin(RangeOps(o, kind).value, RangeRank(kind), RangeRank(kind))
  {
  }

  lemma {:induction false} LowerCaseFlagOpsAll(cfg: Properties)
    ensures forall i :: 0 <= i < |LowerCaseFlagOps(cfg)| ==> LowerCaseFlagOps(cfg)[i].LowerCaseMode?
  {
    var l1 := LowerCaseOps(Get(cfg, LowerCaseModeKey));
    var l2 := LowerCaseOps(Get(cfg, ParseNumbersKey));
    var l3 := LowerCaseOps(Get(cfg, SlashSlashCommentsKey));
    var l4 := LowerCaseOps(Get(cfg, SlashStarCommentsKey));
    AllLowerCaseAppend(l1, l2);
    AllLowerCaseAppend(l1 + l2, l3);
    AllLowerCaseAppend(l1 + l2 + l3, l4);
  }

  predicate AllLowerCase(ops: seq<Op>) {
    forall i :: 0 <= i < |ops| ==> ops[i].LowerCaseMode?
  }

  lemma AllLowerCaseAppend(a: seq<Op>, b: seq<Op>)
    requires AllLowerCase(a) && AllLowerCase(b)
    ensures AllLowerCase(a + b)
  {
    forall i | 0 <= i < |a + b|
      ensures (a + b)[i].LowerCaseMode?
    {
      if i < |a| { assert (a + b)[i] == a[i]; } else { assert (a + b)[i] == b[i - |a|]; }
    }
  }

  /** The flag block: the `eolIsSignificant` call, if any, then only
      `lowerCaseMode` calls. */
  lemma FlagOpsShape(cfg: Properties)
    ensures var e := EolOps(Get(cfg, EolIsSignificantKey));
            && FlagOps(cfg)[..|e|] == e
            && forall j :: |e| <= j < |FlagOps(cfg)| ==> FlagOps(cfg)[j].LowerCaseMode?
  {
    var e := EolOps(Get(cfg, EolIsSignificantKey));
    var l := LowerCaseFlagOps(cfg);
    LowerCaseFlagOpsAll(cfg);
    var f: seq<Op> := e + l;
    assert f[..|e|] == e;
    forall j | |e| <= j < |f|
      ensures f[j].LowerCaseMode?
    {
      assert f[j] == l[j - |e|];
    }
  }

  lemma FlagOpsRank(cfg: Properties)
    ensures Ordered(FlagOps(cfg)) && RanksWithin(FlagOps(cfg), 0, 1)
  {
    LowerCaseFlagOpsAll(cfg);
    OrderedAppend(EolOps(Get(cfg, EolIsSignificantKey)), LowerCaseFlagOps(cfg), 0, 1, 1);
  }

  /** The calls of the six character-class setters, in setter order. */
  function ClassOps(cfg: Properties): seq<Op>
    requires Initialise(cfg).Success?
  {
    ListOps(Get(cfg, OrdinaryCharKey), OrdinaryList).value
    + RangeOps(Get(cfg, OrdinaryCharsKey), OrdinaryRange).value
    + ListOps(Get(cfg, QuoteCharKey), QuoteList).value
    + RangeOps(Get(cfg, WhitespaceCharsKey), WhitespaceRange).value
    + ListOps(Get(cfg, WordCharKey), WordList).value
    + RangeOps(Get(cfg, WordCharsKey), WordRange).value
  }

  /** A successful `initialise` is the flag block followed by the calls of
      the character-class setters. */
  lemma InitialiseBlocks(cfg: Properties)
    requires Initialise(cfg).Success?
    ensures Initialise(cfg).value == FlagOps(cfg) + ClassOps(cfg)
  {
    Regroup7(FlagOps(cfg), ListOps(Get(cfg, OrdinaryCharKey), OrdinaryList).value,
             RangeOps(Get(cfg, OrdinaryCharsKey), OrdinaryRange).value,
             ListOps(Get(cfg, QuoteCharKey), QuoteList).value,
             RangeOps(Get(cfg, WhitespaceCharsKey), WhitespaceRange).value,
             ListOps(Get(cfg, WordCharKey), WordList).value,
             RangeOps(Get(cfg, WordCharsKey), WordRange).value);
  }

  lemma ClassOpsOrdered(cfg: Properties)
    requires Initialise(cfg).Success?
    ensures Ordered(ClassOps(cfg)) && RanksWithin(ClassOps(cfg), 2, 6)
  {
    var a := ListOps(Get(cfg, OrdinaryCharKey), OrdinaryList).value;
    var b := RangeOps(Get(cfg, OrdinaryCharsKey), OrdinaryRange).value;
    var c := ListOps(Get(cfg, QuoteCharKey), QuoteList).value;
    var d := RangeOps(Get(cfg, WhitespaceCharsKey), WhitespaceRange).value;
    var e := ListOps(Get(cfg, WordCharKey), WordList).value;
    var g := RangeOps(Get(cfg, WordCharsKey), WordRange).value;
    ListOpsRank(Get(cfg, OrdinaryCharKey), OrdinaryList);
    RangeOpsRank(Get(cfg, OrdinaryCharsKey), OrdinaryRange);
    ListOpsRank(Get(cfg, QuoteCharKey), QuoteList);
    RangeOpsRank(Get(cfg, WhitespaceCharsKey), WhitespaceRange);
    ListOpsRank(Get(cfg, WordCharKey), WordList);
    RangeOpsRank(Get(cfg, WordCharsKey), WordRange);
    BlocksOrdered(a, b, c, d, e, g);
  }

  lemma BlocksOrdered(a: seq<Op>, b: seq<Op>, c: seq<Op>, d: seq<Op>, e: seq<Op>, g: seq<Op>)
    requires Ordered(a) && RanksWithin(a, 2, 2)
    requires Ordered(b) && RanksWithin(b, 3, 3)
    requires Ordered(c) && RanksWithin(c, 4, 4)
    requires Ordered(d) && RanksWithin(d, 5, 5)
    requires Ordered(e) && RanksWithin(e, 6, 6)
    requires Ordered(g) && RanksWithin(g, 6, 6)
    ensures Ordered(a + b + c + d + e + g) && RanksWithin(a + b + c + d + e + g, 2, 6)
  {
    OrderedAppend(a, b, 2, 2, 3);
    OrderedAppend(a + b, c, 2, 3, 4);
    OrderedAppend(a + b + c, d, 2, 4, 5);
    OrderedAppend(a + b + c + d, e, 2, 5, 6);
    OrderedAppend(a + b + c + d + e, g, 2, 6, 6);
  }

  lemma Regroup7(f: seq<Op>, a: seq<Op>, b: seq<Op>, c: seq<Op>, d: seq<Op>, e: seq<Op>, g: seq<Op>)
    ensures f + a + b + c + d + e + g == f + (a + b + c + d + e + g)
  {
  }

  /** `initialise` issues its calls setter by setter, in the order of the
      keys in the source: every call of an earlier setter precedes every call
      of a later one, and the flag calls come first. */
  lemma {:induction false} InitialiseOrdered(cfg: Properties)
    requires Initialise(cfg).Success?
    ensures Ordered(Initialise(cfg).value)
    ensures Initialise(cfg).value[..|FlagOps(cfg)|] == FlagOps(cfg)
    ensures forall i :: |FlagOps(cfg)| <= i < |Initialise(cfg).value| ==> Rank(Initialise(cfg).value[i]) >= 2
  {
    InitialiseBlocks(cfg);
    ClassOpsOrdered(cfg);
    var rest := ClassOps(cfg);
    var f := FlagOps(cfg);
    FlagOpsRank(cfg);
    OrderedAppend(f, rest, 0, 1, 6);
    assert (f + rest)[..|f|] == f;
    forall i | |f| <= i < |f + rest|
      ensures Rank((f + rest)[i]) >= 2
    {
      assert (f + rest)[i] == rest[i - |f|];
    }
  }

  // ---------------------------------------------------------------------
  // Which key reaches which setter

  /** `eolIsSignificant` is called at most once, first, and only by its own
      key, with that key's boolean value. */
  lemma {:induction false} EolOnlyFromItsKey(cfg: Properties)
    requires Initialise(cfg).Success?
    ensures var ops := Initialise(cfg).value;
            var eol := Get(cfg, EolIsSignificantKey);
            && (forall i :: 0 <= i < |ops| && ops[i].EolIsSignificant? ==>
                  i == 0 && NonEmpty(eol) && ops[i].on == BooleanOf(eol))
            && (NonEmpty(eol) ==> ops[0] == EolIsSignificant(BooleanOf(eol)))
  {
    var ops := Initialise(cfg).value;
    var eol := Get(cfg, EolIsSignificantKey);
    var f := FlagOps(cfg);
    InitialiseOrdered(cfg);
    var e := EolOps(eol);
    FlagOpsShape(cfg);
    forall i | 0 <= i < |ops| && ops[i].EolIsSignificant?
      ensures i == 0 && NonEmpty(eol) && ops[i].on == BooleanOf(eol)
    {
      assert Rank(ops[i]) == 0;
      assert ops[i] == f[i];
    }
    if NonEmpty(eol) {
      assert ops[0] == f[0] == e[0];
    }
  }

  /** The lower-case mode a tokenizer is left in after a run of calls,
      starting from `mode`. */
  function LowerCaseAfter(ops: seq<Op>, mode: bool): bool
    decreases |ops|
  {
    if |ops| == 0 then mode
    else LowerCaseAfter(ops[1..], if ops[0].LowerCaseMode? then ops[0].on else mode)
  }

  lemma {:induction false} LowerCaseAfterAppend(a: seq<Op>, b: seq<Op>, mode: bool)
    ensures LowerCaseAfter(a + b, mode) == LowerCaseAfter(b, LowerCaseAfter(a, mode))
    decreases |a|
  {
    if |a| > 0 {
      assert (a + b)[1..] == a[1..] + b;
      LowerCaseAfterAppend(a[1..], b, if a[0].LowerCaseMode? then a[0].on else mode);
    } else {
      assert a + b == b;
    }
  }

  lemma {:induction false} LowerCaseAfterOthers(ops: seq<Op>, mode: bool)
    requires forall i :: 0 <= i < |ops| ==> !ops[i].LowerCaseMode?
    ensures LowerCaseAfter(ops, mode) == mode
    decreases |ops|
  {
    if |ops| > 0 {
      LowerCaseAfterOthers(ops[1..], mode);
    }
  }

  /** The four keys that reach `lowerCaseMode`, in source order. */
  const LowerCaseKeys: seq<string> :=
    [LowerCaseModeKey, ParseNumbersKey, SlashSlashCommentsKey, SlashStarCommentsKey]

  /** Reference reading of the keys: the boolean of the last key in `keys`
      with a non-empty value, or `mode` when there is none. */
  function LastFlag(cfg: Properties, keys: seq<string>, mode: bool): bool
    decreases |keys|
  {
    if |keys| == 0 then mode
    else
      var o := Get(cfg, keys[|keys| - 1]);
      if NonEmpty(o) then BooleanOf(o) else LastFlag(cfg, keys[..|keys| - 1], mode)
  }

  lemma LowerCaseOpsEffect(o: Option<string>, mode: bool)
    ensures LowerCaseAfter(LowerCaseOps(o), mode) == if NonEmpty(o) then BooleanOf(o) else mode
  {
    var l := LowerCaseOps(o);
    if NonEmpty(o) {
      assert l[1..] == [];
      assert LowerCaseAfter(l, mode) == LowerCaseAfter([], BooleanOf(o));
    }
  }

  /** The flag block leaves the lower-case mode of the last of its four
      lower-case keys with a non-empty value. */
  lemma {:induction false} FlagsLowerCase(cfg: Properties, mode: bool)
    ensures LowerCaseAfter(FlagOps(cfg), mode) == LastFlag(cfg, LowerCaseKeys, mode)
  {
    var e := EolOps(Get(cfg, EolIsSignificantKey));
    var l1 := LowerCaseOps(Get(cfg, LowerCaseModeKey));
    var l2 := LowerCaseOps(Get(cfg, ParseNumbersKey));
    var l3 := LowerCaseOps(Get(cfg, SlashSlashCommentsKey));
    var l4 := LowerCaseOps(Get(cfg, SlashStarCommentsKey));
    assert FlagOps(cfg) == e + (((l1 + l2) + l3) + l4);
    LowerCaseAfterAppend(e, ((l1 + l2) + l3) + l4, mode);
    LowerCaseAfterOthers(e, mode);
    LowerCaseAfterAppend((l1 + l2) + l3, l4, mode);
    LowerCaseAfterAppend(l1 + l2, l3, mode);
    LowerCaseAfterAppend(l1, l2, mode);
    LowerCaseOpsEffect(Get(cfg, LowerCaseModeKey), mode);
    var m1 := LowerCaseAfter(l1, mode);
    LowerCaseOpsEffect(Get(cfg, ParseNumbersKey), m1);
    var m2 := LowerCaseAfter(l2, m1);
    LowerCaseOpsEffect(Get(cfg, SlashSlashCommentsKey), m2);
    var m3 := LowerCaseAfter(l3, m2);
    LowerCaseOpsEffect(Get(cfg, SlashStarCommentsKey), m3);
    var k1: seq<string> := [LowerCaseModeKey];
    var k2 := k1 + [ParseNumbersKey];
    var k3 := k2 + [SlashSlashCommentsKey];
    var k4 := k3 + [SlashStarCommentsKey];
    assert k4 == LowerCaseKeys;
    assert k4[..3] == k3 && k3[..2] == k2 && k2[..1] == k1 && k1[..0] == [];
    assert LastFlag(cfg, k1, mode) == m1;
    assert LastFlag(cfg, k2, mode) == m2;
    assert LastFlag(cfg, k3, mode) == m3;
  }

  /** The lower-case mode `initialise` leaves is decided by the last of
      lowerCaseMode, parseNumbers, slashSlashComments and slashStarComments
      that has a non-empty value; the other setters never change it. */
  lemma {:induction false} EffectiveLowerCase(cfg: Properties, mode: bool)
    requires Initialise(cfg).Success?
    ensures LowerCaseAfter(Initialise(cfg).value, mode) == LastFlag(cfg, LowerCaseKeys, mode)
  {
    var f := FlagOps(cfg);
    InitialiseBlocks(cfg);
    ClassOpsOrdered(cfg);
    var rest := ClassOps(cfg);
    forall i | 0 <= i < |rest|
      ensures !rest[i].LowerCaseMode?
    {
      assert Rank(rest[i]) >= 2;
    }
    LowerCaseAfterAppend(f, rest, mode);
    LowerCaseAfterOthers(rest, LowerCaseAfter(f, mode));
    FlagsLowerCase(cfg, mode);
  }

  // ---------------------------------------------------------------------
  // The two-pass constructor

  /** The configuration pass runs after the defaults pass, so the
      constructor issues the default calls and then the configured ones, and
      fails exactly when the configuration does. */
  lemma ConstructorAppends(cfg: Properties)
    ensures ConstructorOps(cfg).Failure? <==> Initialise(cfg).Failure?
    ensures ConstructorOps(cfg).Success? ==> ConstructorOps(cfg).value == DefaultOps + Initialise(cfg).value
  {
    DefaultsDecode();
  }

  /** A configuration without any tokenizer key leaves the defaults alone. */
  lemma DefaultsStand(cfg: Properties)
    requires !NonEmpty(Get(cfg, EolIsSignificantKey)) && !NonEmpty(Get(cfg, LowerCaseModeKey))
    requires !NonEmpty(Get(cfg, ParseNumbersKey)) && !NonEmpty(Get(cfg, SlashSlashCommentsKey))
    requires !NonEmpty(Get(cfg, SlashStarCommentsKey))
    requires !NonEmpty(Get(cfg, OrdinaryCharKey)) && !NonEmpty(Get(cfg, OrdinaryCharsKey))
    requires !NonEmpty(Get(cfg, QuoteCharKey)) && !NonEmpty(Get(cfg, WhitespaceCharsKey))
    requires !NonEmpty(Get(cfg, WordCharKey)) && !NonEmpty(Get(cfg, WordCharsKey))
    ensures ConstructorOps(cfg) == Success(DefaultOps)
  {
    ConstructorAppends(cfg);
    assert Initialise(cfg) == Success([]);
    assert DefaultOps + [] == DefaultOps;
  }

  /** The defaults leave lower-case mode off: the last of their four
      lower-case keys is slashStarComments, "false". */
  lemma DefaultLowerCase(mode: bool)
    ensures LowerCaseAfter(DefaultOps, mode) == false
  {
    DefaultsDecode();
    EffectiveLowerCase(Defaults(), mode);
    DefaultsLookup();
    assert !BooleanOf(Some("false")) by {
      assert Lower("false")[0] == 'f';
      assert Lower("true")[0] == 't';
    }
  }

  /** After construction, lower-case mode is that of the configuration's
      last non-empty lower-case key, and off when it has none. */
  lemma ConstructedLowerCase(cfg: Properties)
    requires Initialise(cfg).Success?
    ensures ConstructorOps(cfg).Success?
    ensures LowerCaseAfter(ConstructorOps(cfg).value, false) == LastFlag(cfg, LowerCaseKeys, false)
  {
    ConstructorAppends(cfg);
    LowerCaseAfterAppend(DefaultOps, Initialise(cfg).value, false);
    DefaultLowerCase(false);
    EffectiveLowerCase(cfg, false);
  }
}
