/** `ColorCodeHTML.format`: the configuration is layered (hard defaults,
    then the resource bundle named by the "syntax" parameter, then every
    String-valued parameter), the body is tokenised and rendered, and the
    result is framed by the substituted start and finish templates. */
module ColorCode {
  import opened Base
  import opened Strings
  import opened Props
  import opened Settings
  import opened Keywords
  import opened Specials
  import opened Engine
  import opened HeaderFooter
  import SyntaxTokenizer

  const LogParam := "log"
  const SyntaxParam := "syntax"

  /** The syntax name used when the call names none. */
  const DefaultSyntaxName := "colorcode"

  /** A value of the call's parameter map. */
  datatype Param = StringParam(s: string) | NullParam | OtherParam

  type Params = map<string, Param>

  /** `(String)params.get(key)`: a missing or null value is `None`, and a
      value of another class raises ClassCastException. */
  function ParamString(params: Params, key: string): (r: Result<Option<string>>)
    ensures r.Failure? <==> key in params && params[key].OtherParam?
    ensures r.Failure? ==> r.error == ClassCast(key)
    ensures r.Success? && r.value.Some? <==> key in params && params[key].StringParam?
    ensures r.Success? && r.value.Some? ==> r.value.value == params[key].s
  {
    if key !in params then Success(None)
    else
      match params[key]
      case StringParam(s) => Success(Some(s))
      case NullParam => Success(None)
      case OtherParam => Failure(ClassCast(key))
  }

  /** The String-valued parameters, as `get_parameters` copies them. */
  function StringParams(params: Params): Properties {
    map k | k in params && params[k].StringParam? :: params[k].s
  }

  /** Reference for the layering: a String parameter wins, then the bundle,
      then the hard default. */
  function Layered(params: Params, bundle: Properties, key: string): Option<string> {
    if key in params && params[key].StringParam? then Some(params[key].s)
    else if key in bundle then Some(bundle[key])
    else Get(DefaultProperties(), key)
  }

  /** `Integer.valueOf` succeeds on a present, non-empty value. */
  predicate ParsesIfSet(o: Option<string>) {
    NonEmpty(o) ==> ParseInt(o.value, 10).Some?
  }

  /** An iteration order of the specials map for each set of names. */
  ghost predicate Enumerator(enumerate: set<string> -> seq<string>) {
    forall names: set<string> ::
      (forall i :: 0 <= i < |enumerate(names)| ==> enumerate(names)[i] in names)
      && (forall n :: n in names ==> n in enumerate(names))
      && (forall i, j :: 0 <= i < j < |enumerate(names)| ==> enumerate(names)[i] != enumerate(names)[j])
  }

  /** The bundle the "syntax" parameter names, empty when there is none or
      it cannot be found (MissingResourceException is caught). */
  function Bundle(syntax: Option<string>, resolve: string -> Option<Properties>): Properties {
    if syntax.Some? && resolve(syntax.value).Some? then resolve(syntax.value).value else map[]
  }

  /** What the bundle and the String parameters set, the parameters
      winning. */
  function Given(params: Params, bundle: Properties): Properties {
    bundle + StringParams(params)
  }

  /** The configuration after the bundle and the parameters, before
      `load_specials`. */
  function Merged(params: Params, bundle: Properties): Properties {
    DefaultProperties() + Given(params, bundle)
  }

  /** The calls `initialise` completes: "log" and "syntax" are Strings or
      absent, `Integer.valueOf` accepts the tab size and the line number the
      bundle or a parameter sets, and no key of the bundle or of the
      parameters lower-cases to the pattern key `load_specials` cannot cut a
      name from. */
  predicate Accepts(params: Params, resolve: string -> Option<Properties>) {
    ParamString(params, LogParam).Success? && ParamString(params, SyntaxParam).Success?
    && var given := Given(params, Bundle(ParamString(params, SyntaxParam).value, resolve));
       ParsesIfSet(Get(given, TabSizeKey)) && ParsesIfSet(Get(given, LineNumberKey))
       && !HasOverlap(given)
  }

  /** The hard defaults "4" and "-1" parse, so the merged tab size and line
      number parse exactly when the ones the bundle or a parameter sets do. */
  lemma MergedParses(params: Params, bundle: Properties)
    ensures ParsesIfSet(Get(Merged(params, bundle), TabSizeKey))
            <==> ParsesIfSet(Get(Given(params, bundle), TabSizeKey))
    ensures ParsesIfSet(Get(Merged(params, bundle), LineNumberKey))
            <==> ParsesIfSet(Get(Given(params, bundle), LineNumberKey))
  {
    DefaultsRead();
    DefaultNumbersParse();
    ParsesOverDefaults(DefaultProperties(), Given(params, bundle), TabSizeKey);
    ParsesOverDefaults(DefaultProperties(), Given(params, bundle), LineNumberKey);
  }

  lemma DefaultNumbersParse()
    ensures ParseInt("4", 10) == Some(4) && ParseInt("-1", 10) == Some(-1)
  {
    assert "-1"[1..] == "1";
  }

  lemma ParsesOverDefaults(defaults: Properties, given: Properties, key: string)
    requires ParsesIfSet(Get(defaults, key))
    ensures ParsesIfSet(Get(defaults + given, key)) <==> ParsesIfSet(Get(given, key))
  {
  }

  /** What `initialise` leaves behind. */
  datatype Setup = Setup(env: Env, syntaxName: string, lineNo: int)

  /** The second half of `initialise`, from the merged configuration and
      the keyword list saved before the parameters were applied. */
  function Configure(props: Properties, snapshot: Option<string>, syntaxName: string,
                     enumerate: set<string> -> seq<string>, matches: (string, string) -> bool): (r: Result<Setup>)
    ensures r.Success? <==> ParsesIfSet(Get(props, TabSizeKey)) && ParsesIfSet(Get(props, LineNumberKey))
                            && LoadSpecials(props).Success?
    ensures !ParsesIfSet(Get(props, TabSizeKey)) ==> r == Failure(NumberFormat(TabSizeKey))
    ensures ParsesIfSet(Get(props, TabSizeKey)) && !ParsesIfSet(Get(props, LineNumberKey))
            ==> r == Failure(NumberFormat(LineNumberKey))
    ensures r.Success? ==> r.value.syntaxName == syntaxName && r.value.env.patterns == LoadSpecials(props).value.patterns
  {
    var ignoreCase := BooleanOf(Get(props, KeywordIgnoreCaseKey));
    var keywords := KeywordSet(snapshot, Get(props, KeywordsKey), ignoreCase);
    var tabs := Get(props, TabSizeKey);
    var lines := Get(props, LineNumberKey);
    if !ParsesIfSet(tabs) then Failure(NumberFormat(TabSizeKey))
    else if !ParsesIfSet(lines) then Failure(NumberFormat(LineNumberKey))
    else
    var tabSize := if NonEmpty(tabs) then ParseInt(tabs.value, 10).value else 4;
    var lineNo := if NonEmpty(lines) then ParseInt(lines.value, 10).value else -1;
    match LoadSpecials(props)
    case Failure(e) => Failure(e)
    case Success(loaded) =>
      var env := Env(loaded.props, keywords, ignoreCase, loaded.patterns,
                     enumerate(loaded.patterns.Keys), matches, tabSize);
      Success(Setup(env, syntaxName, lineNo))
  }

  /** `initialise(params)`. */
  function Initialise(params: Params, resolve: string -> Option<Properties>,
                      enumerate: set<string> -> seq<string>, matches: (string, string) -> bool): (r: Result<Setup>)
  {
    match ParamString(params, LogParam)
    case Failure(e) => Failure(e)
    case Success(_) =>
      match ParamString(params, SyntaxParam)
      case Failure(e) => Failure(e)
      case Success(syntax) =>
        var bundle := Bundle(syntax, resolve);
        Configure(Merged(params, bundle), Get(DefaultProperties() + bundle, KeywordsKey),
                  syntax.GetOr(DefaultSyntaxName), enumerate, matches)
  }

  /** `format(body, params)`. The tokenizer's scanning is the parameter
      `scan`, from the trimmed body and the character-class operations of
      the `SyntaxTokenizer` constructor to the token stream. */
  function Format(body: Option<string>, params: Params, resolve: string -> Option<Properties>,
                  enumerate: set<string> -> seq<string>, matches: (string, string) -> bool,
                  scan: (string, seq<SyntaxTokenizer.Op>) -> seq<Token>): (r: Result<string>)
    ensures body.None? ==> r == Success("")
  {
    if body.None? then Success("")
    else
      match Initialise(params, resolve, enumerate, matches)
      case Failure(e) => Failure(e)
      case Success(setup) =>
        var p := setup.env.props;
        match SyntaxTokenizer.ConstructorOps(p)
        case Failure(e) => Failure(e)
        case Success(ops) =>
          var toks := scan(Trim(body.value), ops);
          match Html(p, Body(setup.env, toks, setup.lineNo))
          case Failure(e) => Failure(e)
          case Success(code) =>
            Success(Substitute(Get(p, StartKey), p, setup.syntaxName) + code
                    + Substitute(Get(p, FinishKey), p, setup.syntaxName))
  }

  // ---------------------------------------------------------------------
  // Properties

  /** A "log" parameter that is not a String aborts every call with a body,
      before anything else is looked at; so does a "syntax" parameter that
      is not a String. */
  lemma ParameterClassCast(body: Option<string>, params: Params, resolve: string -> Option<Properties>,
                           enumerate: set<string> -> seq<string>, matches: (string, string) -> bool,
                           scan: (string, seq<SyntaxTokenizer.Op>) -> seq<Token>)
    requires body.Some?
    ensures LogParam in params && params[LogParam].OtherParam? ==>
              Format(body, params, resolve, enumerate, matches, scan) == Failure(ClassCast(LogParam))
    ensures !(LogParam in params && params[LogParam].OtherParam?)
            && SyntaxParam in params && params[SyntaxParam].OtherParam? ==>
              Format(body, params, resolve, enumerate, matches, scan) == Failure(ClassCast(SyntaxParam))
  {
  }

  /** With a body, `format` completes only for parameters `initialise`
      accepts; any other call aborts with the exception `initialise` raised. */
  lemma FormatNeedsAccepts(body: Option<string>, params: Params, resolve: string -> Option<Properties>,
                           enumerate: set<string> -> seq<string>, matches: (string, string) -> bool,
                           scan: (string, seq<SyntaxTokenizer.Op>) -> seq<Token>)
    requires body.Some?
    ensures Format(body, params, resolve, enumerate, matches, scan).Success? ==> Accepts(params, resolve)
    ensures !Accepts(params, resolve) ==>
              Initialise(params, resolve, enumerate, matches).Failure?
              && Format(body, params, resolve, enumerate, matches, scan)
              == Failure(Initialise(params, resolve, enumerate, matches).error)
  {
    InitialiseAccepts(params, resolve, enumerate, matches);
    if !Accepts(params, resolve) {
      var init := Initialise(params, resolve, enumerate, matches);
      assert init.Failure?;
      assert Format(body, params, resolve, enumerate, matches, scan) == Failure(init.error);
    }
  }

  /** A tab size that `Integer.valueOf` rejects aborts a call with a body,
      once the casts have passed and before any special key is looked at. */
  lemma TabSizeNumberFormat(body: Option<string>, params: Params, resolve: string -> Option<Properties>,
                            enumerate: set<string> -> seq<string>, matches: (string, string) -> bool,
                            scan: (string, seq<SyntaxTokenizer.Op>) -> seq<Token>)
    requires body.Some?
    requires ParamString(params, LogParam).Success? && ParamString(params, SyntaxParam).Success?
    requires !ParsesIfSet(Get(Given(params, Bundle(ParamString(params, SyntaxParam).value, resolve)), TabSizeKey))
    ensures Format(body, params, resolve, enumerate, matches, scan) == Failure(NumberFormat(TabSizeKey))
  {
    MergedParses(params, Bundle(ParamString(params, SyntaxParam).value, resolve));
  }

  /** `initialise` fails exactly when a parameter cast fails or a key of
      the bundle or of the parameters makes `load_specials` throw: no
      default key ever does. */
  lemma InitialiseAccepts(params: Params, resolve: string -> Option<Properties>,
                          enumerate: set<string> -> seq<string>, matches: (string, string) -> bool)
    ensures Initialise(params, resolve, enumerate, matches).Success? <==> Accepts(params, resolve)
  {
    if ParamString(params, LogParam).Success? && ParamString(params, SyntaxParam).Success? {
      var bundle := Bundle(ParamString(params, SyntaxParam).value, resolve);
      MergedParses(params, bundle);
      LoadSpecialsOverlap(Merged(params, bundle));
      MergedOverlap(params, bundle);
    }
  }

  lemma MergedOverlap(params: Params, bundle: Properties)
    ensures HasOverlap(Merged(params, bundle)) <==> HasOverlap(Given(params, bundle))
  {
    var given := Given(params, bundle);
    if HasOverlap(Merged(params, bundle)) {
      var k :| k in Merged(params, bundle) && Overlaps(Lower(k));
      DefaultsNotSpecial();
      assert k in given;
    }
    if HasOverlap(given) {
      var k :| k in given && Overlaps(Lower(k));
      assert k in Merged(params, bundle);
    }
  }

  /** Each key outside the special family reads as its layered value: a
      String parameter over the bundle over the hard default. A null or
      non-String parameter does not hide the layers below it. */
  lemma ConfigurationLayers(params: Params, resolve: string -> Option<Properties>,
                            enumerate: set<string> -> seq<string>, matches: (string, string) -> bool, key: string)
    requires Accepts(params, resolve)
    requires !(SpecialPrefix <= key)
    ensures Initialise(params, resolve, enumerate, matches).Success?
    ensures Get(Initialise(params, resolve, enumerate, matches).value.env.props, key)
            == Layered(params, Bundle(ParamString(params, SyntaxParam).value, resolve), key)
  {
    InitialiseAccepts(params, resolve, enumerate, matches);
    var bundle := Bundle(ParamString(params, SyntaxParam).value, resolve);
    LoadSpecialsOutsideFamily(Merged(params, bundle), key);
    MergedLayers(DefaultProperties(), params, bundle, key);
  }

  lemma MergedLayers(defaults: Properties, params: Params, bundle: Properties, key: string)
    ensures Get(defaults + Given(params, bundle), key)
            == if key in params && params[key].StringParam? then Some(params[key].s)
               else if key in bundle then Some(bundle[key])
               else Get(defaults, key)
  {
  }

  /** `set_keywords` runs after the parameters but also reads the keyword
      list saved before them: a non-empty word the bundle lists stays a
      keyword, in either case mode, even when a parameter replaces the
      list. */
  lemma BundleKeywordsSurvive(params: Params, resolve: string -> Option<Properties>,
                              enumerate: set<string> -> seq<string>, matches: (string, string) -> bool, word: string)
    requires Accepts(params, resolve)
    requires word != ""
    ensures Initialise(params, resolve, enumerate, matches).Success?
    ensures var env := Initialise(params, resolve, enumerate, matches).value.env;
            Listed(Get(Bundle(ParamString(params, SyntaxParam).value, resolve), KeywordsKey), word)
            ==> IsKeyword(env.keywords, env.ignoreCase, word)
  {
    InitialiseAccepts(params, resolve, enumerate, matches);
    var syntax := ParamString(params, SyntaxParam).value;
    var bundle := Bundle(syntax, resolve);
    var snapshot := Get(DefaultProperties() + bundle, KeywordsKey);
    DefaultsRead();
    assert snapshot == Get(bundle, KeywordsKey);
    MergedParses(params, bundle);
    if Listed(snapshot, word) {
      ConfigureKeepsSnapshot(Merged(params, bundle), snapshot, syntax.GetOr(DefaultSyntaxName), enumerate, matches, word);
    }
  }

  /** Tabs are four wide and numbering is off (-1) when their key is
      missing or empty; a key holding the decimal text of a 32-bit number
      sets exactly that number. */
  lemma ConfigureNumbers(props: Properties, snapshot: Option<string>, syntaxName: string,
                         enumerate: set<string> -> seq<string>, matches: (string, string) -> bool, n: int)
    requires Configure(props, snapshot, syntaxName, enumerate, matches).Success?
    requires MinInt32 <= n <= MaxInt32
    ensures var s := Configure(props, snapshot, syntaxName, enumerate, matches).value;
            && (!NonEmpty(Get(props, TabSizeKey)) ==> s.env.tabSize == 4)
            && (!NonEmpty(Get(props, LineNumberKey)) ==> s.lineNo == -1)
            && (Get(props, TabSizeKey) == Some(IntToString(n)) ==> s.env.tabSize == n)
            && (Get(props, LineNumberKey) == Some(IntToString(n)) ==> s.lineNo == n)
  {
    IntToStringParses(n);
  }

  /** With case-sensitive keywords, a non-empty word is a keyword of the
      configured environment exactly when it is a field of the saved list
      or of the final list. */
  lemma ConfigureKeywords(props: Properties, snapshot: Option<string>, syntaxName: string,
                          enumerate: set<string> -> seq<string>, matches: (string, string) -> bool, word: string)
    requires Configure(props, snapshot, syntaxName, enumerate, matches).Success?
    requires word != ""
    ensures var env := Configure(props, snapshot, syntaxName, enumerate, matches).value.env;
            !env.ignoreCase ==>
              (IsKeyword(env.keywords, env.ignoreCase, word)
               <==> Listed(snapshot, word) || Listed(Get(props, KeywordsKey), word))
  {
    KeywordIffListed(snapshot, Get(props, KeywordsKey), word);
  }

  /** With case-insensitive keywords, a non-empty word is a keyword of the
      configured environment exactly when a field of either list equals it
      ignoring case. */
  lemma ConfigureKeywordsIgnoringCase(props: Properties, snapshot: Option<string>, syntaxName: string,
                                      enumerate: set<string> -> seq<string>, matches: (string, string) -> bool, word: string)
    requires Configure(props, snapshot, syntaxName, enumerate, matches).Success?
    requires word != ""
    ensures var env := Configure(props, snapshot, syntaxName, enumerate, matches).value.env;
            env.ignoreCase ==>
              (IsKeyword(env.keywords, env.ignoreCase, word)
               <==> ListedIgnoringCase(snapshot, word) || ListedIgnoringCase(Get(props, KeywordsKey), word))
  {
    KeywordIffListedIgnoringCase(snapshot, Get(props, KeywordsKey), word);
  }

  /** A non-empty word of the saved keyword list is a keyword of the
      configured environment, whichever case mode it ends up in. */
  lemma ConfigureKeepsSnapshot(props: Properties, snapshot: Option<string>, syntaxName: string,
                               enumerate: set<string> -> seq<string>, matches: (string, string) -> bool, word: string)
    requires Configure(props, snapshot, syntaxName, enumerate, matches).Success?
    requires word != "" && Listed(snapshot, word)
    ensures var env := Configure(props, snapshot, syntaxName, enumerate, matches).value.env;
            IsKeyword(env.keywords, env.ignoreCase, word)
  {
    EntriesListedIgnoringCase(snapshot, word);
    EntriesListed(snapshot, word);
  }

  /** The ignore-case flag `process_token` reads after `load_specials` is
      the one the keyword set was built with. */
  lemma IgnoreCaseStable(props: Properties, snapshot: Option<string>, syntaxName: string,
                         enumerate: set<string> -> seq<string>, matches: (string, string) -> bool)
    requires Configure(props, snapshot, syntaxName, enumerate, matches).Success?
    ensures var env := Configure(props, snapshot, syntaxName, enumerate, matches).value.env;
            BooleanOf(Get(env.props, KeywordIgnoreCaseKey)) == env.ignoreCase
  {
    assert KeywordIgnoreCaseKey[10] != SpecialPrefix[10];
    LoadSpecialsOutsideFamily(props, KeywordIgnoreCaseKey);
  }

  /** No key of the hard defaults belongs to the special family, in any
      letter case. */
  lemma DefaultsNotSpecial()
    ensures forall k :: k in DefaultProperties() ==> !(SpecialPrefix <= Lower(k))
  {
    forall k | k in DefaultProperties()
      ensures !(SpecialPrefix <= Lower(k))
    {
      PlainKey(k);
    }
  }

  lemma PlainKey(k: string)
    requires |k| < |SpecialPrefix| || LowerChar(k[10]) != 's' || LowerChar(k[11]) != 'p'
    ensures !(SpecialPrefix <= Lower(k))
  {
    if |k| >= |SpecialPrefix| {
      assert Lower(k)[10] == LowerChar(k[10]) && Lower(k)[11] == LowerChar(k[11]);
      assert SpecialPrefix[10] == 's' && SpecialPrefix[11] == 'p';
    }
  }

  /** A configuration with tabs of four, numbering off, no keyword list
      and no special key sets up exactly that. */
  lemma ConfigurePlain(props: Properties, syntaxName: string,
                       enumerate: set<string> -> seq<string>, matches: (string, string) -> bool)
    requires Get(props, TabSizeKey) == Some("4") && Get(props, LineNumberKey) == Some("-1")
    requires Get(props, KeywordsKey) == None
    requires forall k :: k in props ==> !(SpecialPrefix <= Lower(k))
    ensures ParsesIfSet(Get(props, TabSizeKey)) && ParsesIfSet(Get(props, LineNumberKey))
    ensures var r := Configure(props, None, syntaxName, enumerate, matches);
            r.Success? && r.value.lineNo == -1 && r.value.env.tabSize == 4
            && r.value.env.keywords == {} && r.value.env.patterns == map[]
  {
    assert ParseInt("4", 10) == Some(4);
    assert ParseInt("-1", 10) == Some(-1);
    LoadSpecialsPlain(props);
  }

  /** Without parameters the formatter runs on the hard defaults: syntax
      name "colorcode", tabs of four, numbering off, no keyword and no
      special. */
  lemma NoParameters(resolve: string -> Option<Properties>,
                     enumerate: set<string> -> seq<string>, matches: (string, string) -> bool)
    ensures Accepts(map[], resolve)
    ensures var r := Initialise(map[], resolve, enumerate, matches);
            r.Success? && r.value.syntaxName == DefaultSyntaxName && r.value.lineNo == -1
            && r.value.env.tabSize == 4 && r.value.env.keywords == {} && r.value.env.patterns == map[]
  {
    var props := Merged(map[], map[]);
    assert props == DefaultProperties();
    assert DefaultProperties() + map[] == DefaultProperties();
    DefaultsRead();
    DefaultsNotSpecial();
    ConfigurePlain(props, DefaultSyntaxName, enumerate, matches);
  }

  /** Whatever iteration order the specials map has, a word is special or
      not alike; only its class can differ, and only when several patterns
      apply to it. */
  lemma SpecialsAnyOrder(params: Params, resolve: string -> Option<Properties>,
                         e1: set<string> -> seq<string>, e2: set<string> -> seq<string>,
                         matches: (string, string) -> bool, w: string, lineStart: bool)
    requires Accepts(params, resolve)
    requires Enumerator(e1) && Enumerator(e2)
    ensures Initialise(params, resolve, e1, matches).Success? && Initialise(params, resolve, e2, matches).Success?
    ensures var n1 := Initialise(params, resolve, e1, matches).value.env;
            var n2 := Initialise(params, resolve, e2, matches).value.env;
            n1.patterns == n2.patterns
            && (FirstSpecial(n1.order, n1.patterns, matches, w, lineStart).Some?
                <==> FirstSpecial(n2.order, n2.patterns, matches, w, lineStart).Some?)
  {
    InitialiseAccepts(params, resolve, e1, matches);
    InitialiseAccepts(params, resolve, e2, matches);
    var n1 := Initialise(params, resolve, e1, matches).value.env;
    var n2 := Initialise(params, resolve, e2, matches).value.env;
    assert n1.order == e1(n1.patterns.Keys) && n2.order == e2(n1.patterns.Keys);
    SpecialOrderIndependent(n1.order, n2.order, n1.patterns, matches, w, lineStart);
  }
}
