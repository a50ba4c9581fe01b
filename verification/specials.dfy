/** The "special" token classes: `load_specials` registers every
    `colorcode.special.NAME.pattern` key and backfills the style of each
    name, and `render_special` picks the first qualifying pattern for a word. */
module Specials {
  import opened Base
  import opened Strings
  import opened Props

  const SpecialPrefix := "colorcode.special."
  const PatternSuffix := ".pattern"
  const ColorSuffix := ".font.color"
  const BoldSuffix := ".font.bold"
  const ItalicSuffix := ".font.italic"

  /** The style a special class gets when the configuration gives none. */
  const DefaultSpecialColor := "#8000ff"
  const DefaultSpecialBold := "false"
  const DefaultSpecialItalic := "false"

  // ---------------------------------------------------------------------
  // load_specials

  /** A lower-cased key that starts with the special prefix and ends with
      the pattern suffix. */
  predicate IsPatternKey(lk: string) {
    SpecialPrefix <= lk && EndsWith(lk, PatternSuffix)
  }

  /** A pattern key too short to hold a name: `substring(18, length - 8)`
      has its end before its start and throws. */
  predicate Overlaps(lk: string) {
    IsPatternKey(lk) && |lk| < |SpecialPrefix| + |PatternSuffix|
  }

  /** The only such key is "colorcode.special.pattern", where the dot ending
      the prefix is also the dot starting the suffix. */
  lemma OverlapIsOneKey(lk: string)
    ensures Overlaps(lk) <==> lk == "colorcode.special.pattern"
  {
    if Overlaps(lk) {
      var n := |lk|;
      assert 18 <= n <= 25;
      assert lk[n - 8..] == PatternSuffix;
      assert lk[..18] == SpecialPrefix;
      assert lk[n - 8] == '.' && lk[n - 7] == 'p';
      assert n == 25;
      assert lk == lk[..18] + lk[18..];
      assert lk[18..] == lk[n - 7..];
    } else {
      var key := "colorcode.special.pattern";
      assert key[..18] == SpecialPrefix && key[17..] == PatternSuffix;
      assert Overlaps(key);
    }
  }

  /** The name `load_specials` cuts out of a pattern key. */
  function NameOf(lk: string): (name: string)
    requires IsPatternKey(lk) && !Overlaps(lk)
    ensures lk == SpecialPrefix + name + PatternSuffix
  {
    assert lk == lk[..18] + lk[18..|lk| - 8] + lk[|lk| - 8..];
    lk[18..|lk| - 8]
  }

  function PatternKey(name: string): string {
    SpecialPrefix + name + PatternSuffix
  }

  function StyleKey(name: string, suffix: string): string {
    SpecialPrefix + name + suffix
  }

  /** Some key of `p` lower-cases to the overlapping pattern key. */
  predicate HasOverlap(p: Properties) {
    exists k :: k in p && Overlaps(Lower(k))
  }

  /** The names registered from `p`: one per key that lower-cases to a
      pattern key. */
  function Names(p: Properties): set<string>
    requires !HasOverlap(p)
  {
    set k | k in p && IsPatternKey(Lower(k)) :: NameOf(Lower(k))
  }

  /** The three style keys of each name. */
  function StyleKeys(names: set<string>): set<string> {
    (set n | n in names :: StyleKey(n, ColorSuffix))
    + (set n | n in names :: StyleKey(n, BoldSuffix))
    + (set n | n in names :: StyleKey(n, ItalicSuffix))
  }

  /** The default of a style key, told apart by its suffix. */
  function StyleDefault(k: string): string {
    if EndsWith(k, ColorSuffix) then DefaultSpecialColor
    else if EndsWith(k, BoldSuffix) then DefaultSpecialBold
    else DefaultSpecialItalic
  }

  lemma StyleDefaults(n: string)
    ensures StyleDefault(StyleKey(n, ColorSuffix)) == DefaultSpecialColor
    ensures StyleDefault(StyleKey(n, BoldSuffix)) == DefaultSpecialBold
    ensures StyleDefault(StyleKey(n, ItalicSuffix)) == DefaultSpecialItalic
  {
    var c := StyleKey(n, ColorSuffix);
    var b := StyleKey(n, BoldSuffix);
    var i := StyleKey(n, ItalicSuffix);
    assert c[|c| - 11..] == ColorSuffix;
    assert b[|b| - 10..] == BoldSuffix;
    assert b[|b| - 1] == 'd';
    assert i[|i| - 1] == 'c';
  }

  /** The style keys of the registered names that `p` lacks, each with its
      default. */
  function Backfill(p: Properties, names: set<string>): map<string, string> {
    map k | k in StyleKeys(names) && k !in p :: StyleDefault(k)
  }

  /** What `load_specials` leaves behind: the properties with the backfilled
      styles, and the pattern of each registered name (`None` when the
      pattern key differs from its lower-cased form and so reads as null). */
  datatype Loaded = Loaded(props: Properties, patterns: map<string, Option<string>>)

  /** `load_specials(properties)`. */
  function LoadSpecials(p: Properties): (r: Result<Loaded>)
    ensures r.Failure? <==> exists k :: k in p && Lower(k) == "colorcode.special.pattern"
    ensures r.Failure? ==> r.error == SpecialKeyOverlap
    ensures r.Success? ==> (forall name :: name in r.value.patterns
                              <==> exists k :: k in p && Lower(k) == PatternKey(name))
    ensures r.Success? ==> (forall name :: name in r.value.patterns ==>
                              r.value.patterns[name] == Get(p, PatternKey(name)))
  {
    forall k | k in p
      ensures Overlaps(Lower(k)) <==> Lower(k) == "colorcode.special.pattern"
    {
      OverlapIsOneKey(Lower(k));
    }
    if HasOverlap(p) then Failure(SpecialKeyOverlap)
    else
      var names := Names(p);
      NamesAreKeys(p);
      Success(Loaded(p + Backfill(p, names), map n | n in names :: Get(p, PatternKey(n))))
  }

  /** A configuration with no key of the special family loads no special
      and fails on nothing. */
  lemma LoadSpecialsPlain(p: Properties)
    requires forall k :: k in p ==> !(SpecialPrefix <= Lower(k))
    ensures LoadSpecials(p).Success? && LoadSpecials(p).value.patterns == map[]
  {
    forall k | k in p ensures Lower(k) != "colorcode.special.pattern" {
      assert SpecialPrefix <= "colorcode.special.pattern";
    }
    forall name ensures !exists k :: k in p && Lower(k) == PatternKey(name) {
      assert SpecialPrefix <= PatternKey(name);
    }
  }

  lemma NamesAreKeys(p: Properties)
    requires !HasOverlap(p)
    ensures forall name :: name in Names(p) <==> exists k :: k in p && Lower(k) == PatternKey(name)
  {
    forall name
      ensures name in Names(p) <==> exists k :: k in p && Lower(k) == PatternKey(name)
    {
      if exists k :: k in p && Lower(k) == PatternKey(name) {
        var k :| k in p && Lower(k) == PatternKey(name);
        var lk := PatternKey(name);
        assert SpecialPrefix <= lk;
        assert lk[|lk| - 8..] == PatternSuffix;
        assert NameOf(lk) == name;
      }
    }
  }

  /** The properties after `load_specials`, spelled as the backfill of the
      registered names. */
  lemma LoadedProps(p: Properties)
    requires LoadSpecials(p).Success?
    ensures LoadSpecials(p).value.props == p + Backfill(p, LoadSpecials(p).value.patterns.Keys)
  {
    assert LoadSpecials(p).value.patterns.Keys == Names(p);
  }

  /** `load_specials` fails exactly on a key that lower-cases to the
      overlapping pattern key. */
  lemma LoadSpecialsOverlap(p: Properties)
    ensures LoadSpecials(p).Success? <==> !HasOverlap(p)
  {
  }

  /** Every key of `p` keeps its value: the backfill never overwrites. */
  lemma LoadSpecialsKeeps(p: Properties, k: string)
    requires !HasOverlap(p) && k in p
    ensures LoadSpecials(p).Success? && Get(LoadSpecials(p).value.props, k) == Get(p, k)
  {
    LoadSpecialsOverlap(p);
    LoadedProps(p);
  }

  /** Every key the backfill adds is a style key of a registered name,
      holding that style's default. */
  lemma LoadSpecialsAddsOnlyStyles(p: Properties, k: string)
    requires !HasOverlap(p) && k !in p
    ensures LoadSpecials(p).Success?
    ensures k in LoadSpecials(p).value.props ==>
              exists name :: name in LoadSpecials(p).value.patterns &&
                ((k == StyleKey(name, ColorSuffix) && LoadSpecials(p).value.props[k] == DefaultSpecialColor)
                 || (k == StyleKey(name, BoldSuffix) && LoadSpecials(p).value.props[k] == DefaultSpecialBold)
                 || (k == StyleKey(name, ItalicSuffix) && LoadSpecials(p).value.props[k] == DefaultSpecialItalic))
  {
    LoadSpecialsOverlap(p);
    var l := LoadSpecials(p).value;
    if k in l.props {
      var names := l.patterns.Keys;
      LoadedProps(p);
      var fill := Backfill(p, names);
      assert k in fill && l.props[k] == fill[k];
      BackfillOnlyStyles(p, names, k);
    }
  }

  lemma BackfillOnlyStyles(p: Properties, names: set<string>, k: string)
    requires k in Backfill(p, names)
    ensures exists name :: name in names &&
              ((k == StyleKey(name, ColorSuffix) && Backfill(p, names)[k] == DefaultSpecialColor)
               || (k == StyleKey(name, BoldSuffix) && Backfill(p, names)[k] == DefaultSpecialBold)
               || (k == StyleKey(name, ItalicSuffix) && Backfill(p, names)[k] == DefaultSpecialItalic))
  {
    assert k in StyleKeys(names);
    var n :| n in names && (k == StyleKey(n, ColorSuffix) || k == StyleKey(n, BoldSuffix) || k == StyleKey(n, ItalicSuffix));
    StyleDefaults(n);
  }

  /** Each registered name ends up with all three style keys, its own
      where `p` has them and the defaults where it does not. */
  lemma LoadSpecialsStyled(p: Properties, name: string, suffix: string)
    requires !HasOverlap(p) && name in Names(p)
    requires suffix == ColorSuffix || suffix == BoldSuffix || suffix == ItalicSuffix
    ensures LoadSpecials(p).Success? && name in LoadSpecials(p).value.patterns
    ensures StyleKey(name, suffix) in LoadSpecials(p).value.props
    ensures StyleKey(name, suffix) !in p ==>
              LoadSpecials(p).value.props[StyleKey(name, suffix)] == StyleDefault(StyleKey(name, suffix))
  {
    LoadSpecialsOverlap(p);
    LoadedProps(p);
    assert StyleKey(name, suffix) in StyleKeys(LoadSpecials(p).value.patterns.Keys);
  }

  /** A key outside the special family reads the same after the backfill:
      the ignore-case flag, the glyphs and the other classes' styles are
      untouched. */
  lemma LoadSpecialsOutsideFamily(p: Properties, k: string)
    requires LoadSpecials(p).Success?
    requires !(SpecialPrefix <= k)
    ensures Get(LoadSpecials(p).value.props, k) == Get(p, k)
  {
    LoadedProps(p);
    BackfillInFamily(p, LoadSpecials(p).value.patterns.Keys, k);
  }

  lemma BackfillInFamily(p: Properties, names: set<string>, k: string)
    requires !(SpecialPrefix <= k)
    ensures k !in Backfill(p, names)
  {
    if k in Backfill(p, names) {
      var n :| n in names && k in {StyleKey(n, ColorSuffix), StyleKey(n, BoldSuffix), StyleKey(n, ItalicSuffix)};
    }
  }

  // ---------------------------------------------------------------------
  // render_special

  /** The registered pattern of `name` applies to `value`: it is present and
      non-empty, matches the whole value, and when it starts with `^` the
      value starts a line. */
  predicate Qualifies(patterns: map<string, Option<string>>, matches: (string, string) -> bool,
                      name: string, value: string, lineStart: bool) {
    name in patterns && NonEmpty(patterns[name])
    && matches(value, patterns[name].value)
    && (patterns[name].value[0] == '^' ==> lineStart)
  }

  /** `render_special`: the name whose pattern is first, in the iteration
      order `order` of the specials map, to qualify, if any. */
  function FirstSpecial(order: seq<string>, patterns: map<string, Option<string>>,
                        matches: (string, string) -> bool, value: string, lineStart: bool): (r: Option<string>)
    ensures r.None? <==> forall i :: 0 <= i < |order| ==> !Qualifies(patterns, matches, order[i], value, lineStart)
    ensures r.Some? ==> r.value in order && Qualifies(patterns, matches, r.value, value, lineStart)
    decreases |order|
  {
    if |order| == 0 then None
    else if Qualifies(patterns, matches, order[0], value, lineStart) then Some(order[0])
    else FirstSpecial(order[1..], patterns, matches, value, lineStart)
  }

  /** The name chosen is the one at the first qualifying position. */
  lemma {:induction false} FirstSpecialAt(order: seq<string>, patterns: map<string, Option<string>>,
                                          matches: (string, string) -> bool, value: string, lineStart: bool, i: int)
    requires 0 <= i < |order| && Qualifies(patterns, matches, order[i], value, lineStart)
    requires forall j :: 0 <= j < i ==> !Qualifies(patterns, matches, order[j], value, lineStart)
    ensures FirstSpecial(order, patterns, matches, value, lineStart) == Some(order[i])
    decreases i
  {
    if i > 0 {
      FirstSpecialAt(order[1..], patterns, matches, value, lineStart, i - 1);
    }
  }

  /** `order` lists every registered name exactly once, as iterating the
      specials map does. */
  predicate Enumerates(order: seq<string>, patterns: map<string, Option<string>>) {
    (forall i :: 0 <= i < |order| ==> order[i] in patterns)
    && (forall name :: name in patterns ==> name in order)
    && (forall i, j :: 0 <= i < j < |order| ==> order[i] != order[j])
  }

  /** Whether a word is special does not depend on the iteration order of
      the map; which class it gets does only when several patterns
      qualify. */
  lemma SpecialOrderIndependent(o1: seq<string>, o2: seq<string>, patterns: map<string, Option<string>>,
                                matches: (string, string) -> bool, value: string, lineStart: bool)
    requires Enumerates(o1, patterns) && Enumerates(o2, patterns)
    ensures FirstSpecial(o1, patterns, matches, value, lineStart).Some?
            <==> FirstSpecial(o2, patterns, matches, value, lineStart).Some?
    ensures (forall a, b :: (Qualifies(patterns, matches, a, value, lineStart)
                             && Qualifies(patterns, matches, b, value, lineStart)) ==> a == b)
            ==> FirstSpecial(o1, patterns, matches, value, lineStart)
                == FirstSpecial(o2, patterns, matches, value, lineStart)
  {
    var r1 := FirstSpecial(o1, patterns, matches, value, lineStart);
    var r2 := FirstSpecial(o2, patterns, matches, value, lineStart);
    if r1.Some? {
      var i :| 0 <= i < |o2| && o2[i] == r1.value;
      assert !(r2.None?);
    }
    if r2.Some? {
      var i :| 0 <= i < |o1| && o1[i] == r2.value;
      assert !(r1.None?);
    }
  }

  /** Away from the start of a line, a `^`-anchored pattern never applies,
      however well it matches. */
  lemma AnchoredNeedsLineStart(order: seq<string>, patterns: map<string, Option<string>>,
                               matches: (string, string) -> bool, value: string)
    requires forall name :: name in patterns && NonEmpty(patterns[name]) ==> patterns[name].value[0] == '^'
    ensures FirstSpecial(order, patterns, matches, value, false).None?
  {
  }
}
