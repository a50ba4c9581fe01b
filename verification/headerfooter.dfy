/** `header_footer_substitution`: the placeholders of the start and finish
    templates are replaced by configured values, in a fixed order, so a
    value that itself spells a later placeholder is replaced in turn. */
module HeaderFooter {
  import opened Base
  import opened Strings
  import opened Props
  import opened Settings

  const AreaClassMark := "AREA_CLASS"
  const AreaBgColorMark := "AREA_BGCOLOR"
  const AreaBorderMark := "AREA_BORDER"
  const SyntaxMark := "SYNTAX"

  /** One guarded replacement: every occurrence of `mark` is replaced by
      the value, but only when the text holds the mark and the value is
      non-empty. */
  function Fill(text: string, mark: string, value: Option<string>): string
    requires |mark| > 0
  {
    if Contains(text, mark) && NonEmpty(value) then ReplaceAll(text, mark, value.value) else text
  }

  /** The value of AREA_CLASS: `colorcode.area.class`, or the lower-cased
      syntax name when that property is missing or empty. */
  function ClassValue(p: Properties, syntaxName: string): (r: Option<string>)
    ensures NonEmpty(Get(p, AreaClassKey)) ==> r == Get(p, AreaClassKey)
    ensures !NonEmpty(Get(p, AreaClassKey)) ==> r.Some? && EqualsIgnoreCase(r.value, syntaxName)
  {
    if NonEmpty(Get(p, AreaClassKey)) then Get(p, AreaClassKey) else Some(Lower(syntaxName))
  }

  /** `header_footer_substitution(text)`: empty for a missing or empty
      template; otherwise AREA_CLASS, AREA_BGCOLOR, AREA_BORDER and SYNTAX
      in that order. */
  function Substitute(text: Option<string>, p: Properties, syntaxName: string): (r: string)
    ensures !NonEmpty(text) ==> r == ""
  {
    if !NonEmpty(text) then ""
    else
      var t1 := Fill(text.value, AreaClassMark, ClassValue(p, syntaxName));
      var t2 := Fill(t1, AreaBgColorMark, Get(p, AreaBgColorKey));
      var t3 := Fill(t2, AreaBorderMark, Get(p, AreaBorderKey));
      Fill(t3, SyntaxMark, Some(syntaxName))
  }

  /** Reference: replacement without the `indexOf` guard. */
  function Replace(text: string, mark: string, value: Option<string>): string
    requires |mark| > 0
  {
    if NonEmpty(value) then ReplaceAll(text, mark, value.value) else text
  }

  /** The `indexOf` guard in front of each replacement changes nothing. */
  lemma FillIsReplace(text: string, mark: string, value: Option<string>)
    requires |mark| > 0
    ensures Fill(text, mark, value) == Replace(text, mark, value)
  {
    if !Contains(text, mark) && NonEmpty(value) {
      ReplaceAllAbsent(text, mark, value.value);
    }
  }

  /** A filled text is unchanged exactly when the mark is absent, the value
      is empty, or the value is the mark itself. */
  lemma FillUnchanged(text: string, mark: string, value: Option<string>)
    requires |mark| > 0
    ensures Fill(text, mark, value) == text
            <==> !Contains(text, mark) || !NonEmpty(value) || value.value == mark
  {
    if Contains(text, mark) && NonEmpty(value) {
      ReplaceAllUnchanged(text, mark, value.value);
    }
  }

  /** A non-empty template without any placeholder comes back as it is. */
  lemma SubstituteNoPlaceholders(text: string, p: Properties, syntaxName: string)
    requires text != ""
    requires !Contains(text, AreaClassMark) && !Contains(text, AreaBgColorMark)
    requires !Contains(text, AreaBorderMark) && !Contains(text, SyntaxMark)
    ensures Substitute(Some(text), p, syntaxName) == text
  {
    FillUnchanged(text, AreaClassMark, ClassValue(p, syntaxName));
    FillUnchanged(text, AreaBgColorMark, Get(p, AreaBgColorKey));
    FillUnchanged(text, AreaBorderMark, Get(p, AreaBorderKey));
    FillUnchanged(text, SyntaxMark, Some(syntaxName));
  }

  lemma ReplaceWhole(mark: string, v: string)
    requires |mark| > 0
    ensures ReplaceAll(mark, mark, v) == v
  {
    assert mark[|mark|..] == "";
  }

  lemma {:induction false} ContainsShort(s: string, pat: string)
    requires |s| < |pat|
    ensures !Contains(s, pat)
  {
  }

  /** The template "SYNTAX" becomes the syntax name, when there is one. */
  lemma SyntaxOnly(p: Properties, syntaxName: string)
    requires syntaxName != ""
    ensures Substitute(Some(SyntaxMark), p, syntaxName) == syntaxName
  {
    ContainsShort(SyntaxMark, AreaClassMark);
    ContainsShort(SyntaxMark, AreaBgColorMark);
    ContainsShort(SyntaxMark, AreaBorderMark);
    assert Contains(SyntaxMark, SyntaxMark);
    ReplaceWhole(SyntaxMark, syntaxName);
  }

  /** Values are substituted in order, so an area class that reads
      "SYNTAX" ends up as the syntax name. */
  lemma ClassCascades(p: Properties, syntaxName: string)
    requires Get(p, AreaClassKey) == Some(SyntaxMark)
    requires syntaxName != ""
    ensures Substitute(Some(AreaClassMark), p, syntaxName) == syntaxName
  {
    assert Contains(AreaClassMark, AreaClassMark);
    ReplaceWhole(AreaClassMark, SyntaxMark);
    ContainsShort(SyntaxMark, AreaBgColorMark);
    ContainsShort(SyntaxMark, AreaBorderMark);
    assert Contains(SyntaxMark, SyntaxMark);
    ReplaceWhole(SyntaxMark, syntaxName);
  }

  /** With `colorcode.area.class` missing or empty, AREA_CLASS becomes the
      syntax name in lower case: a lower-cased name spells no later
      placeholder, since every placeholder starts with a capital. */
  lemma ClassFallsBack(p: Properties, syntaxName: string)
    requires !NonEmpty(Get(p, AreaClassKey)) && syntaxName != ""
    ensures Substitute(Some(AreaClassMark), p, syntaxName) == Lower(syntaxName)
  {
    var v := Lower(syntaxName);
    assert Contains(AreaClassMark, AreaClassMark);
    ReplaceWhole(AreaClassMark, v);
    NoUpperInside(v, AreaBgColorMark);
    NoUpperInside(v, AreaBorderMark);
    NoUpperInside(v, SyntaxMark);
  }

  /** A text without capitals contains no pattern that starts with one. */
  lemma {:induction false} NoUpperInside(s: string, pat: string)
    requires forall i :: 0 <= i < |s| ==> !IsUpper(s[i])
    requires |pat| > 0 && IsUpper(pat[0])
    ensures !Contains(s, pat)
    decreases |s|
  {
    if |s| >= |pat| {
      assert s[0] != pat[0];
      NoUpperInside(s[1..], pat);
    }
  }

  lemma BgColorMarkAlone()
    ensures !Contains(AreaBgColorMark, AreaClassMark)
    ensures !Contains(AreaBgColorMark, AreaBorderMark)
  {
    assert !Contains(AreaBgColorMark, AreaClassMark) by {
      assert AreaClassMark[5] != AreaBgColorMark[5];
      assert !(AreaClassMark <= AreaBgColorMark);
      assert !(AreaClassMark <= AreaBgColorMark[1..]);
      assert !(AreaClassMark <= AreaBgColorMark[2..]);
      assert AreaBgColorMark[1..][1..][1..] == AreaBgColorMark[3..];
      ContainsShort(AreaBgColorMark[3..], AreaClassMark);
    }
    assert !Contains(AreaBgColorMark, AreaBorderMark) by {
      assert AreaBorderMark[6] != AreaBgColorMark[6];
      assert !(AreaBorderMark <= AreaBgColorMark);
      assert !(AreaBorderMark <= AreaBgColorMark[1..]);
      ContainsShort(AreaBgColorMark[2..], AreaBorderMark);
    }
  }

  lemma {:induction false} NoSyntaxInBgColorMark(k: nat)
    requires k <= |AreaBgColorMark|
    ensures !Contains(AreaBgColorMark[k..], SyntaxMark)
    decreases |AreaBgColorMark| - k
  {
    var s := AreaBgColorMark[k..];
    if |s| >= |SyntaxMark| {
      assert s[..6] != SyntaxMark by {
        assert k <= 6;
        assert s[0] == AreaBgColorMark[k];
      }
      NoSyntaxInBgColorMark(k + 1);
      assert s[1..] == AreaBgColorMark[k + 1..];
    }
  }

  /** A placeholder whose value is empty stays in the output verbatim. */
  lemma EmptyValueStays(p: Properties, syntaxName: string)
    requires !NonEmpty(Get(p, AreaBgColorKey))
    ensures Substitute(Some(AreaBgColorMark), p, syntaxName) == AreaBgColorMark
  {
    BgColorMarkAlone();
    NoSyntaxInBgColorMark(0);
    assert AreaBgColorMark[0..] == AreaBgColorMark;
  }
}
