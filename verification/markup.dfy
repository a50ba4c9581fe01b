/** The string transforms of `render_token` and `make_indent`: fold-case,
    the `<`/`>` escape, the font wrapper and the indentation cache. */
module Markup {
  import opened Base
  import opened Strings
  import opened Props
  import opened Settings

  // ---------------------------------------------------------------------
  // Fold-case

  predicate FoldsTo(foldcase: Option<string>, mode: string) {
    NonEmpty(foldcase) && EqualsIgnoreCase(foldcase.value, mode)
  }

  /** The `.foldcase` property: "upper" or "lower" in any letter case
      changes the text; any other value, or none, leaves it alone. */
  function Fold(foldcase: Option<string>, v: string): (r: string)
    ensures |r| == |v|
    ensures FoldsTo(foldcase, "upper") ==> forall i :: 0 <= i < |r| ==> !IsLower(r[i])
    ensures !FoldsTo(foldcase, "upper") && FoldsTo(foldcase, "lower") ==>
              forall i :: 0 <= i < |r| ==> !IsUpper(r[i])
    ensures !FoldsTo(foldcase, "upper") && !FoldsTo(foldcase, "lower") ==> r == v
    ensures forall i :: 0 <= i < |v| ==> LowerChar(r[i]) == LowerChar(v[i])
  {
    if FoldsTo(foldcase, "upper") then Upper(v)
    else if FoldsTo(foldcase, "lower") then Lower(v)
    else v
  }

  // ---------------------------------------------------------------------
  // Escaping

  /** `out_value.replaceAll("<", "&lt;")` then `replaceAll(">", "&gt;")`,
      each guarded by an `indexOf` test. */
  function Escape(v: string): string {
    var a := if Contains(v, "<") then ReplaceAll(v, "<", "&lt;") else v;
    if Contains(a, ">") then ReplaceAll(a, ">", "&gt;") else a
  }

  /** Reference: the escape of one character. */
  function EscapeChar(c: char): string {
    if c == '<' then "&lt;" else if c == '>' then "&gt;" else [c]
  }

  /** Reference: the escape, character by character. */
  function EscapeChars(v: string): (r: string)
    ensures '<' !in r && '>' !in r
    ensures |r| >= |v|
    decreases |v|
  {
    if |v| == 0 then "" else EscapeChar(v[0]) + EscapeChars(v[1..])
  }

  /** One character mapped to a string, everywhere in `s`. */
  function MapChar(s: string, c: char, rep: string): string
    decreases |s|
  {
    if |s| == 0 then "" else (if s[0] == c then rep else [s[0]]) + MapChar(s[1..], c, rep)
  }

  lemma {:induction false} ReplaceOneChar(s: string, c: char, rep: string)
    ensures ReplaceAll(s, [c], rep) == MapChar(s, c, rep)
    decreases |s|
  {
    if |s| > 0 {
      ReplaceOneChar(s[1..], c, rep);
      assert [c] <= s <==> s[0] == c;
    }
  }

  lemma {:induction false} MapCharAppend(a: string, b: string, c: char, rep: string)
    ensures MapChar(a + b, c, rep) == MapChar(a, c, rep) + MapChar(b, c, rep)
    decreases |a|
  {
    if |a| == 0 {
      assert a + b == b;
    } else {
      assert (a + b)[1..] == a[1..] + b;
      MapCharAppend(a[1..], b, c, rep);
    }
  }

  lemma {:induction false} MapCharAbsent(s: string, c: char, rep: string)
    requires c !in s
    ensures MapChar(s, c, rep) == s
    decreases |s|
  {
    if |s| > 0 {
      MapCharAbsent(s[1..], c, rep);
    }
  }

  lemma {:induction false} EscapeBothMaps(v: string)
    ensures MapChar(MapChar(v, '<', "&lt;"), '>', "&gt;") == EscapeChars(v)
    decreases |v|
  {
    if |v| > 0 {
      var head := if v[0] == '<' then "&lt;" else [v[0]];
      assert MapChar(v, '<', "&lt;") == head + MapChar(v[1..], '<', "&lt;");
      MapCharAppend(head, MapChar(v[1..], '<', "&lt;"), '>', "&gt;");
      if v[0] == '<' {
        MapCharAbsent(head, '>', "&gt;");
      } else {
        assert MapChar(head, '>', "&gt;") == EscapeChar(v[0]) by {
          assert head[1..] == [];
        }
      }
      EscapeBothMaps(v[1..]);
    }
  }

  /** The escape replaces every `<` by `&lt;` and every `>` by `&gt;` and
      leaves every other character, `&` included, as it is. */
  lemma EscapeIsCharwise(v: string)
    ensures Escape(v) == EscapeChars(v)
  {
    ReplaceOneChar(v, '<', "&lt;");
    var a := MapChar(v, '<', "&lt;");
    ReplaceOneChar(a, '>', "&gt;");
    if !Contains(v, "<") {
      ReplaceAllAbsent(v, "<", "&lt;");
    }
    if !Contains(a, ">") {
      ReplaceAllAbsent(a, ">", "&gt;");
    }
    EscapeBothMaps(v);
  }

  /** Text without angle brackets passes through the escape unchanged. */
  lemma {:induction false} EscapePlainText(v: string)
    requires '<' !in v && '>' !in v
    ensures EscapeChars(v) == v
    decreases |v|
  {
    if |v| > 0 {
      EscapePlainText(v[1..]);
    }
  }

  /** Reads `&lt;` and `&gt;` back as the characters they stand for. */
  function Unescape(s: string): string
    decreases |s|
  {
    if |s| == 0 then ""
    else if "&lt;" <= s then "<" + Unescape(s[4..])
    else if "&gt;" <= s then ">" + Unescape(s[4..])
    else [s[0]] + Unescape(s[1..])
  }

  /** On text without `&` the escape can be undone. */
  lemma {:induction false} UnescapeEscape(v: string)
    requires '&' !in v
    ensures Unescape(EscapeChars(v)) == v
    decreases |v|
  {
    if |v| > 0 {
      var rest := EscapeChars(v[1..]);
      var e := EscapeChars(v);
      UnescapeEscape(v[1..]);
      if v[0] == '<' {
        assert e == "&lt;" + rest;
        assert "&lt;" <= e && e[4..] == rest;
      } else if v[0] == '>' {
        assert e == "&gt;" + rest;
        assert !("&lt;" <= e) by { assert e[1] == 'g'; }
        assert "&gt;" <= e && e[4..] == rest;
      } else {
        assert e == [v[0]] + rest;
        assert e[0] != '&';
        assert e[1..] == rest;
      }
    }
  }

  /** `&` is left alone, so text that already spells `&lt;` renders the
      same as a real `<`: the escape is not one-to-one. */
  lemma EscapeNotInjective()
    ensures Escape("<") == Escape("&lt;") == "&lt;"
  {
    EscapeIsCharwise("<");
    EscapeIsCharwise("&lt;");
    EscapePlainText("&lt;");
    assert "<"[1..] == "";
  }

  /** Folding happens first: an upper-cased `<` still escapes as `&lt;`,
      where escaping first would have given `&LT;`. */
  lemma FoldBeforeEscape()
    ensures EscapeChars(Fold(Some("UPPER"), "<")) == "&lt;"
    ensures Fold(Some("UPPER"), EscapeChars("<")) == "&LT;"
  {
    assert FoldsTo(Some("UPPER"), "upper") by {
      assert Lower("UPPER") == "upper";
    }
    assert Upper("<") == "<";
    assert EscapeChars("<") == "&lt;" by {
      assert "<"[1..] == "";
    }
    assert Upper("&lt;") == "&LT;";
  }

  // ---------------------------------------------------------------------
  // render_token

  /** A style flag: on only when the property is non-empty and reads as
      `true` in any letter case. */
  predicate Flag(o: Option<string>) {
    NonEmpty(o) && BooleanOf(o)
  }

  lemma FlagSpellings()
    ensures Flag(Some("TRUE")) && Flag(Some("True"))
    ensures !Flag(Some("yes")) && !Flag(Some("")) && !Flag(None)
  {
    assert Lower("TRUE") == "true";
    assert Lower("True") == "true";
    assert Lower("yes") != Lower("true");
  }

  /** The markup around a token's text: the `<font color=...>` opening,
      the bold and italic tags and the closing tag. */
  function FontOpen(p: Properties, key: string): string {
    "<font color=\"" + Text(Get(p, key + ".font.color")) + "\">"
  }

  /** `render_token(key, value)`. */
  function RenderToken(p: Properties, key: string, value: string): string {
    var bold := Flag(Get(p, key + ".font.bold"));
    var italic := Flag(Get(p, key + ".font.italic"));
    var out := Escape(Fold(Get(p, key + ".foldcase"), value));
    FontOpen(p, key)
    + (if bold then Text(Get(p, BoldOnKey)) else "")
    + (if italic then Text(Get(p, ItalicOnKey)) else "")
    + out
    + (if italic then Text(Get(p, ItalicOffKey)) else "")
    + (if bold then Text(Get(p, BoldOffKey)) else "")
    + Text(Get(p, FontColorEndKey))
  }

  /** An opening tag and the tag that closes it. */
  datatype Tag = Tag(open: string, close: string)

  /** Reference: `inner` inside the tags, the first tag outermost. */
  function Nest(tags: seq<Tag>, inner: string): string
    decreases |tags|
  {
    if |tags| == 0 then inner else tags[0].open + Nest(tags[1..], inner) + tags[0].close
  }

  /** The style tags a token class turns on, bold outside italic. */
  function ActiveTags(p: Properties, key: string): (tags: seq<Tag>)
    ensures |tags| <= 2
    ensures |tags| == (if Flag(Get(p, key + ".font.bold")) then 1 else 0)
                      + (if Flag(Get(p, key + ".font.italic")) then 1 else 0)
  {
    (if Flag(Get(p, key + ".font.bold")) then [Tag(Text(Get(p, BoldOnKey)), Text(Get(p, BoldOffKey)))] else [])
    + (if Flag(Get(p, key + ".font.italic")) then [Tag(Text(Get(p, ItalicOnKey)), Text(Get(p, ItalicOffKey)))] else [])
  }

  /** The bold and italic tags of `render_token`, written out flat, nest. */
  lemma {:induction false} FlatTagsNest(b: Tag, i: Tag, bold: bool, italic: bool, out: string)
    ensures (if bold then b.open else "") + (if italic then i.open else "") + out
            + (if italic then i.close else "") + (if bold then b.close else "")
            == Nest((if bold then [b] else []) + (if italic then [i] else []), out)
  {
    var tags: seq<Tag> := (if bold then [b] else []) + (if italic then [i] else []);
    if bold && italic {
      assert tags == [b, i] && tags[1..] == [i] && tags[1..][1..] == [];
      assert Nest(tags[1..], out) == i.open + out + i.close;
      assert Nest(tags, out) == b.open + (i.open + out + i.close) + b.close;
    } else if bold {
      assert tags == [b] && tags[1..] == [];
      assert Nest(tags, out) == b.open + out + b.close;
      assert "" + out == out && b.open + out + "" == b.open + out;
    } else if italic {
      assert tags == [i] && tags[1..] == [];
      assert Nest(tags, out) == i.open + out + i.close;
      assert "" + i.open == i.open && i.open + out + i.close + "" == i.open + out + i.close;
    } else {
      assert tags == [];
      assert "" + "" + out + "" + "" == out;
    }
  }

  lemma Regroup7(a: string, b: string, c: string, d: string, e: string, f: string, g: string)
    ensures a + b + c + d + e + f + g == a + (b + c + d + e + f) + g
  {
  }

  /** A rendered token is the font opening, then the active style tags
      properly nested around the folded and escaped text (closed in the
      reverse order of opening), then the font end. */
  lemma RenderTokenNests(p: Properties, key: string, value: string)
    ensures RenderToken(p, key, value)
            == FontOpen(p, key) + Nest(ActiveTags(p, key), EscapeChars(Fold(Get(p, key + ".foldcase"), value)))
               + Text(Get(p, FontColorEndKey))
  {
    var out := EscapeChars(Fold(Get(p, key + ".foldcase"), value));
    EscapeIsCharwise(Fold(Get(p, key + ".foldcase"), value));
    var bold := Flag(Get(p, key + ".font.bold"));
    var italic := Flag(Get(p, key + ".font.italic"));
    var b := Tag(Text(Get(p, BoldOnKey)), Text(Get(p, BoldOffKey)));
    var i := Tag(Text(Get(p, ItalicOnKey)), Text(Get(p, ItalicOffKey)));
    FlatTagsNest(b, i, bold, italic, out);
    var flat := (if bold then b.open else "") + (if italic then i.open else "") + out
                + (if italic then i.close else "") + (if bold then b.close else "");
    Regroup7(FontOpen(p, key), if bold then b.open else "", if italic then i.open else "", out,
             if italic then i.close else "", if bold then b.close else "", Text(Get(p, FontColorEndKey)));
  }

  /** Whatever the configuration, the token's own text contributes no `<`
      or `>` to the markup between the style tags. */
  lemma RenderTokenEscapesText(p: Properties, key: string, value: string)
    ensures exists out :: RenderToken(p, key, value)
                          == FontOpen(p, key) + Nest(ActiveTags(p, key), out) + Text(Get(p, FontColorEndKey))
                          && '<' !in out && '>' !in out && |out| >= |value|
  {
    RenderTokenNests(p, key, value);
    var out := EscapeChars(Fold(Get(p, key + ".foldcase"), value));
    assert RenderToken(p, key, value)
           == FontOpen(p, key) + Nest(ActiveTags(p, key), out) + Text(Get(p, FontColorEndKey));
  }

  // ---------------------------------------------------------------------
  // make_indent

  /** Capacity of the `indents` array. */
  const IndentSlots := 100

  /** Every cached indentation is the space glyph repeated to its level. */
  predicate CacheSound(cache: map<int, string>, space: string) {
    forall level :: level in cache ==> 0 <= level < IndentSlots && cache[level] == Repeat(space, level)
  }

  /** `make_indent(level)`: the cached string if there is one, otherwise the
      glyph appended `level` times and stored. A level outside the array
      raises ArrayIndexOutOfBoundsException. */
  method MakeIndent(cache: map<int, string>, space: string, level: int)
      returns (r: Result<string>, cache': map<int, string>)
    requires CacheSound(cache, space)
    ensures CacheSound(cache', space)
    ensures r.Failure? <==> !(0 <= level < IndentSlots)
    ensures r.Failure? ==> r.error == IndentOutOfRange(level) && cache' == cache
    ensures r.Success? ==> r.value == Repeat(space, level) && cache' == cache[level := r.value]
  {
    if !(0 <= level < IndentSlots) {
      return Failure(IndentOutOfRange(level)), cache;
    }
    if level in cache {
      assert cache[level := cache[level]] == cache;
      return Success(cache[level]), cache;
    }
    var s := "";
    var i := 0;
    while i < level
      invariant 0 <= i <= level
      invariant s == Repeat(space, i)
    {
      s := s + space;
      i := i + 1;
    }
    return Success(s), cache[level := s];
  }

  /** The indentation a run of `width` spaces renders as, against the area
      background colour. */
  function Blank(p: Properties, width: int): (r: Result<string>)
    ensures r.Failure? <==> !(0 <= width < IndentSlots)
    ensures r.Success? ==> |r.value| == |"<font color=\""| + |Text(Get(p, AreaBgColorKey))| + 2
                                         + width * |Text(Get(p, SpaceKey))| + |Text(Get(p, FontColorEndKey))|
  {
    if !(0 <= width < IndentSlots) then Failure(IndentOutOfRange(width))
    else
      RepeatLength(Text(Get(p, SpaceKey)), width);
      Success("<font color=\"" + Text(Get(p, AreaBgColorKey)) + "\">"
              + Repeat(Text(Get(p, SpaceKey)), width) + Text(Get(p, FontColorEndKey)))
  }

  lemma {:induction false} RepeatLength(s: string, n: nat)
    ensures |Repeat(s, n)| == n * |s|
  {
    if n > 0 {
      RepeatLength(s, n - 1);
      MulSucc(n - 1, |s|);
    }
  }
}
