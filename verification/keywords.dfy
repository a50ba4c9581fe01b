/** The keyword set of `ColorCodeHTML`: `set_keywords` is called once with
    the keyword list the resource bundle left behind and once with the list
    in force after the call parameters, so both lists count. */
module Keywords {
  import opened Base
  import opened Strings
  import opened Props

  lemma LowerTwice(s: string)
    ensures Lower(Lower(s)) == Lower(s)
  {
  }

  /** The words one `set_keywords(kwords)` call adds: nothing for a missing
      or empty list, otherwise every comma-separated element, lower-cased
      when keywords ignore case. */
  function Entries(kwords: Option<string>, ignoreCase: bool): (r: set<string>)
    ensures !NonEmpty(kwords) ==> r == {}
    ensures ignoreCase ==> forall w :: w in r ==> Lower(w) == w
    ensures forall w :: w in r ==> ',' !in w
  {
    if !NonEmpty(kwords) then {}
    else
      var words := Split(kwords.value, ',');
      SplitFields(kwords.value, ',');
      forall i | 0 <= i < |words|
        ensures Lower(Lower(words[i])) == Lower(words[i]) && ',' !in Lower(words[i])
      {
        LowerTwice(words[i]);
        assert forall j :: 0 <= j < |words[i]| ==> Lower(words[i])[j] == LowerChar(words[i][j]);
      }
      set i | 0 <= i < |words| :: if ignoreCase then Lower(words[i]) else words[i]
  }

  /** The union the two `set_keywords` calls build in the `Keywords` field.
      Both calls read the ignore-case flag from the same, final properties. */
  function KeywordSet(snapshot: Option<string>, final: Option<string>, ignoreCase: bool): set<string> {
    Entries(snapshot, ignoreCase) + Entries(final, ignoreCase)
  }

  /** `Keywords.contains(value)` where `value` is the word, lower-cased when
      keywords ignore case. */
  predicate IsKeyword(keywords: set<string>, ignoreCase: bool, word: string) {
    (if ignoreCase then Lower(word) else word) in keywords
  }

  /** Reference: `word` is one of the comma-separated fields of the list. */
  predicate Listed(kwords: Option<string>, word: string) {
    kwords.Some? && word in Fields(kwords.value, ',')
  }

  /** Reference: some field of the list equals `word` ignoring case. */
  predicate ListedIgnoringCase(kwords: Option<string>, word: string) {
    kwords.Some? && exists f :: f in Fields(kwords.value, ',') && Lower(f) == Lower(word)
  }

  /** A non-empty word is entered exactly when it is a field of the list:
      the empty fields `split` drops at the end never hide a word. */
  lemma EntriesListed(kwords: Option<string>, word: string)
    requires word != ""
    ensures word in Entries(kwords, false) <==> Listed(kwords, word)
  {
    if kwords.Some? && |kwords.value| > 0 {
      var fs := Fields(kwords.value, ',');
      var words := Split(kwords.value, ',');
      SplitFields(kwords.value, ',');
      if word in fs {
        var i :| 0 <= i < |fs| && fs[i] == word;
        assert i < |words|;
        assert words[i] == word;
      }
      if word in Entries(kwords, false) {
        var i :| 0 <= i < |words| && words[i] == word;
        assert fs[i] == word;
      }
    } else if kwords.Some? {
      assert Fields(kwords.value, ',') == [""];
    }
  }

  /** The same for keywords that ignore case: a non-empty word is entered,
      lower-cased, exactly when some field equals it ignoring case. */
  lemma EntriesListedIgnoringCase(kwords: Option<string>, word: string)
    requires word != ""
    ensures Lower(word) in Entries(kwords, true) <==> ListedIgnoringCase(kwords, word)
  {
    if kwords.Some? && |kwords.value| > 0 {
      var fs := Fields(kwords.value, ',');
      var words := Split(kwords.value, ',');
      SplitFields(kwords.value, ',');
      if ListedIgnoringCase(kwords, word) {
        var f :| f in fs && Lower(f) == Lower(word);
        var i :| 0 <= i < |fs| && fs[i] == f;
        assert f != "";
        assert i < |words|;
        assert Lower(words[i]) == Lower(word);
      }
      if Lower(word) in Entries(kwords, true) {
        var i :| 0 <= i < |words| && Lower(words[i]) == Lower(word);
        assert fs[i] == words[i];
      }
    } else if kwords.Some? {
      assert Fields(kwords.value, ',') == [""];
    }
  }

  /** Case-sensitive keywords: a non-empty word is a keyword exactly when
      it is a field of the bundle's list or of the final list. */
  lemma KeywordIffListed(snapshot: Option<string>, final: Option<string>, word: string)
    requires word != ""
    ensures IsKeyword(KeywordSet(snapshot, final, false), false, word)
            <==> Listed(snapshot, word) || Listed(final, word)
  {
    EntriesListed(snapshot, word);
    EntriesListed(final, word);
  }

  /** Case-insensitive keywords: a non-empty word is a keyword exactly when
      it equals, ignoring case, a field of either list, whatever the letter
      case of the word or of the list. */
  lemma KeywordIffListedIgnoringCase(snapshot: Option<string>, final: Option<string>, word: string)
    requires word != ""
    ensures IsKeyword(KeywordSet(snapshot, final, true), true, word)
            <==> ListedIgnoringCase(snapshot, word) || ListedIgnoringCase(final, word)
  {
    EntriesListedIgnoringCase(snapshot, word);
    EntriesListedIgnoringCase(final, word);
  }

  /** With case-insensitive keywords, a list whose fields are not lower case
      still matches: "While" in the list makes "WHILE" a keyword, which it
      is not when case matters. */
  lemma MixedCaseKeyword()
    ensures IsKeyword(KeywordSet(None, Some("While"), true), true, "WHILE")
    ensures !IsKeyword(KeywordSet(None, Some("While"), false), false, "WHILE")
  {
    FieldsWithoutSeparator("While", ',');
    assert Lower("While") == Lower("WHILE");
    KeywordIffListedIgnoringCase(None, Some("While"), "WHILE");
    KeywordIffListed(None, Some("While"), "WHILE");
  }
}
