# ColorCode: a Dafny model of the JSPWiki syntax colouring engine

This project models the rendering core of the JSPWiki ColorCode plugin. It
covers two classes:

- `ColorCodeHTML` turns a plugin body into HTML, one coloured `<font>` span per
  token.
- `SyntaxTokenizer` decodes the character-class configuration of the
  `StreamTokenizer` that splits the body into tokens.

A call to `format(body, params)` runs these steps:

1. Layer the configuration: hard defaults, then the resource bundle of the
   syntax, then the String-valued call parameters.
2. Build the keyword set.
3. Register the "special" word patterns and backfill their style
   properties.
4. Tokenize the trimmed body.
5. Classify every token:
   - numbers, keywords, special words and normal words;
   - strings, symbols and ends of line;
   - runs of spaces and tabs, which become indents.
6. Render each token with its font colour and bold/italic tags. The text is
   case-folded, then `<` and `>` are escaped.
7. Wrap the result in a start and a finish template whose placeholders
   (`AREA_CLASS`, `AREA_BGCOLOR`, `AREA_BORDER`, `SYNTAX`) are substituted.

The model is made of immutable datatypes and pure functions. Exceptions
become `Failure`s of a `Result`:

- a `ClassCastException` on a non-String `log` or `syntax` parameter;
- the `StringIndexOutOfBoundsException` of `load_specials` on a key that
  lower-cases to `colorcode.special.pattern`;
- the `StringIndexOutOfBoundsException` of `parse_char_code("")`, on an empty
  element of a tokenizer list or range: `Integer.decode("")` throws a
  `NumberFormatException` that is caught, and the fallback's `charAt(0)`
  then throws;
- the `NumberFormatException` of `Integer.valueOf` on a tab size or line
  number that is not a 32-bit decimal;
- the `ArrayIndexOutOfBoundsException` of `make_indent` for an indent width
  outside 0..99.

Rendering is split into two stages:

- `Engine.Walk` is the token loop of `process_body`/`process_token`. It yields
  a sequence of pieces: styled text, line-number labels, blanks and line
  breaks.
- `Engine.Html` renders those pieces, and `Engine.Render` is its loop-and-cache
  implementation.

Modules, in dependency order:

- `Base`: `Option`, `Result`, errors.
- `Strings`: ASCII case mapping, `replaceAll`, `split`, `trim` and integer
  text.
- `Props`: `java.util.Properties` as a map.
- `Settings`: property keys, style classes and the default properties.
- `SyntaxTokenizer`.
- `Markup`: `render_token`, escaping and `make_indent`.
- `Keywords`.
- `Specials`: `load_specials` and `render_special`.
- `Engine`: the token loop and the markup of the body.
- `HeaderFooter`.
- `ColorCode`: `initialise` and `format`.

Where the code and its documentation disagree, the model follows the code:

- The comment of `header_footer_substitution` says AREA_CLASS comes from the
  syntax name when `colorcode.area.class` is not set. The default properties
  set it to `body`, so that fallback applies only when a bundle or a parameter
  sets it to the empty string.
- `SyntaxTokenizer.initialise` calls `lowerCaseMode` with the values of the
  `lowerCaseMode`, `parseNumbers`, `slashSlashComments` and
  `slashStarComments` keys. The last key that is set decides the mode. The
  model keeps this, and `SyntaxTokenizer.EffectiveLowerCase` states it.
- A `'` token that is not a quoted string, whose `sval` is null, renders as
  `'null'`.

## Model

`ColorCode.Initialise`, `Engine.Walk` and `Markup.RenderToken` carry no
contract of their own. Their meaning is stated by lemmas:
`ColorCode.InitialiseAccepts` and `ColorCode.ConfigurationLayers` for
`initialise`, `Engine.WalkAppend` and `Engine.WalkLineStart` for the token
loop, and `Markup.RenderTokenNests` for `render_token`.

| member | source | states |
|---|---|---|
| Strings.TrimSlice | source/lu/intrasoft/jspwiki/plugin/ColorCodeHTML.java:230 | `trim` returns a slice of the body with only characters at or below the space removed from both ends, and the slice neither starts nor ends with such a character |
| Strings.SplitFields | source/lu/intrasoft/jspwiki/plugin/ColorCodeHTML.java:420 | `split(",")` yields a prefix of the separator-free fields, which rejoin to the text; only empty trailing fields are dropped |
| Strings.JoinFields | source/lu/intrasoft/jspwiki/plugin/ColorCodeHTML.java:420 | the fields of a text, joined with the separator, give the text back |
| Strings.ReplaceAllUnchanged | source/lu/intrasoft/jspwiki/plugin/ColorCodeHTML.java:684 | a literal `replaceAll` leaves the text unchanged exactly when the mark is absent or replaced by itself |
| Strings.IntToStringParses | source/lu/intrasoft/jspwiki/plugin/ColorCodeHTML.java:128-140 | every 32-bit integer written in decimal parses back to itself, as `Integer.valueOf` does with the tab size and line number |
| Settings.DefaultsRead | source/lu/intrasoft/jspwiki/plugin/ColorCodeHTML.java:458-507 | the default area class is `body`, space `&nbsp;`, tab size 4, line number -1, keywords ignore case, and there is no keyword list |
| SyntaxTokenizer.ParseCharCode | source/lu/intrasoft/jspwiki/plugin/SyntaxTokenizer.java:158-175 | a character code fails exactly when it is empty, and otherwise decodes to a non-negative code |
| SyntaxTokenizer.DecimalCodeRoundTrip | source/lu/intrasoft/jspwiki/plugin/SyntaxTokenizer.java:158-175 | every non-negative 32-bit code written in decimal decodes back to itself |
| SyntaxTokenizer.SingleCharCode | source/lu/intrasoft/jspwiki/plugin/SyntaxTokenizer.java:158-175 | a one-character code is its digit value when it has one (letters count as digits up to 35), else the character itself |
| SyntaxTokenizer.NegativeCodeFallsBack | source/lu/intrasoft/jspwiki/plugin/SyntaxTokenizer.java:164-174 | "-5" decodes to a negative number, so the code falls back to the character `-` |
| SyntaxTokenizer.HexCodeRoundTrip | source/lu/intrasoft/jspwiki/plugin/SyntaxTokenizer.java:158-175 | every non-negative 32-bit code written in hexadecimal after `0x` decodes back to itself |
| SyntaxTokenizer.HexCode | source/lu/intrasoft/jspwiki/plugin/SyntaxTokenizer.java:158-175 | "0x20" decodes as hexadecimal to 32 |
| SyntaxTokenizer.DecimalCodes | source/lu/intrasoft/jspwiki/plugin/SyntaxTokenizer.java:158-175 | "65" and "122" decode as decimal numbers, not as characters |
| SyntaxTokenizer.EolOps | source/lu/intrasoft/jspwiki/plugin/SyntaxTokenizer.java:55-59 | one `eolIsSignificant` call exactly when the key is set and non-empty, with the key's boolean |
| SyntaxTokenizer.LowerCaseOps | source/lu/intrasoft/jspwiki/plugin/SyntaxTokenizer.java:60-79 | each of the four keys gives one `lowerCaseMode` call exactly when it is set and non-empty, with its boolean |
| SyntaxTokenizer.ParseEach | source/lu/intrasoft/jspwiki/plugin/SyntaxTokenizer.java:81-92 | a list of codes fails exactly when one element is empty; otherwise it gives one call per element, all of the list's kind |
| SyntaxTokenizer.ListOps | source/lu/intrasoft/jspwiki/plugin/SyntaxTokenizer.java:81-135 | a comma list fails exactly when malformed, and otherwise gives one call per element `split` keeps |
| SyntaxTokenizer.ListOpsCodes | source/lu/intrasoft/jspwiki/plugin/SyntaxTokenizer.java:104-112 | call i of a list carries the decoded code of element i |
| SyntaxTokenizer.RangeOp | source/lu/intrasoft/jspwiki/plugin/SyntaxTokenizer.java:93-103 | a range call carries the two bounds in the order given |
| SyntaxTokenizer.RangeOps | source/lu/intrasoft/jspwiki/plugin/SyntaxTokenizer.java:93-103 | a dash range fails exactly when malformed and gives at most one call, whose bounds are the decoded ends |
| SyntaxTokenizer.RangeTwo | source/lu/intrasoft/jspwiki/plugin/SyntaxTokenizer.java:114-124 | "lo-hi" gives one range call from the code of lo to the code of hi |
| SyntaxTokenizer.RangeLeadingDash | source/lu/intrasoft/jspwiki/plugin/SyntaxTokenizer.java:93-103 | "-hi" has an empty low end and fails |
| SyntaxTokenizer.RangeTrailingDash | source/lu/intrasoft/jspwiki/plugin/SyntaxTokenizer.java:137-147 | "lo-" splits into one element and is silently ignored |
| SyntaxTokenizer.RangeWithoutDash | source/lu/intrasoft/jspwiki/plugin/SyntaxTokenizer.java:137-147 | a range without a dash is silently ignored |
| SyntaxTokenizer.ListSingle | source/lu/intrasoft/jspwiki/plugin/SyntaxTokenizer.java:126-135 | a list of one element gives exactly one call with its code |
| SyntaxTokenizer.ListLeadingComma | source/lu/intrasoft/jspwiki/plugin/SyntaxTokenizer.java:104-112 | a list starting with a comma has an empty first element and fails |
| SyntaxTokenizer.Initialise | source/lu/intrasoft/jspwiki/plugin/SyntaxTokenizer.java:52-148 | configuration fails exactly when one of the six class lists or ranges is malformed |
| SyntaxTokenizer.InitialiseOrdered | source/lu/intrasoft/jspwiki/plugin/SyntaxTokenizer.java:52-148 | the calls come in the source's order: flags first, then ordinary, ranges, quotes, whitespace and word classes |
| SyntaxTokenizer.EolOnlyFromItsKey | source/lu/intrasoft/jspwiki/plugin/SyntaxTokenizer.java:55-79 | the only `eolIsSignificant` call is the first, and it comes from its own key |
| SyntaxTokenizer.EffectiveLowerCase | source/lu/intrasoft/jspwiki/plugin/SyntaxTokenizer.java:60-79 | the lower-case mode left in force is the boolean of the last of the four keys that is set |
| SyntaxTokenizer.DefaultsLookup | source/lu/intrasoft/jspwiki/plugin/SyntaxTokenizer.java:182-197 | the tokenizer defaults: significant ends of line, no lower-casing, `_` and space ordinary, both quotes, words from 65 to 122 |
| SyntaxTokenizer.OrdinaryDefault | source/lu/intrasoft/jspwiki/plugin/SyntaxTokenizer.java:189 | the default ordinary list makes `_` (95) and space (32) ordinary |
| SyntaxTokenizer.QuoteDefault | source/lu/intrasoft/jspwiki/plugin/SyntaxTokenizer.java:191 | the default quote list makes `'` and `"` quote characters |
| SyntaxTokenizer.WordRangeDefault | source/lu/intrasoft/jspwiki/plugin/SyntaxTokenizer.java:194 | the default word range is 65 to 122 |
| SyntaxTokenizer.DefaultsDecode | source/lu/intrasoft/jspwiki/plugin/SyntaxTokenizer.java:182-197 | the defaults decode without failure, and `_` is made ordinary although it lies inside the word range |
| SyntaxTokenizer.DefaultLowerCase | source/lu/intrasoft/jspwiki/plugin/SyntaxTokenizer.java:182-197 | the defaults leave lower-casing off |
| SyntaxTokenizer.ConstructorAppends | source/lu/intrasoft/jspwiki/plugin/SyntaxTokenizer.java:41-45 | the constructor applies the defaults first and then the configuration, and fails exactly when the configuration does |
| SyntaxTokenizer.DefaultsStand | source/lu/intrasoft/jspwiki/plugin/SyntaxTokenizer.java:28-45 | a configuration that sets no tokenizer key leaves exactly the defaults |
| SyntaxTokenizer.ConstructedLowerCase | source/lu/intrasoft/jspwiki/plugin/SyntaxTokenizer.java:41-45 | after construction, lower-casing is on exactly when the last lower-case key set says so |
| Markup.Fold | source/lu/intrasoft/jspwiki/plugin/ColorCodeHTML.java:570-582 | fold case keeps the length and each character up to case; `upper` leaves no lower-case letter, `lower` no upper-case one, anything else changes nothing |
| Markup.EscapeChars | source/lu/intrasoft/jspwiki/plugin/ColorCodeHTML.java:583-590 | escaped text holds no `<` or `>` and is no shorter |
| Markup.EscapeIsCharwise | source/lu/intrasoft/jspwiki/plugin/ColorCodeHTML.java:583-590 | the two guarded `replaceAll` calls equal escaping character by character |
| Markup.EscapePlainText | source/lu/intrasoft/jspwiki/plugin/ColorCodeHTML.java:583-590 | text without `<` and `>` is not changed |
| Markup.UnescapeEscape | source/lu/intrasoft/jspwiki/plugin/ColorCodeHTML.java:583-590 | for text without `&`, unescaping the escaped text gives it back |
| Markup.EscapeNotInjective | source/lu/intrasoft/jspwiki/plugin/ColorCodeHTML.java:583-590 | `&` is not escaped, so `<` and `&lt;` render alike |
| Markup.FoldBeforeEscape | source/lu/intrasoft/jspwiki/plugin/ColorCodeHTML.java:570-590 | the order matters: folding after escaping would turn `&lt;` into `&LT;` |
| Markup.FlagSpellings | source/lu/intrasoft/jspwiki/plugin/ColorCodeHTML.java:549-568 | bold and italic flags are `true` in any letter case; `yes`, the empty string and null are false |
| Markup.ActiveTags | source/lu/intrasoft/jspwiki/plugin/ColorCodeHTML.java:549-568 | one tag per flag that is on |
| Markup.RenderTokenNests | source/lu/intrasoft/jspwiki/plugin/ColorCodeHTML.java:545-603 | a token is the font opening, its style tags nested around the folded and escaped text and closed in reverse order, then the font end |
| Markup.RenderTokenEscapesText | source/lu/intrasoft/jspwiki/plugin/ColorCodeHTML.java:545-603 | whatever the configuration, the token's text contributes no `<` or `>` |
| Markup.MakeIndent | source/lu/intrasoft/jspwiki/plugin/ColorCodeHTML.java:510-532 | an indent is the space string repeated `level` times, whether cached or built; it fails exactly outside 0..99 |
| Markup.Blank | source/lu/intrasoft/jspwiki/plugin/ColorCodeHTML.java:327-355 | a blank fails exactly when its width is outside 0..99 |
| Keywords.Entries | source/lu/intrasoft/jspwiki/plugin/ColorCodeHTML.java:413-431 | a missing or empty list adds nothing; entries hold no comma and are lower case when keywords ignore case |
| Keywords.EntriesListed | source/lu/intrasoft/jspwiki/plugin/ColorCodeHTML.java:413-431 | a non-empty word is entered exactly when it is a field of the list |
| Keywords.EntriesListedIgnoringCase | source/lu/intrasoft/jspwiki/plugin/ColorCodeHTML.java:413-431 | a non-empty word is entered lower-cased exactly when some field equals it ignoring case |
| Keywords.KeywordIffListed | source/lu/intrasoft/jspwiki/plugin/ColorCodeHTML.java:289-299 | with case-sensitive keywords, a non-empty word is a keyword exactly when it is a field of the bundle's list or of the final list |
| Keywords.KeywordIffListedIgnoringCase | source/lu/intrasoft/jspwiki/plugin/ColorCodeHTML.java:289-299 | with case-insensitive keywords, a word is a keyword exactly when it equals a field of either list ignoring case |
| Keywords.MixedCaseKeyword | source/lu/intrasoft/jspwiki/plugin/ColorCodeHTML.java:289-299 | "While" in the list makes "WHILE" a keyword only when keywords ignore case |
| Specials.OverlapIsOneKey | source/lu/intrasoft/jspwiki/plugin/ColorCodeHTML.java:163-166 | the only pattern key too short to cut a name from is `colorcode.special.pattern` |
| Specials.NameOf | source/lu/intrasoft/jspwiki/plugin/ColorCodeHTML.java:166 | the name cut from a pattern key rebuilds the key between prefix and suffix |
| Specials.StyleDefaults | source/lu/intrasoft/jspwiki/plugin/ColorCodeHTML.java:770-772 | each backfilled style key gets the default of its own suffix |
| Specials.LoadSpecials | source/lu/intrasoft/jspwiki/plugin/ColorCodeHTML.java:155-191 | loading fails exactly on a key lowering to `colorcode.special.pattern`; otherwise a name is registered exactly when some key lowers to its pattern key, with the value of the lower-cased key |
| Specials.LoadSpecialsOverlap | source/lu/intrasoft/jspwiki/plugin/ColorCodeHTML.java:160-166 | `load_specials` completes exactly when no key lower-cases to a pattern key too short to cut a name from |
| Specials.LoadSpecialsPlain | source/lu/intrasoft/jspwiki/plugin/ColorCodeHTML.java:160-181 | properties with no special key register nothing and do not fail |
| Specials.NamesAreKeys | source/lu/intrasoft/jspwiki/plugin/ColorCodeHTML.java:160-166 | the registered names are exactly those of the keys that lower-case to a pattern key |
| Specials.LoadSpecialsKeeps | source/lu/intrasoft/jspwiki/plugin/ColorCodeHTML.java:169-189 | a property already present keeps its value |
| Specials.LoadSpecialsAddsOnlyStyles | source/lu/intrasoft/jspwiki/plugin/ColorCodeHTML.java:169-180 | every added key is a colour, bold or italic key of a registered name, with that suffix's default |
| Specials.LoadSpecialsStyled | source/lu/intrasoft/jspwiki/plugin/ColorCodeHTML.java:169-180 | every registered name ends up with all three style keys, the missing ones holding the defaults |
| Specials.LoadSpecialsOutsideFamily | source/lu/intrasoft/jspwiki/plugin/ColorCodeHTML.java:183-189 | a key outside the special family reads the same after loading |
| Specials.FirstSpecial | source/lu/intrasoft/jspwiki/plugin/ColorCodeHTML.java:373-406 | no special exactly when no registered pattern qualifies; a chosen name qualifies: non-empty pattern, full match, `^` only at a line start |
| Specials.FirstSpecialAt | source/lu/intrasoft/jspwiki/plugin/ColorCodeHTML.java:381-402 | the chosen name is the first qualifying one in iteration order |
| Specials.SpecialOrderIndependent | source/lu/intrasoft/jspwiki/plugin/ColorCodeHTML.java:381-402 | whether a word is special does not depend on the map's order; its class depends on it only when several patterns qualify |
| Specials.AnchoredNeedsLineStart | source/lu/intrasoft/jspwiki/plugin/ColorCodeHTML.java:393-398 | away from a line start, `^`-anchored patterns never apply |
| Engine.ClassifyPrecedence | source/lu/intrasoft/jspwiki/plugin/ColorCodeHTML.java:289-311 | a word is a keyword exactly when listed; it is normal exactly when no special qualifies; otherwise it takes the class of a qualifying special |
| Engine.Step | source/lu/intrasoft/jspwiki/plugin/ColorCodeHTML.java:267-361 | only an end of line starts a line and emits a break, plus a label and a 32-bit increment when numbering; any other token is one piece |
| Engine.SpaceRun | source/lu/intrasoft/jspwiki/plugin/ColorCodeHTML.java:327-346 | the run of spaces is maximal: all counted tokens are spaces and the next is not |
| Engine.SpaceRunBlank | source/lu/intrasoft/jspwiki/plugin/ColorCodeHTML.java:327-350 | a maximal run of n spaces becomes exactly one blank of width n, and the next token is processed off the line start |
| Engine.TabIsSpaces | source/lu/intrasoft/jspwiki/plugin/ColorCodeHTML.java:352-355 | a tab renders like a run of `tabsize` spaces |
| Engine.BareQuoteIsNull | source/lu/intrasoft/jspwiki/plugin/ColorCodeHTML.java:322-326 | a quote token without string value renders as the string `'null'` |
| Engine.WalkAppend | source/lu/intrasoft/jspwiki/plugin/ColorCodeHTML.java:235-251 | processing two token runs one after the other is processing their concatenation, when the cut does not split a run of spaces |
| Engine.WalkLineStart | source/lu/intrasoft/jspwiki/plugin/ColorCodeHTML.java:270-320 | after any tokens, the line-start flag is set exactly when the last token was an end of line |
| Engine.WordAfter | source/lu/intrasoft/jspwiki/plugin/ColorCodeHTML.java:270-311 | a word is one piece whose class sees the line start left by the tokens before it |
| Engine.WalkBreaks | source/lu/intrasoft/jspwiki/plugin/ColorCodeHTML.java:313-320 | there is one line break per end of line |
| Engine.WalkLabels | source/lu/intrasoft/jspwiki/plugin/ColorCodeHTML.java:313-320 | with numbering on and no 32-bit overflow, the labels count up consecutively, one per end of line |
| Engine.WalkUnnumbered | source/lu/intrasoft/jspwiki/plugin/ColorCodeHTML.java:313-320 | with numbering off no label appears and the line number never changes |
| Engine.BodyLabels | source/lu/intrasoft/jspwiki/plugin/ColorCodeHTML.java:226-254 | a numbered body carries labels from the start value, one more than its ends of line; an unnumbered body carries none |
| Engine.LabelsAppend | source/lu/intrasoft/jspwiki/plugin/ColorCodeHTML.java:226-254 | labels and breaks of concatenated output are those of the parts |
| Engine.PieceHtml | source/lu/intrasoft/jspwiki/plugin/ColorCodeHTML.java:313-358 | a piece fails exactly when it is a blank outside the indent table |
| Engine.Html | source/lu/intrasoft/jspwiki/plugin/ColorCodeHTML.java:226-254 | the body fails exactly when some blank is outside the indent table |
| Engine.HtmlAppend | source/lu/intrasoft/jspwiki/plugin/ColorCodeHTML.java:226-254 | the markup of concatenated pieces is the concatenated markup, and a failure in the first part wins |
| Engine.HtmlFailureStays | source/lu/intrasoft/jspwiki/plugin/ColorCodeHTML.java:235-251 | once a prefix fails, the whole body fails with the same error |
| Engine.Render | source/lu/intrasoft/jspwiki/plugin/ColorCodeHTML.java:226-254 | the loop with its indent cache computes exactly the body's markup |
| HeaderFooter.ClassValue | source/lu/intrasoft/jspwiki/plugin/ColorCodeHTML.java:677-681 | AREA_CLASS is the configured class, or the syntax name up to case when that is missing or empty |
| HeaderFooter.Substitute | source/lu/intrasoft/jspwiki/plugin/ColorCodeHTML.java:667-673 | a missing or empty template gives the empty string |
| HeaderFooter.FillIsReplace | source/lu/intrasoft/jspwiki/plugin/ColorCodeHTML.java:675-710 | the `indexOf` guard before each replacement changes nothing |
| HeaderFooter.FillUnchanged | source/lu/intrasoft/jspwiki/plugin/ColorCodeHTML.java:687-694 | a step leaves the text unchanged exactly when the mark is absent, the value empty, or the value is the mark |
| HeaderFooter.SubstituteNoPlaceholders | source/lu/intrasoft/jspwiki/plugin/ColorCodeHTML.java:667-712 | a template without placeholders comes back unchanged |
| HeaderFooter.SyntaxOnly | source/lu/intrasoft/jspwiki/plugin/ColorCodeHTML.java:703-710 | the template `SYNTAX` becomes the syntax name |
| HeaderFooter.ClassCascades | source/lu/intrasoft/jspwiki/plugin/ColorCodeHTML.java:675-710 | substitution is sequential: an area class reading `SYNTAX` becomes the syntax name |
| HeaderFooter.ClassFallsBack | source/lu/intrasoft/jspwiki/plugin/ColorCodeHTML.java:677-685 | with the class unset, AREA_CLASS becomes the lower-cased syntax name |
| HeaderFooter.EmptyValueStays | source/lu/intrasoft/jspwiki/plugin/ColorCodeHTML.java:687-694 | a placeholder with an empty value stays in the output as is |
| ColorCode.ParamString | source/lu/intrasoft/jspwiki/plugin/ColorCodeHTML.java:85-95 | a parameter read as String fails with a class cast exactly when present and not a String |
| ColorCode.InitialiseAccepts | source/lu/intrasoft/jspwiki/plugin/ColorCodeHTML.java:76-143 | `initialise` completes exactly when `log` and `syntax` are Strings or absent, the tab size and line number the bundle or a parameter sets parse, and no bundle or parameter key lower-cases to `colorcode.special.pattern` |
| ColorCode.MergedParses | source/lu/intrasoft/jspwiki/plugin/ColorCodeHTML.java:128-140 | the default tab size and line number parse, so the merged ones parse exactly when those the bundle or a parameter sets do |
| ColorCode.Configure | source/lu/intrasoft/jspwiki/plugin/ColorCodeHTML.java:117-142 | configuration fails exactly when the tab size or line number does not parse, with the tab size checked first, or when `load_specials` fails; it keeps the syntax name and the registered patterns |
| ColorCode.Format | source/lu/intrasoft/jspwiki/plugin/ColorCodeHTML.java:54-65 | a missing body formats to the empty string, whatever the parameters |
| ColorCode.FormatNeedsAccepts | source/lu/intrasoft/jspwiki/plugin/ColorCodeHTML.java:54-65 | with a body, formatting completes only for parameters `initialise` accepts, and otherwise aborts with the exception of `initialise` |
| ColorCode.TabSizeNumberFormat | source/lu/intrasoft/jspwiki/plugin/ColorCodeHTML.java:126-132 | a tab size that `Integer.valueOf` rejects aborts a call with a body once the casts have passed, before any special key is read |
| ColorCode.ParameterClassCast | source/lu/intrasoft/jspwiki/plugin/ColorCodeHTML.java:85-95 | a non-String `log`, then a non-String `syntax`, aborts every call with a body |
| ColorCode.ConfigurationLayers | source/lu/intrasoft/jspwiki/plugin/ColorCodeHTML.java:81-120 | a key outside the special family reads as the String parameter, else the bundle, else the default |
| ColorCode.MergedLayers | source/lu/intrasoft/jspwiki/plugin/ColorCodeHTML.java:202-215 | merging parameters over bundle over defaults gives that precedence |
| ColorCode.BundleKeywordsSurvive | source/lu/intrasoft/jspwiki/plugin/ColorCodeHTML.java:117-124 | a non-empty word in the bundle's keyword list stays a keyword, in either case mode, even when a parameter replaces the list |
| ColorCode.ConfigureNumbers | source/lu/intrasoft/jspwiki/plugin/ColorCodeHTML.java:126-140 | tabs are 4 wide and numbering is off (-1) when the key is missing or empty; a key holding the decimal text of a 32-bit number sets that number |
| ColorCode.ConfigureKeywords | source/lu/intrasoft/jspwiki/plugin/ColorCodeHTML.java:117-124 | with case-sensitive keywords, a non-empty word is a keyword of the configured environment exactly when it is a field of the saved list or of the final list |
| ColorCode.ConfigureKeywordsIgnoringCase | source/lu/intrasoft/jspwiki/plugin/ColorCodeHTML.java:117-124 | with case-insensitive keywords, a non-empty word is a keyword of the configured environment exactly when a field of either list equals it ignoring case |
| ColorCode.ConfigureKeepsSnapshot | source/lu/intrasoft/jspwiki/plugin/ColorCodeHTML.java:117-124 | every non-empty word of the keyword list saved before the parameters is a keyword of the configured environment |
| ColorCode.IgnoreCaseStable | source/lu/intrasoft/jspwiki/plugin/ColorCodeHTML.java:289-299 | the ignore-case flag read while rendering is the one the keyword set was built with |
| ColorCode.DefaultsNotSpecial | source/lu/intrasoft/jspwiki/plugin/ColorCodeHTML.java:458-507 | no default key belongs to the special family, in any letter case |
| ColorCode.ConfigurePlain | source/lu/intrasoft/jspwiki/plugin/ColorCodeHTML.java:126-142 | tab size 4, line number -1, no keyword list and no special key configure exactly that |
| ColorCode.NoParameters | source/lu/intrasoft/jspwiki/plugin/ColorCodeHTML.java:76-143 | without parameters or bundle, the syntax is `colorcode`, tabs are 4, numbering is off, and there are no keywords or specials |
| ColorCode.SpecialsAnyOrder | source/lu/intrasoft/jspwiki/plugin/ColorCodeHTML.java:381-402 | the specials map's order does not change what is registered or whether a word is special |

## Left out

- Scanning itself: the `StreamTokenizer` that turns the trimmed body into
  tokens is the parameter `scan` of `ColorCode.Format`. Only the configuration
  calls it receives are modelled. Its `IOException` path is not modelled.
- Logging through log4j and the `log` parameter's value have no effect on the
  output and are not modelled. Only the cast of the parameter is.
- `ResourceBundle.getBundle` is the parameter `resolve`. A missing bundle is
  `None`, which the source catches and ignores.
- `String.matches`, a regular-expression engine, is the parameter `matches`.
  It is a total function, so the `PatternSyntaxException` that a malformed
  special pattern (say `colorcode.special.x.pattern=(`) raises when a word is
  tested is not modelled. In Java that exception aborts the call.
- `replaceAll` is modelled as a literal replacement. Values holding `$` or `\`
  would be read as group references by Java.
- Case mapping, digit values and `trim` are ASCII-only. Non-ASCII letters are
  outside the model.
- Characters are Unicode scalar values, not UTF-16 units. For a character
  outside the Basic Multilingual Plane, `parse_char_code` in Java reads a
  surrogate where the model reads the whole code point, above 0xFFFF.
- `StreamTokenizer.nval` is a `double`. A number token carries the integer
  value the source prints through `longValue`.
- `HashMap` iteration order is the parameter `enumerate`. `ColorCode.Format`
  does not require it to list each registered name once; only
  `ColorCode.SpecialsAnyOrder` does.
- Parameter maps with non-String keys are not modelled; the keys are strings.
- The `ColorCodePlugin` wrapper that creates a fresh `ColorCodeHTML` per call
  is not part of this model. Each call therefore starts with fresh state.
- Engine.TabIsSpaces: proved only for a tab size of at least 1. A tab size of 0
  gives an empty blank where zero spaces give no blank at all.
- Engine.WalkLabels: stated only while the line numbers stay within 32 bits.
  The wrap-around itself is modelled in `Engine.Step`.
