/** The configuration keys of `ColorCodeHTML` and the hard-coded defaults
    that form the bottom layer of every configuration. */
module Settings {
  import opened Base
  import opened Props

  const KeywordsKey := "colorcode.keywords"
  const StartKey := "colorcode.start"
  const FinishKey := "colorcode.finish"
  const AreaClassKey := "colorcode.area.class"
  const AreaBgColorKey := "colorcode.area.bgcolor"
  const AreaBorderKey := "colorcode.area.border"
  const KeywordIgnoreCaseKey := "colorcode.keyword.ignorecase"
  const FontColorEndKey := "colorcode.font.color.end"
  const BoldOnKey := "colorcode.font.bold.on"
  const BoldOffKey := "colorcode.font.bold.off"
  const ItalicOnKey := "colorcode.font.italic.on"
  const ItalicOffKey := "colorcode.font.italic.off"
  const NewlineKey := "colorcode.newline"
  const SpaceKey := "colorcode.space"
  const TabSizeKey := "colorcode.tabsize"
  const LineNumberKey := "colorcode.line.number"

  /** The token classes `render_token` is called with; each names the
      `.font.color`, `.font.bold`, `.font.italic` and `.foldcase` keys. */
  const NormalClass := "colorcode.normal"
  const KeywordClass := "colorcode.keyword"
  const SymbolClass := "colorcode.symbol"
  const StringClass := "colorcode.string"
  const NumberClass := "colorcode.number"
  const CommentClass := "colorcode.comment"

  /** The markup placed before the formatted code. */
  const DefaultStart: string :=
    "<!-- ColorCodeHTML, syntax=SYNTAX: START of automatically generated HTML code -->\n"
    + "<div align=\"left\" class=\"AREA_CLASS\">\n"
    + "  <table class=\"wikitable\" border=\"AREA_BORDER\" cellpadding=\"3\" cellspacing=\"0\" bgcolor=\"AREA_BGCOLOR\">\n"
    + "    <tr>\n"
    + "      <!-- start colorized source code -->\n"
    + "      <td nowrap=\"nowrap\" valign=\"top\" align=\"left\">\n"
    + "        <code style=\"white-space: pre; margin: 1.5em 2em 1.8em 2em; font-size: 1.2em; background: AREA_BGCOLOR;\">\n"

  /** The markup placed after the formatted code. */
  const DefaultFinish: string :=
    "</code>\n"
    + "      </td>\n"
    + "      <!-- end colorized source code -->\n"
    + "    </tr>\n"
    + "  </table>\n"
    + "</div>\n"
    + "<!-- ColorCodeHTML: END of automatically generated HTML code -->\n"

  /** `default_properties()`: 35 entries. There is no keyword list, no
      special pattern and no foldcase for strings, symbols or numbers. */
  function DefaultProperties(): Properties {
    map[AreaClassKey := "body",
        AreaBorderKey := "1",
        AreaBgColorKey := "#f0f7f0",
        StartKey := DefaultStart,
        FinishKey := DefaultFinish,
        "colorcode.string.font.color" := "#2a00ff",
        "colorcode.string.font.bold" := "false",
        "colorcode.string.font.italic" := "false",
        "colorcode.keyword.font.color" := "#7f0055",
        "colorcode.keyword.font.bold" := "true",
        "colorcode.keyword.font.italic" := "false",
        "colorcode.keyword.foldcase" := "no",
        KeywordIgnoreCaseKey := "true",
        "colorcode.symbol.font.color" := "#000000",
        "colorcode.symbol.font.bold" := "true",
        "colorcode.symbol.font.italic" := "false",
        "colorcode.normal.font.color" := "#000000",
        "colorcode.normal.font.bold" := "false",
        "colorcode.normal.font.italic" := "false",
        "colorcode.normal.foldcase" := "no",
        "colorcode.number.font.color" := "#800000",
        "colorcode.number.font.bold" := "false",
        "colorcode.number.font.italic" := "false",
        "colorcode.comment.font.color" := "#3f7f5f",
        "colorcode.comment.font.bold" := "false",
        "colorcode.comment.font.italic" := "true",
        FontColorEndKey := "</font>",
        BoldOnKey := "<b>",
        BoldOffKey := "</b>",
        ItalicOnKey := "<i>",
        ItalicOffKey := "</i>",
        NewlineKey := "<br/>",
        SpaceKey := "&nbsp;",
        TabSizeKey := "4",
        LineNumberKey := "-1"]
  }

  /** The defaults a formatter with no other configuration runs on: the
      "body" area class, the "&nbsp;" space glyph, tabs of four, line
      numbering off, case-insensitive keywords and an empty keyword list. */
  lemma DefaultsRead()
    ensures Get(DefaultProperties(), AreaClassKey) == Some("body")
    ensures Get(DefaultProperties(), SpaceKey) == Some("&nbsp;")
    ensures Get(DefaultProperties(), TabSizeKey) == Some("4")
    ensures Get(DefaultProperties(), LineNumberKey) == Some("-1")
    ensures Get(DefaultProperties(), KeywordIgnoreCaseKey) == Some("true")
    ensures Get(DefaultProperties(), KeywordsKey) == None
  {
  }
}
