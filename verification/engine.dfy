/** `process_body` and `process_token`: the token stream is folded into a
    sequence of pieces, threading the line-start flag and the line counter,
    and each piece becomes markup. A run of spaces is merged into one piece,
    the token that ends the run being pushed back and processed next. */
module Engine {
  import opened Base
  import opened Strings
  import opened Props
  import opened Settings
  import opened Markup
  import opened Keywords
  import opened Specials

  /** `StreamTokenizer.TT_NUMBER`, `TT_WORD` and `TT_EOL`. */
  const TtNumber := -2
  const TtWord := -3
  const TtEol := 10

  /** A token as the tokenizer delivers it. */
  datatype Token =
      /** a number; the payload is `nval` already truncated by `longValue` */
    | Number(n: int)
      /** a word, with its text in `sval` */
    | Word(text: string)
      /** a quoted string: the quote character and the text between */
    | Quote(delim: char, text: string)
      /** an end of line, when end of line is significant */
    | Eol
      /** an ordinary character; `sval` is null */
    | Char(c: char)

  /** The `int` that `nextToken` returns, which `process_token` switches on. */
  function Code(t: Token): int {
    match t
    case Number(_) => TtNumber
    case Word(_) => TtWord
    case Quote(d, _) => d as int
    case Eol => TtEol
    case Char(c) => c as int
  }

  predicate IsSpace(t: Token) { Code(t) == ' ' as int }
  predicate IsEol(t: Token) { Code(t) == TtEol }

  /** `sval` of a quote-coded token: the quoted text, or `null` for an
      ordinary quote character, which concatenation spells "null". */
  function QuotedText(t: Token): string {
    match t
    case Quote(_, s) => s
    case _ => "null"
  }

  /** A unit of output. */
  datatype Piece =
      /** `render_token(cls, text)` */
    | Styled(cls: string, text: string)
      /** a line number, rendered as a number followed by the space glyph */
    | Label(n: int)
      /** `width` space glyphs against the background colour */
    | Blank(width: int)
      /** the newline markup and a line feed */
    | Break

  /** The formatter's state after `initialise`: the final properties, the
      keyword set, the ignore-case flag, the registered specials with the
      iteration order of their map, the full-match predicate and the tab
      size. */
  datatype Env = Env(props: Properties, keywords: set<string>, ignoreCase: bool,
                     patterns: map<string, Option<string>>, order: seq<string>,
                     matches: (string, string) -> bool, tabSize: int)

  /** `start_of_line` and `line_number`. */
  datatype LineState = LineState(lineStart: bool, lineNo: int)

  datatype Walked = Walked(pieces: seq<Piece>, state: LineState)

  /** Line numbering is on while the counter is above -1. */
  predicate Numbering(lineNo: int) { lineNo > -1 }

  /** The class a word renders with: keyword before special before normal. */
  function Classify(env: Env, w: string, lineStart: bool): string {
    if IsKeyword(env.keywords, env.ignoreCase, w) then KeywordClass
    else
      match FirstSpecial(env.order, env.patterns, env.matches, w, lineStart)
      case Some(name) => SpecialPrefix + name
      case None => NormalClass
  }

  /** A keyword is a keyword wherever it stands; a word that is not one gets
      the class of a qualifying special pattern if there is one and is
      normal otherwise. */
  lemma ClassifyPrecedence(env: Env, w: string, lineStart: bool)
    ensures Classify(env, w, lineStart) == KeywordClass <==> IsKeyword(env.keywords, env.ignoreCase, w)
    ensures Classify(env, w, lineStart) == NormalClass
            <==> !IsKeyword(env.keywords, env.ignoreCase, w)
                 && forall i :: 0 <= i < |env.order| ==>
                      !Qualifies(env.patterns, env.matches, env.order[i], w, lineStart)
    ensures Classify(env, w, lineStart) != KeywordClass && Classify(env, w, lineStart) != NormalClass ==>
              exists name :: name in env.order && Classify(env, w, lineStart) == SpecialPrefix + name
                             && Qualifies(env.patterns, env.matches, name, w, lineStart)
  {
    var r := FirstSpecial(env.order, env.patterns, env.matches, w, lineStart);
    if r.Some? {
      assert (SpecialPrefix + r.value)[10] == 's';
    }
  }

  /** `process_token` for a token that does not start a run of spaces. */
  function Step(env: Env, t: Token, st: LineState): (r: Walked)
    requires !IsSpace(t)
    ensures r.state.lineStart <==> IsEol(t)
    ensures r.state.lineNo == if IsEol(t) && Numbering(st.lineNo) then Inc32(st.lineNo) else st.lineNo
    ensures IsEol(t) ==> r.pieces == [Break] + (if Numbering(st.lineNo) then [Label(st.lineNo)] else [])
    ensures !IsEol(t) ==> |r.pieces| == 1 && !r.pieces[0].Label? && !r.pieces[0].Break?
  {
    var code := Code(t);
    var next := LineState(false, st.lineNo);
    if t.Number? then Walked([Styled(NumberClass, IntToString(t.n))], next)
    else if t.Word? then Walked([Styled(Classify(env, t.text, st.lineStart), t.text)], next)
    else if code == TtEol then
      if Numbering(st.lineNo) then Walked([Break, Label(st.lineNo)], LineState(true, Inc32(st.lineNo)))
      else Walked([Break], LineState(true, st.lineNo))
    else if code == '\'' as int || code == '"' as int then
      Walked([Styled(StringClass, [code as char] + QuotedText(t) + [code as char])], next)
    else if code == '\t' as int then Walked([Blank(env.tabSize)], next)
    else Walked([Styled(SymbolClass, [code as char])], next)
  }

  /** The length of the run of space-coded tokens at the front. */
  function SpaceRun(toks: seq<Token>): (n: nat)
    ensures n <= |toks|
    ensures forall i :: 0 <= i < n ==> IsSpace(toks[i])
    ensures n < |toks| ==> !IsSpace(toks[n])
    decreases |toks|
  {
    if |toks| == 0 || !IsSpace(toks[0]) then 0 else 1 + SpaceRun(toks[1..])
  }

  /** The token loop of `process_body`, from state `st`. */
  function Walk(env: Env, toks: seq<Token>, st: LineState): Walked
    decreases |toks|
  {
    if |toks| == 0 then Walked([], st)
    else if IsSpace(toks[0]) then
      var n := SpaceRun(toks);
      var rest := Walk(env, toks[n..], LineState(false, st.lineNo));
      Walked([Blank(n)] + rest.pieces, rest.state)
    else
      var first := Step(env, toks[0], st);
      var rest := Walk(env, toks[1..], first.state);
      Walked(first.pieces + rest.pieces, rest.state)
  }

  /** `process_body` on the tokens of the trimmed body: the first line
      number, if numbering is on, then the token loop from the start of a
      line. */
  function Body(env: Env, toks: seq<Token>, lineNo: int): seq<Piece> {
    if Numbering(lineNo) then [Label(lineNo)] + Walk(env, toks, LineState(true, Inc32(lineNo))).pieces
    else Walk(env, toks, LineState(true, lineNo)).pieces
  }

  // ---------------------------------------------------------------------
  // The walk is a fold

  /** Two token sequences may be walked apart unless a run of spaces
      crosses the boundary. */
  predicate Joinable(a: seq<Token>, b: seq<Token>) {
    !(|a| > 0 && |b| > 0 && IsSpace(a[|a| - 1]) && IsSpace(b[0]))
  }

  lemma {:induction false} SpaceRunAppend(a: seq<Token>, b: seq<Token>)
    ensures SpaceRun(a) < |a| ==> SpaceRun(a + b) == SpaceRun(a)
    ensures SpaceRun(a) == |a| ==> SpaceRun(a + b) == |a| + SpaceRun(b)
    decreases |a|
  {
    if |a| == 0 {
      assert a + b == b;
    } else if IsSpace(a[0]) {
      assert (a + b)[1..] == a[1..] + b;
      SpaceRunAppend(a[1..], b);
    }
  }

  /** One turn of the token loop over a run of spaces. */
  lemma WalkSpaces(env: Env, toks: seq<Token>, st: LineState)
    requires |toks| > 0 && IsSpace(toks[0])
    ensures Walk(env, toks, st).pieces
            == [Blank(SpaceRun(toks))] + Walk(env, toks[SpaceRun(toks)..], LineState(false, st.lineNo)).pieces
    ensures Walk(env, toks, st).state == Walk(env, toks[SpaceRun(toks)..], LineState(false, st.lineNo)).state
  {
  }

  /** One turn of the token loop over any other token. */
  lemma WalkStep(env: Env, toks: seq<Token>, st: LineState)
    requires |toks| > 0 && !IsSpace(toks[0])
    ensures Walk(env, toks, st).pieces
            == Step(env, toks[0], st).pieces + Walk(env, toks[1..], Step(env, toks[0], st).state).pieces
    ensures Walk(env, toks, st).state == Walk(env, toks[1..], Step(env, toks[0], st).state).state
  {
  }

  /** Walking a concatenation is walking the first part and then the second
      from the state the first leaves, provided no run of spaces is split. */
  lemma {:induction false} WalkAppend(env: Env, a: seq<Token>, b: seq<Token>, st: LineState)
    requires Joinable(a, b)
    ensures Walk(env, a + b, st).pieces
            == Walk(env, a, st).pieces + Walk(env, b, Walk(env, a, st).state).pieces
    ensures Walk(env, a + b, st).state == Walk(env, b, Walk(env, a, st).state).state
    decreases |a|
  {
    if |a| == 0 {
      assert a + b == b;
    } else if IsSpace(a[0]) {
      WalkAppendSpaces(env, a, b, st);
    } else {
      var s1 := Step(env, a[0], st).state;
      assert (a + b)[0] == a[0];
      assert (a + b)[1..] == a[1..] + b;
      WalkStep(env, a, st);
      WalkStep(env, a + b, st);
      WalkAppend(env, a[1..], b, s1);
    }
  }

  lemma {:induction false} WalkAppendSpaces(env: Env, a: seq<Token>, b: seq<Token>, st: LineState)
    requires Joinable(a, b) && |a| > 0 && IsSpace(a[0])
    ensures Walk(env, a + b, st).pieces
            == Walk(env, a, st).pieces + Walk(env, b, Walk(env, a, st).state).pieces
    ensures Walk(env, a + b, st).state == Walk(env, b, Walk(env, a, st).state).state
    decreases |a|, 0
  {
    var n := SpaceRun(a);
    SpaceRunAppend(a, b);
    var s1 := LineState(false, st.lineNo);
    assert (a + b)[0] == a[0];
    WalkSpaces(env, a, st);
    WalkSpaces(env, a + b, st);
    if n < |a| {
      assert (a + b)[n..] == a[n..] + b;
      WalkAppend(env, a[n..], b, s1);
    } else {
      assert |b| > 0 ==> !IsSpace(b[0]);
      assert SpaceRun(b) == 0;
      assert (a + b)[n..] == b;
      assert a[n..] == [];
    }
  }

  /** Reference for `start_of_line` before the token after `toks`: the
      initial flag when `toks` is empty, otherwise whether its last token
      is an end of line. */
  function LineStartAfter(toks: seq<Token>, initial: bool): bool {
    if |toks| == 0 then initial else IsEol(toks[|toks| - 1])
  }

  /** The walk leaves `start_of_line` set exactly after an end of line:
      every other token, a run of spaces included, clears it. */
  lemma {:induction false} WalkLineStart(env: Env, toks: seq<Token>, st: LineState)
    ensures Walk(env, toks, st).state.lineStart == LineStartAfter(toks, st.lineStart)
    decreases |toks|
  {
    if |toks| > 0 {
      if IsSpace(toks[0]) {
        var n := SpaceRun(toks);
        WalkSpaces(env, toks, st);
        WalkLineStart(env, toks[n..], LineState(false, st.lineNo));
        if n < |toks| {
          assert toks[n..][|toks[n..]| - 1] == toks[|toks| - 1];
        }
      } else {
        WalkStep(env, toks, st);
        WalkLineStart(env, toks[1..], Step(env, toks[0], st).state);
        if |toks| > 1 {
          assert toks[1..][|toks[1..]| - 1] == toks[|toks| - 1];
        }
      }
    }
  }

  /** A word after the tokens `a` renders as one piece, classified with the
      line-start flag `LineStartAfter(a)`: a `^` pattern applies to the first
      word of the body and to a word right after an end of line, and to no
      other. */
  lemma WordAfter(env: Env, a: seq<Token>, w: string, b: seq<Token>, st: LineState)
    ensures Walk(env, a + [Word(w)] + b, st).pieces
            == Walk(env, a, st).pieces
               + [Styled(Classify(env, w, LineStartAfter(a, st.lineStart)), w)]
               + Walk(env, b, LineState(false, Walk(env, a, st).state.lineNo)).pieces
  {
    var sa := Walk(env, a, st).state;
    var wb := [Word(w)] + b;
    assert a + [Word(w)] + b == a + wb;
    WalkAppend(env, a, wb, st);
    WalkLineStart(env, a, st);
    WalkWordFront(env, w, b, sa);
    PiecesAssoc(Walk(env, a, st).pieces, [Styled(Classify(env, w, sa.lineStart), w)],
                Walk(env, b, LineState(false, sa.lineNo)).pieces);
  }

  lemma PiecesAssoc(x: seq<Piece>, y: seq<Piece>, z: seq<Piece>)
    ensures x + (y + z) == x + y + z
  {
  }

  lemma WalkWordFront(env: Env, w: string, b: seq<Token>, st: LineState)
    ensures Walk(env, [Word(w)] + b, st).pieces
            == [Styled(Classify(env, w, st.lineStart), w)] + Walk(env, b, LineState(false, st.lineNo)).pieces
  {
    var wb := [Word(w)] + b;
    assert wb[0] == Word(w) && wb[1..] == b;
    WalkStep(env, wb, st);
    StepWord(env, w, st);
  }

  lemma StepWord(env: Env, w: string, st: LineState)
    ensures Step(env, Word(w), st) == Walked([Styled(Classify(env, w, st.lineStart), w)], LineState(false, st.lineNo))
  {
  }

  /** A maximal run of n space tokens becomes exactly one blank of width n,
      and the token after the run is processed next, off the line start. */
  lemma SpaceRunBlank(env: Env, run: seq<Token>, rest: seq<Token>, st: LineState)
    requires |run| > 0 && forall i :: 0 <= i < |run| ==> IsSpace(run[i])
    requires |rest| > 0 ==> !IsSpace(rest[0])
    ensures Walk(env, run + rest, st).pieces
            == [Blank(|run|)] + Walk(env, rest, LineState(false, st.lineNo)).pieces
  {
    var toks := run + rest;
    assert forall i :: 0 <= i < |run| ==> IsSpace(toks[i]);
    assert SpaceRun(toks) == |run| by {
      SpaceRunAll(run);
      SpaceRunAppend(run, rest);
    }
    assert toks[|run|..] == rest;
  }

  /** `n` space tokens. */
  function Spaces(n: nat): (r: seq<Token>)
    ensures |r| == n && forall i :: 0 <= i < n ==> IsSpace(r[i])
  {
    seq(n, i => Char(' '))
  }

  /** A tab renders exactly as a run of `tab_size` spaces would, when the
      tab size is positive and no space follows. */
  lemma TabIsSpaces(env: Env, rest: seq<Token>, st: LineState)
    requires env.tabSize >= 1
    requires |rest| > 0 ==> !IsSpace(rest[0])
    ensures Walk(env, [Char('\t')] + rest, st).pieces == Walk(env, Spaces(env.tabSize) + rest, st).pieces
  {
    var tab := [Char('\t')] + rest;
    assert tab[0] == Char('\t') && tab[1..] == rest;
    WalkStep(env, tab, st);
    SpaceRunBlank(env, Spaces(env.tabSize), rest, st);
  }

  /** An ordinary quote character, one the tokenizer does not treat as a
      quote, has no `sval`: it renders as the string `'null'`. */
  lemma BareQuoteIsNull(env: Env, st: LineState)
    ensures Step(env, Char('\''), st).pieces == [Styled(StringClass, "'null'")]
  {
    var code := Code(Char('\''));
    assert [code as char] + QuotedText(Char('\'')) + [code as char] == "'null'";
  }

  lemma {:induction false} SpaceRunAll(run: seq<Token>)
    requires forall i :: 0 <= i < |run| ==> IsSpace(run[i])
    ensures SpaceRun(run) == |run|
    decreases |run|
  {
    if |run| > 0 {
      SpaceRunAll(run[1..]);
    }
  }

  // ---------------------------------------------------------------------
  // Line numbers

  /** The number of end-of-line tokens. */
  function Eols(toks: seq<Token>): nat
    decreases |toks|
  {
    if |toks| == 0 then 0 else (if IsEol(toks[0]) then 1 else 0) + Eols(toks[1..])
  }

  /** The line numbers among the pieces, in order. */
  function Labels(ps: seq<Piece>): seq<int>
    decreases |ps|
  {
    if |ps| == 0 then [] else (if ps[0].Label? then [ps[0].n] else []) + Labels(ps[1..])
  }

  /** The number of line breaks among the pieces. */
  function Breaks(ps: seq<Piece>): nat
    decreases |ps|
  {
    if |ps| == 0 then 0 else (if ps[0].Break? then 1 else 0) + Breaks(ps[1..])
  }

  /** `n` consecutive numbers from `start`. */
  function Consecutive(start: int, n: nat): (r: seq<int>)
    ensures |r| == n
  {
    seq(n, i requires 0 <= i < n => start + i)
  }

  lemma ConsecutiveCons(start: int, n: nat)
    ensures [start] + Consecutive(start + 1, n) == Consecutive(start, n + 1)
  {
  }

  lemma {:induction false} EolsAfterSpaces(toks: seq<Token>, n: nat)
    requires n <= |toks| && forall i :: 0 <= i < n ==> IsSpace(toks[i])
    ensures Eols(toks) == Eols(toks[n..])
    decreases n
  {
    if n > 0 {
      EolsAfterSpaces(toks[1..], n - 1);
      assert toks[1..][n - 1..] == toks[n..];
    }
  }

  lemma LabelsAppend(x: seq<Piece>, y: seq<Piece>)
    ensures Labels(x + y) == Labels(x) + Labels(y)
    ensures Breaks(x + y) == Breaks(x) + Breaks(y)
  {
    LabelsConcat(x, y);
    BreaksConcat(x, y);
  }

  lemma {:induction false} LabelsConcat(x: seq<Piece>, y: seq<Piece>)
    ensures Labels(x + y) == Labels(x) + Labels(y)
    decreases |x|
  {
    if |x| == 0 {
      assert x + y == y;
    } else {
      assert (x + y)[0] == x[0];
      assert (x + y)[1..] == x[1..] + y;
      LabelsConcat(x[1..], y);
    }
  }

  lemma {:induction false} BreaksConcat(x: seq<Piece>, y: seq<Piece>)
    ensures Breaks(x + y) == Breaks(x) + Breaks(y)
    decreases |x|
  {
    if |x| == 0 {
      assert x + y == y;
    } else {
      assert (x + y)[0] == x[0];
      assert (x + y)[1..] == x[1..] + y;
      BreaksConcat(x[1..], y);
    }
  }

  /** Every end of line, and nothing else, produces one line break. */
  lemma {:induction false} WalkBreaks(env: Env, toks: seq<Token>, st: LineState)
    ensures Breaks(Walk(env, toks, st).pieces) == Eols(toks)
    decreases |toks|
  {
    if |toks| > 0 {
      if IsSpace(toks[0]) {
        var n := SpaceRun(toks);
        WalkBreaks(env, toks[n..], LineState(false, st.lineNo));
        EolsAfterSpaces(toks, n);
        LabelsAppend([Blank(n)], Walk(env, toks[n..], LineState(false, st.lineNo)).pieces);
      } else {
        var first := Step(env, toks[0], st);
        WalkBreaks(env, toks[1..], first.state);
        LabelsAppend(first.pieces, Walk(env, toks[1..], first.state).pieces);
        if IsEol(toks[0]) && Numbering(st.lineNo) {
          assert first.pieces[1..] == [Label(st.lineNo)];
        }
      }
    }
  }

  /** With numbering on and no overflow, the ends of line emit the numbers
      `lineNo`, `lineNo + 1`, ... in order, one each, and the counter ends
      advanced by their count. */
  lemma {:induction false} WalkLabels(env: Env, toks: seq<Token>, st: LineState)
    requires 0 <= st.lineNo && st.lineNo + Eols(toks) <= MaxInt32
    ensures Labels(Walk(env, toks, st).pieces) == Consecutive(st.lineNo, Eols(toks))
    ensures Walk(env, toks, st).state.lineNo == st.lineNo + Eols(toks)
    decreases |toks|
  {
    if |toks| > 0 {
      if IsSpace(toks[0]) {
        var n := SpaceRun(toks);
        WalkSpaces(env, toks, st);
        EolsAfterSpaces(toks, n);
        WalkLabels(env, toks[n..], LineState(false, st.lineNo));
        LabelsAppend([Blank(n)], Walk(env, toks[n..], LineState(false, st.lineNo)).pieces);
      } else {
        var first := Step(env, toks[0], st);
        var rest := Walk(env, toks[1..], first.state).pieces;
        WalkStep(env, toks, st);
        WalkLabels(env, toks[1..], first.state);
        LabelsAppend(first.pieces, rest);
        if IsEol(toks[0]) {
          assert first.pieces[1..] == [Label(st.lineNo)] && first.pieces[1..][1..] == [];
          assert Labels(first.pieces) == [st.lineNo];
          ConsecutiveCons(st.lineNo, Eols(toks[1..]));
        } else {
          assert first.pieces[1..] == [];
          assert Labels(first.pieces) == [];
        }
      }
    }
  }

  /** With numbering off, no number is emitted and the counter stays. */
  lemma {:induction false} WalkUnnumbered(env: Env, toks: seq<Token>, st: LineState)
    requires !Numbering(st.lineNo)
    ensures Labels(Walk(env, toks, st).pieces) == []
    ensures Walk(env, toks, st).state.lineNo == st.lineNo
    decreases |toks|
  {
    if |toks| > 0 {
      if IsSpace(toks[0]) {
        var n := SpaceRun(toks);
        WalkUnnumbered(env, toks[n..], LineState(false, st.lineNo));
        LabelsAppend([Blank(n)], Walk(env, toks[n..], LineState(false, st.lineNo)).pieces);
      } else {
        var first := Step(env, toks[0], st);
        WalkUnnumbered(env, toks[1..], first.state);
        LabelsAppend(first.pieces, Walk(env, toks[1..], first.state).pieces);
        assert first.pieces[1..] == [];
      }
    }
  }

  /** The body carries one more number than it has ends of line, counting
      up from the configured start; with numbering off it carries none. In
      both cases it has one line break per end of line. */
  lemma BodyLabels(env: Env, toks: seq<Token>, lineNo: int)
    ensures Breaks(Body(env, toks, lineNo)) == Eols(toks)
    ensures 0 <= lineNo && lineNo + Eols(toks) < MaxInt32 ==>
              Labels(Body(env, toks, lineNo)) == Consecutive(lineNo, Eols(toks) + 1)
    ensures !Numbering(lineNo) ==> Labels(Body(env, toks, lineNo)) == []
  {
    if Numbering(lineNo) {
      var st := LineState(true, Inc32(lineNo));
      WalkBreaks(env, toks, st);
      LabelsAppend([Label(lineNo)], Walk(env, toks, st).pieces);
      if lineNo + Eols(toks) < MaxInt32 {
        WalkLabels(env, toks, st);
        ConsecutiveCons(lineNo, Eols(toks));
      }
    } else {
      WalkBreaks(env, toks, LineState(true, lineNo));
      WalkUnnumbered(env, toks, LineState(true, lineNo));
    }
  }

  // ---------------------------------------------------------------------
  // Markup

  /** The markup of one piece. A blank outside the 100-slot indentation
      cache raises an exception. */
  function PieceHtml(p: Properties, piece: Piece): (r: Result<string>)
    ensures r.Failure? <==> piece.Blank? && !(0 <= piece.width < IndentSlots)
  {
    match piece
    case Styled(cls, v) => Success(RenderToken(p, cls, v))
    case Label(n) => Success(RenderToken(p, NumberClass, IntToString(n) + Text(Get(p, SpaceKey))))
    case Blank(w) => Markup.Blank(p, w)
    case Break => Success(Text(Get(p, NewlineKey)) + "\n")
  }

  /** Concatenation of two partial outputs: the first exception wins. */
  function Then(x: Result<string>, y: Result<string>): Result<string> {
    if x.Failure? then x else if y.Failure? then y else Success(x.value + y.value)
  }

  lemma ThenAssoc(x: Result<string>, y: Result<string>, z: Result<string>)
    ensures Then(Then(x, y), z) == Then(x, Then(y, z))
  {
    if x.Success? && y.Success? && z.Success? {
      assert x.value + y.value + z.value == x.value + (y.value + z.value);
    }
  }

  /** The markup of a sequence of pieces, appended in order. */
  function Html(p: Properties, ps: seq<Piece>): (r: Result<string>)
    ensures r.Failure? <==> exists i :: 0 <= i < |ps| && ps[i].Blank? && !(0 <= ps[i].width < IndentSlots)
    decreases |ps|
  {
    if |ps| == 0 then Success("")
    else
      var init := ps[..|ps| - 1];
      assert forall i :: 0 <= i < |init| ==> init[i] == ps[i];
      Then(Html(p, init), PieceHtml(p, ps[|ps| - 1]))
  }

  /** The markup of a concatenation is the concatenation of the markups. */
  lemma {:induction false} HtmlAppend(p: Properties, x: seq<Piece>, y: seq<Piece>)
    ensures Html(p, x + y) == Then(Html(p, x), Html(p, y))
    decreases |y|
  {
    if |y| == 0 {
      assert x + y == x;
      if Html(p, x).Success? {
        assert Html(p, x).value + "" == Html(p, x).value;
      }
    } else {
      var y' := y[..|y| - 1];
      assert (x + y)[..|x + y| - 1] == x + y';
      assert (x + y)[|x + y| - 1] == y[|y| - 1];
      HtmlAppend(p, x, y');
      ThenAssoc(Html(p, x), Html(p, y'), PieceHtml(p, y[|y| - 1]));
    }
  }

  /** Once a prefix has failed, the whole fails the same way. */
  lemma {:induction false} HtmlFailureStays(p: Properties, ps: seq<Piece>, k: nat)
    requires k <= |ps| && Html(p, ps[..k]).Failure?
    ensures Html(p, ps) == Html(p, ps[..k])
  {
    var x, y := ps[..k], ps[k..];
    assert x + y == ps;
    HtmlAppend(p, x, y);
  }

  lemma HtmlStep(p: Properties, ps: seq<Piece>, i: nat)
    requires i < |ps|
    ensures Html(p, ps[..i + 1]) == Then(Html(p, ps[..i]), PieceHtml(p, ps[i]))
  {
    assert ps[..i + 1][..i] == ps[..i];
  }

  /** The output assembly of `process_body` with `make_indent`'s cache:
      the blanks of equal width share one cached string. The cache never
      changes the output. */
  method Render(p: Properties, ps: seq<Piece>) returns (r: Result<string>)
    ensures r == Html(p, ps)
  {
    var space := Text(Get(p, SpaceKey));
    var cache: map<int, string> := map[];
    var out := "";
    var i := 0;
    while i < |ps|
      invariant 0 <= i <= |ps|
      invariant CacheSound(cache, space)
      invariant Html(p, ps[..i]) == Success(out)
    {
      var piece := ps[i];
      HtmlStep(p, ps, i);
      if piece.Blank? {
        var indent, cache' := MakeIndent(cache, space, piece.width);
        if indent.Failure? {
          HtmlFailureStays(p, ps, i + 1);
          return Failure(indent.error);
        }
        cache := cache';
        out := out + ("<font color=\"" + Text(Get(p, AreaBgColorKey)) + "\">" + indent.value
                      + Text(Get(p, FontColorEndKey)));
      } else {
        out := out + PieceHtml(p, piece).value;
      }
      i := i + 1;
    }
    assert ps[..|ps|] == ps;
    return Success(out);
  }
}
