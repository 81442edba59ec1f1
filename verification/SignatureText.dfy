/**
  * The text of annotations and defaults as a small syntax tree: words, symbols, quoted strings, balanced bracket
  * groups and `lambda` headers. The scanner is proved against this tree, which knows nothing about scanning.
  */
module SignatureText {
  import opened Wrappers
  import opened SignatureScanner

  datatype Bracket = Round | Square | Curly {
    function Open(): char {
      match this case Round => '(' case Square => '[' case Curly => '{'
    }
    function Close(): char {
      match this case Round => ')' case Square => ']' case Curly => '}'
    }
  }

  datatype StringChar = Literal(c: char) | Escape(c: char)

  datatype Piece =
    | Word(text: string)
    | Symbol(c: char)
    | Quoted(quote: char, body: seq<StringChar>)
    | Group(bracket: Bracket, inner: seq<Piece>)
    | Lambda(params: seq<Piece>)

  function RenderBody(body: seq<StringChar>): string {
    if body == [] then []
    else (match body[0] case Literal(c) => [c] case Escape(c) => ['\\', c]) + RenderBody(body[1..])
  }

  function RenderPiece(p: Piece): string
    decreases p, 0
  {
    match p
    case Word(text) => text
    case Symbol(c) => [c]
    case Quoted(q, body) => [q] + RenderBody(body) + [q]
    case Group(b, inner) => [b.Open()] + Render(inner) + [b.Close()]
    case Lambda(params) => LAMBDA + Render(params) + ":"
  }

  function Render(ps: seq<Piece>): string
    decreases ps, 1
  {
    if ps == [] then [] else RenderPiece(ps[0]) + Render(ps[1..])
  }

  predicate StartsWithWord(p: Piece) { p.Word? || p.Lambda? }

  predicate IsWord(text: string) {
    text != [] && text != LAMBDA && forall c | c in text :: IsWordChar(c)
  }

  /** A piece as the tokenizer of the language would cut it; a `lambda` header holds no bare colon before its own. */
  predicate FitsPiece(p: Piece, inLambda: bool)
    decreases p, 0
  {
    match p
    case Word(text) => IsWord(text)
    case Symbol(c) => !IsWordChar(c) && !IsQuote(c) && !IsOpen(c) && !IsClose(c) && (inLambda ==> c != ':')
    case Quoted(q, body) => IsQuote(q) && forall b | b in body && b.Literal? :: b.c != q && b.c != '\\'
    case Group(_, inner) => Fits(inner, false, false)
    case Lambda(params) => Fits(params, true, true)
  }

  /** Pieces in sequence, no two words touching. */
  predicate Fits(ps: seq<Piece>, afterWord: bool, inLambda: bool)
    decreases ps, 1
  {
    ps == [] ||
    (FitsPiece(ps[0], inLambda) && !(afterWord && StartsWithWord(ps[0])) && Fits(ps[1..], ps[0].Word?, inLambda))
  }

  predicate EndsWithWord(ps: seq<Piece>, afterWord: bool) {
    if ps == [] then afterWord else ps[|ps| - 1].Word?
  }

  lemma {:induction false} FitsConcatenation(ps: seq<Piece>, qs: seq<Piece>, afterWord: bool, inLambda: bool)
    requires Fits(ps, afterWord, inLambda) && Fits(qs, EndsWithWord(ps, afterWord), inLambda)
    ensures Fits(ps + qs, afterWord, inLambda)
  {
    if ps == [] {
      assert ps + qs == qs;
    } else {
      FitsConcatenation(ps[1..], qs, ps[0].Word?, inLambda);
      assert (ps + qs)[1..] == ps[1..] + qs;
    }
  }

  lemma {:induction false} RenderConcatenation(ps: seq<Piece>, qs: seq<Piece>)
    ensures Render(ps + qs) == Render(ps) + Render(qs)
  {
    hide RenderPiece;
    if ps == [] {
      assert ps + qs == qs;
    } else {
      RenderConcatenation(ps[1..], qs);
      assert (ps + qs)[1..] == ps[1..] + qs && (ps + qs)[0] == ps[0];
      assert Render(ps + qs) == RenderPiece(ps[0]) + Render(ps[1..] + qs);
    }
  }

  lemma RenderSingle(p: Piece)
    ensures Render([p]) == RenderPiece(p)
  {
    assert [p][1..] == [];
  }

  /** What the mask ought to be: true at the words and symbols that stand outside every string, group and header. */
  function OutlinePiece(p: Piece): seq<bool> {
    Repeat(p.Word? || p.Symbol?, |RenderPiece(p)|)
  }

  function Outline(ps: seq<Piece>): seq<bool> {
    if ps == [] then [] else OutlinePiece(ps[0]) + Outline(ps[1..])
  }

  // ----- The scanner agrees with the tree

  /** What the scan of a piece gives in state `st`: nothing is marked unless the scan is at top level. */
  ghost predicate Scans(afterWord: bool, text: string, st: State, outline: seq<bool>) {
    EndState(afterWord, text, st) == st
    && MaskFrom(afterWord, text, st) == if st == START then outline else Repeat(false, |text|)
  }

  ghost predicate AtPiece(st: State, inLambda: bool) {
    st.quote.None? && st.skip == 0 && st.depth >= 0 && (st.depth == 0 && st.lambdas > 0 ==> inLambda)
  }

  lemma ScansConcatenation(afterWord: bool, x: string, y: string, st: State, outX: seq<bool>, outY: seq<bool>)
    requires WordSeam(x, y) && |outX| == |x|
    requires Scans(afterWord, x, st, outX) && Scans(AfterWord(afterWord, x), y, st, outY)
    ensures Scans(afterWord, x + y, st, outX + outY)
  {
    EndStateOfConcatenation(afterWord, x, y, st);
    MaskOfConcatenation(afterWord, x, y, st);
  }

  lemma PieceEnds(p: Piece, inLambda: bool)
    requires FitsPiece(p, inLambda)
    ensures var t := RenderPiece(p);
      t != [] && (IsWordChar(t[0]) <==> StartsWithWord(p)) && (IsWordChar(t[|t| - 1]) <==> p.Word?)
  {
  }

  lemma {:induction false} ScanWord(afterWord: bool, w: string, st: State)
    requires forall c | c in w :: IsWordChar(c)
    requires afterWord || w != LAMBDA
    requires st.quote.None? && st.skip == 0
    ensures Scans(afterWord, w, st, Repeat(true, |w|))
    decreases |w|
  {
    if w != [] {
      assert IsWordChar(w[0]);
      if LAMBDA <= w && |w| > 6 {
        assert w[6] in w;
      }
      assert !StartsLambda(afterWord, w);
      assert Next(w[0], false, st) == st;
      ScanWord(true, w[1..], st);
    }
  }

  lemma {:induction false} ScanBody(afterWord: bool, body: seq<StringChar>, q: char, st: State)
    requires IsQuote(q) && st.quote == Some(q) && st.skip == 0
    requires forall b | b in body && b.Literal? :: b.c != q && b.c != '\\'
    ensures Scans(afterWord, RenderBody(body), st, [])
    decreases |body|
  {
    if body != [] {
      var t := RenderBody(body);
      var rest := RenderBody(body[1..]);
      assert body[0] in body;
      match body[0] {
        case Literal(c) =>
          assert t == [c] + rest && t[1..] == rest;
          ScanBody(IsWordChar(c), body[1..], q, st);
        case Escape(c) =>
          assert t == ['\\', c] + rest && t[1..] == [c] + rest && t[1..][1..] == rest;
          ScanBody(IsWordChar(c), body[1..], q, st);
          var skipping := st.(skip := 1);
          assert MaskFrom(false, [c] + rest, skipping) == [false] + MaskFrom(IsWordChar(c), rest, st);
      }
    }
  }

  /** A text framed by an opener that leaves state `inside`, a body that keeps it, and a closer that restores `st`. */
  lemma ScanFramed(afterWord: bool, o: char, body: string, c: char, st: State, inside: State)
    requires !IsWordChar(o) && !IsWordChar(c) && st.skip == 0
    requires IsQuote(o) || IsOpen(o)
    requires Next(o, false, st) == inside != START && Next(c, false, inside) == st
    requires Scans(false, body, inside, [])
    ensures Scans(afterWord, [o] + body + [c], st, Repeat(false, |body| + 2))
  {
    var t := [o] + body + [c];
    assert t[1..] == body + [c];
    assert !StartsLambda(afterWord, t) by { assert LAMBDA[0] != o; }
    EndStateOfConcatenation(false, body, [c], inside);
    MaskOfConcatenation(false, body, [c], inside);
    var after := AfterWord(false, body);
    assert [c][1..] == [];
    assert !StartsLambda(after, [c]);
    assert EndState(after, [c], inside) == st;
    assert MaskFrom(after, [c], inside) == [false];
  }

  /** Six steps over the keyword: it opens a header at depth 0 and is plain text anywhere deeper. */
  lemma ScanKeyword(y: string, st: State)
    requires y != [] && !IsWordChar(y[0])
    requires st.quote.None? && st.skip == 0
    ensures var inside := if st.depth == 0 then st.(lambdas := st.lambdas + 1) else st;
      && EndState(false, LAMBDA + y, st) == EndState(true, y, inside)
      && MaskFrom(false, LAMBDA + y, st) == Repeat(false, 6) + MaskFrom(true, y, inside)
  {
    hide EndState, MaskFrom, Next;
    var t, tail := LAMBDA + y, LAMBDA[1..];
    assert t[6] == y[0] && StartsLambda(false, t);
    assert t[1..] == tail + y && t[0] == 'l';
    var next := Next('l', true, st);
    KeywordOpens(st);
    ScanStep(false, t, st);
    KeywordTail(tail, y, next);
  }

  lemma KeywordOpens(st: State)
    requires st.quote.None? && st.skip == 0
    ensures Next('l', true, st) == if st.depth == 0 then st.(lambdas := st.lambdas + 1, skip := 5) else st
    ensures !Marks('l', true, st)
  {
  }

  lemma ScanNothing(afterWord: bool, st: State)
    ensures EndState(afterWord, [], st) == st && MaskFrom(afterWord, [], st) == []
  {
  }

  lemma ScanStep(afterWord: bool, t: string, st: State)
    requires t != []
    ensures var at := StartsLambda(afterWord, t);
      && EndState(afterWord, t, st) == EndState(IsWordChar(t[0]), t[1..], Next(t[0], at, st))
      && MaskFrom(afterWord, t, st) == [Marks(t[0], at, st)] + MaskFrom(IsWordChar(t[0]), t[1..], Next(t[0], at, st))
  {
  }

  lemma {:induction false} KeywordTail(w: string, y: string, st: State)
    requires forall c | c in w :: IsWordChar(c)
    requires st.quote.None? && (st.skip == |w| || (st.skip == 0 && st.depth != 0))
    ensures EndState(true, w + y, st) == EndState(true, y, st.(skip := 0))
    ensures MaskFrom(true, w + y, st) == Repeat(false, |w|) + MaskFrom(true, y, st.(skip := 0))
    decreases |w|
  {
    hide EndState, MaskFrom;
    if w == [] {
      assert w + y == y;
    } else {
      assert IsWordChar(w[0]);
      assert (w + y)[1..] == w[1..] + y;
      ScanStep(true, w + y, st);
      KeywordTail(w[1..], y, Next(w[0], false, st));
    }
  }

  lemma {:induction false} ScanPiece(afterWord: bool, p: Piece, inLambda: bool, st: State)
    requires FitsPiece(p, inLambda) && !(afterWord && StartsWithWord(p)) && AtPiece(st, inLambda)
    ensures Scans(afterWord, RenderPiece(p), st, OutlinePiece(p))
    decreases p, 0
  {
    match p
    case Word(text) =>
      ScanWord(afterWord, text, st);
    case Symbol(c) =>
      assert [c][1..] == [] && !StartsLambda(afterWord, [c]);
    case Quoted(q, body) =>
      var inside := st.(quote := Some(q));
      ScanBody(false, body, q, inside);
      ScanFramed(afterWord, q, RenderBody(body), q, st, inside);
    case Group(b, inner) =>
      var inside := st.(depth := st.depth + 1);
      ScanText(false, inner, false, inside);
      ScanFramed(afterWord, b.Open(), Render(inner), b.Close(), st, inside);
    case Lambda(params) =>
      ScanHeader(params, inLambda, st);
  }

  lemma {:induction false} ScanHeader(params: seq<Piece>, inLambda: bool, st: State)
    requires Fits(params, true, true) && AtPiece(st, inLambda)
    ensures Scans(false, LAMBDA + Render(params) + ":", st, Repeat(false, 7 + |Render(params)|))
    decreases params, 2
  {
    hide EndState, MaskFrom;
    var inside := if st.depth == 0 then st.(lambdas := st.lambdas + 1) else st;
    var body := Render(params);
    var y := body + ":";
    if params != [] {
      PieceEnds(params[0], true);
      assert y[0] == RenderPiece(params[0])[0];
    }
    ScanKeyword(y, st);
    assert LAMBDA + body + ":" == LAMBDA + y;
    ScanText(true, params, true, inside);
    EndStateOfConcatenation(true, body, ":", inside);
    MaskOfConcatenation(true, body, ":", inside);
    var after := AfterWord(true, body);
    assert ":"[1..] == [] && !StartsLambda(after, ":");
    ScanStep(after, ":", inside);
    ScanNothing(false, st);
  }

  lemma {:induction false} ScanText(afterWord: bool, ps: seq<Piece>, inLambda: bool, st: State)
    requires Fits(ps, afterWord, inLambda) && AtPiece(st, inLambda)
    ensures Scans(afterWord, Render(ps), st, Outline(ps))
    decreases ps, 1
  {
    if ps != [] {
      var x, y := RenderPiece(ps[0]), Render(ps[1..]);
      PieceEnds(ps[0], inLambda);
      if |ps| > 1 {
        PieceEnds(ps[1], inLambda);
        assert ps[1..][0] == ps[1] && y[0] == RenderPiece(ps[1])[0];
      }
      ScanPiece(afterWord, ps[0], inLambda, st);
      ScanText(ps[0].Word?, ps[1..], inLambda, st);
      ScansConcatenation(afterWord, x, y, st, OutlinePiece(ps[0]), Outline(ps[1..]));
    }
  }

  /** The mask marks exactly the top-level words and symbols of every well-formed text. */
  lemma MaskIsOutline(ps: seq<Piece>)
    requires Fits(ps, false, false)
    ensures Mask(Render(ps)) == Outline(ps)
  {
    ScanText(false, ps, false, START);
  }
}
