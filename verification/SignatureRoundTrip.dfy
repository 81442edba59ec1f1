/** Printing any legal header and parsing it gives back the signature it denotes. */
module SignatureRoundTrip {
  import opened Wrappers
  import opened PythonText
  import opened SignatureScanner
  import opened SignatureText
  import opened SignatureParser
  import opened SignatureSyntax
  import opened SignatureSplitting

  // ----- One parameter

  lemma ClauseFits(ps: seq<Piece>, sign: char, c: Clause, forbidden: set<char>)
    requires Fits(ps, false, false) && IsSymbolChar(sign) && LegalClause(c, forbidden)
    ensures Fits(ps + ClausePieces(sign, c), false, false)
  {
    hide Fits, Render;
    var after, text := Spaces(c.after), c.text;
    FitsSpaces(c.after, false);
    FitsConcatenation(after, text, false, false);
    FitsSymbol(sign, after + text, EndsWithWord(Spaces(c.before), EndsWithWord(ps, false)));
    FitsSpaces(c.before, EndsWithWord(ps, false));
    FitsConcatenation(Spaces(c.before), [Symbol(sign)] + (after + text), EndsWithWord(ps, false), false);
    FitsConcatenation(ps, Spaces(c.before) + ([Symbol(sign)] + (after + text)), false, false);
    ClauseGroups(Spaces(c.before), [Symbol(sign)], after, text);
    assert ClausePieces(sign, c) == Spaces(c.before) + ([Symbol(sign)] + (after + text));
  }

  lemma ClauseGroups<T>(a: seq<T>, b: seq<T>, c: seq<T>, d: seq<T>)
    ensures a + b + c + d == a + (b + (c + d))
  {
  }

  lemma ClauseRenders(ps: seq<Piece>, sign: char, c: Clause)
    ensures Render(ps + ClausePieces(sign, c)) == Render(ps) + c.before + [sign] + c.after + Render(c.text)
  {
    var sp, text := Spaces(c.before), c.text;
    assert ps + ClausePieces(sign, c) == ps + sp + [Symbol(sign)] + Spaces(c.after) + text;
    RenderConcatenation(ps + sp + [Symbol(sign)] + Spaces(c.after), text);
    RenderConcatenation(ps + sp + [Symbol(sign)], Spaces(c.after));
    RenderConcatenation(ps + sp, [Symbol(sign)]);
    RenderConcatenation(ps, sp);
    RenderSpaces(c.before);
    RenderSpaces(c.after);
    RenderSingle(Symbol(sign));
  }

  lemma ClauseFound(ps: seq<Piece>, sign: char, c: Clause)
    requires Fits(ps + ClausePieces(sign, c), false, false)
    requires !IsWordChar(sign) && !IsSpace(sign) && AllSpace(c.before) && Symbol(sign) !in ps
    ensures FindTopLevel(Render(ps + ClausePieces(sign, c)), sign) == Some(|Render(ps)| + |c.before|)
  {
    hide FindTopLevel;
    var left, right := ps + Spaces(c.before), Spaces(c.after) + c.text;
    ClauseGroups(Spaces(c.before), [Symbol(sign)], Spaces(c.after), c.text);
    ClauseGroups(ps, Spaces(c.before), [Symbol(sign)], right);
    SpacesHoldNo(c.before, sign);
    FindFirst(left, sign, right);
    RenderConcatenation(ps, Spaces(c.before));
    RenderSpaces(c.before);
  }

  lemma ClauseStrips(head: string, before: string, sign: char, after: string, body: string)
    requires Trimmed(head) && Trimmed(body) && AllSpace(before) && AllSpace(after)
    ensures var t := head + before + [sign] + after + body;
      var k := |head| + |before|;
      Strip(t[..k]) == head && Strip(t[k + 1..]) == body
  {
    var t, k := head + before + [sign] + after + body, |head| + |before|;
    assert t[..k] == [] + head + before && t[k + 1..] == after + body + [];
    StripPadded([], head, before);
    StripPadded(after, body, []);
  }

  lemma TrimmedEnds(head: string, middle: string, body: string)
    requires Trimmed(head) && Trimmed(body)
    ensures Trimmed(head + middle + body)
  {
  }

  /** A clause splits off at its sign: what precedes it, and its own text. */
  lemma ClauseSplits(ps: seq<Piece>, sign: char, c: Clause, forbidden: set<char>)
    requires Fits(ps, false, false) && IsSymbolChar(sign) && !IsSpace(sign) && LegalClause(c, forbidden)
    requires Symbol(sign) !in ps && Trimmed(Render(ps))
    ensures var t := Render(ps + ClausePieces(sign, c));
      var k := |Render(ps)| + |c.before|;
      && k < |t| && FindTopLevel(t, sign) == Some(k)
      && Strip(t[..k]) == Render(ps) && Strip(t[k + 1..]) == Render(c.text)
      && Trimmed(t) && t[0] == Render(ps)[0]
  {
    hide FindTopLevel, Render, Fits, Strip;
    ClauseFits(ps, sign, c, forbidden);
    ClauseFound(ps, sign, c);
    ClauseRenders(ps, sign, c);
    ClauseStrips(Render(ps), c.before, sign, c.after, Render(c.text));
    TrimmedEnds(Render(ps), c.before + [sign] + c.after, Render(c.text));
    assert Render(ps) + (c.before + [sign] + c.after) + Render(c.text)
        == Render(ps) + c.before + [sign] + c.after + Render(c.text);
  }

  lemma ClauseHoldsNo(ps: seq<Piece>, sign: char, c: Clause, x: char)
    requires AllSpace(c.before) && AllSpace(c.after) && !IsSpace(x) && x != sign
    requires Symbol(x) !in ps && Symbol(x) !in c.text
    ensures Symbol(x) !in ps + ClausePieces(sign, c)
  {
    SpacesHoldNo(c.before, x);
    SpacesHoldNo(c.after, x);
  }

  lemma SpacesHoldNo(ws: string, c: char)
    requires AllSpace(ws) && !IsSpace(c)
    ensures Symbol(c) !in Spaces(ws)
  {
  }

  lemma NameFits(name: string)
    requires IsIdentifier(name) && name != LAMBDA
    ensures Fits([Word(name)], false, false) && Render([Word(name)]) == name && Trimmed(name)
  {
    assert [Word(name)][1..] == [];
    assert name[0] in name && name[|name| - 1] in name;
  }

  /** A printed parameter is a well-formed item of a comma-separated list. */
  ghost predicate ListItem(ps: seq<Piece>) {
    Fits(ps, false, false) && Trimmed(Render(ps)) && Symbol(',') !in ps
  }

  lemma HeadIsItem(p: ParameterTree)
    requires LegalParameter(p)
    ensures ListItem(HeadPieces(p)) && Symbol('=') !in HeadPieces(p) && IsWordChar(Render(HeadPieces(p))[0])
  {
    NameFits(p.name);
    var name := [Word(p.name)];
    assert p.name[0] in p.name;
    match p.annotation {
      case None =>
        assert HeadPieces(p) == name;
      case Some(c) =>
        ClauseFits(name, ':', c, {',', '='});
        ClauseSplits(name, ':', c, {',', '='});
        ClauseHoldsNo(name, ':', c, ',');
        ClauseHoldsNo(name, ':', c, '=');
    }
  }

  /** The head of a parameter, its name and annotation, splits back into the two. */
  lemma HeadParses(p: ParameterTree)
    requires LegalParameter(p)
    ensures SplitAnnotation(Render(HeadPieces(p)))
         == NameAndAnnotation(p.name, ClauseText(p.annotation), p.annotation.Some?)
  {
    hide FindTopLevel, Strip, Fits;
    NameFits(p.name);
    var name := [Word(p.name)];
    match p.annotation {
      case None =>
        assert HeadPieces(p) == name;
        FindAbsent(name, ':');
        StripPadded([], p.name, []);
        assert [] + p.name + [] == p.name;
      case Some(c) =>
        ClauseSplits(name, ':', c, {',', '='});
    }
  }

  lemma ParameterIsItem(p: ParameterTree)
    requires LegalParameter(p)
    ensures ListItem(ParameterPieces(p)) && IsWordChar(Render(ParameterPieces(p))[0])
  {
    HeadIsItem(p);
    var head := HeadPieces(p);
    match p.default {
      case None =>
        assert ParameterPieces(p) == head;
      case Some(c) =>
        ClauseFits(head, '=', c, {','});
        ClauseSplits(head, '=', c, {','});
        ClauseHoldsNo(head, '=', c, ',');
    }
  }

  lemma ParameterParses(p: ParameterTree, kind: ParameterKind)
    requires LegalParameter(p)
    ensures ParseToken(Render(ParameterPieces(p)), kind) == Some(Denote(p, kind))
  {
    hide FindTopLevel, Render, Fits, Strip, SplitAnnotation, HeadPieces, ClausePieces, LegalClause;
    HeadIsItem(p);
    HeadParses(p);
    ParameterIsItem(p);
    var head, token := HeadPieces(p), Render(ParameterPieces(p));
    assert token[0] != '*' && token[0] != '/';
    match p.default {
      case None =>
        assert ParameterPieces(p) == head;
        FindAbsent(head, '=');
      case Some(c) =>
        ClauseSplits(head, '=', c, {','});
    }
  }

  lemma VariadicIsItem(v: VariadicTree, stars: seq<Piece>)
    requires LegalVariadic(v) && (stars == ONE_STAR || stars == TWO_STARS)
    ensures ListItem(VariadicPieces(v, stars))
    ensures Render(VariadicPieces(v, stars)) == Render(stars) + v.gap + Render(HeadPieces(v.parameter))
  {
    var head := HeadPieces(v.parameter);
    HeadIsItem(v.parameter);
    RenderConcatenation(stars, Spaces(v.gap));
    RenderConcatenation(stars + Spaces(v.gap), head);
    RenderSpaces(v.gap);
    RenderStars();
    FitsStars();
    FitsSpaces(v.gap, false);
    FitsConcatenation(stars, Spaces(v.gap), false, false);
    FitsConcatenation(stars + Spaces(v.gap), head, false, false);
    SpacesHoldNo(v.gap, ',');
    TrimmedEnds(Render(stars), v.gap, Render(head));
  }

  lemma VariadicParses(v: VariadicTree, stars: seq<Piece>, kind: ParameterKind, offered: ParameterKind)
    requires LegalVariadic(v)
    requires (stars == ONE_STAR && kind == VarPositional) || (stars == TWO_STARS && kind == VarKeyword)
    ensures var token := Render(VariadicPieces(v, stars));
      && ParseToken(token, offered) == Some(Denote(v.parameter, kind))
      && (IsStarToken(token) <==> kind == VarPositional) && !IsSlashToken(token)
  {
    hide FindTopLevel, Render, Fits, Strip, SplitAnnotation;
    var head := Render(HeadPieces(v.parameter));
    HeadIsItem(v.parameter);
    HeadParses(v.parameter);
    VariadicIsItem(v, stars);
    RenderStars();
    var token, n := Render(VariadicPieces(v, stars)), |stars|;
    assert token == Render(stars) + (v.gap + head) && |Render(stars)| == n;
    assert token[n..] == v.gap + head + [];
    StripPadded(v.gap, head, []);
    assert token[n] == (v.gap + head)[0] != '*';
    assert token[0] == '*';
  }

  lemma RenderStars()
    ensures Render(ONE_STAR) == "*" && Render(TWO_STARS) == "**" && Render(SLASH) == "/"
  {
    assert ONE_STAR[1..] == [] && TWO_STARS[1..] == ONE_STAR && SLASH[1..] == [];
  }

  lemma FitsStars()
    ensures Fits(ONE_STAR, false, false) && Fits(TWO_STARS, false, false) && Fits(SLASH, false, false)
  {
    FitsSymbol('*', [], false);
    FitsSymbol('*', ONE_STAR, false);
    FitsSymbol('/', [], false);
    assert [Symbol('*')] + [] == ONE_STAR && [Symbol('*')] + ONE_STAR == TWO_STARS && [Symbol('/')] + [] == SLASH;
  }

  // ----- The comma-separated list

  ghost predicate LegalToken(t: Token) { LegalPadding(t) && ListItem(t.item) }

  function Texts(ts: seq<Token>): (r: seq<string>)
    ensures |r| == |ts|
  {
    seq(|ts|, k requires 0 <= k < |ts| => Render(ts[k].item))
  }

  lemma TokenSegment(t: Token)
    requires LegalToken(t)
    ensures Fits(TokenPieces(t), false, false) && Symbol(',') !in TokenPieces(t)
    ensures Strip(Render(TokenPieces(t))) == Render(t.item) != []
  {
    FitsSpaces(t.before, false);
    FitsSpaces(t.after, EndsWithWord(t.item, false));
    FitsConcatenation(Spaces(t.before), t.item, false, false);
    FitsConcatenation(Spaces(t.before) + t.item, Spaces(t.after), false, false);
    SpacesHoldNo(t.before, ',');
    SpacesHoldNo(t.after, ',');
    RenderConcatenation(Spaces(t.before) + t.item, Spaces(t.after));
    RenderConcatenation(Spaces(t.before), t.item);
    RenderSpaces(t.before);
    RenderSpaces(t.after);
    StripPadded(t.before, Render(t.item), t.after);
  }

  lemma SegmentsAreSeparable(ts: seq<Token>, tail: Option<string>)
    requires forall t | t in ts :: LegalToken(t)
    requires tail.Some? ==> AllSpace(tail.value)
    ensures Separable(Segments(ts, tail))
  {
    forall g | g in Segments(ts, tail) ensures Fits(g, false, false) && Symbol(',') !in g {
      if k :| 0 <= k < |ts| && g == TokenPieces(ts[k]) {
        TokenSegment(ts[k]);
      } else {
        FitsSpaces(tail.value, false);
        SpacesHoldNo(tail.value, ',');
      }
    }
  }

  /** Stripping the pieces of the split and dropping the empty ones gives the tokens. */
  lemma {:induction false} StrippedSegments(ts: seq<Token>, tail: Option<string>)
    requires forall t | t in ts :: LegalToken(t)
    requires tail.Some? ==> AllSpace(tail.value)
    ensures NonEmptyStripped(RenderAll(Segments(ts, tail))) == Texts(ts)
    decreases |ts|
  {
    hide Strip, Fits, Render, ListItem, TokenPieces;
    var parts := RenderAll(Segments(ts, tail));
    if ts == [] {
      if tail.Some? {
        RenderSpaces(tail.value);
        StripBlank(tail.value);
        assert parts[1..] == [];
      }
    } else {
      TokenSegment(ts[0]);
      StrippedSegments(ts[1..], tail);
      assert Segments(ts, tail)[1..] == Segments(ts[1..], tail);
      assert parts[1..] == RenderAll(Segments(ts[1..], tail));
      assert Texts(ts) == [Render(ts[0].item)] + Texts(ts[1..]);
    }
  }

  // ----- Markers and kinds

  lemma {:induction false} LastIndexIs(tokens: seq<string>, k: nat, test: string -> bool)
    requires k < |tokens| && test(tokens[k])
    requires forall j | k < j < |tokens| :: !test(tokens[j])
    ensures LastIndex(tokens, test) == Some(k)
    decreases |tokens|
  {
    var n := |tokens| - 1;
    if k < n {
      assert !test(tokens[n]);
      LastIndexIs(tokens[..n], k, test);
    }
  }

  lemma {:induction false} LastIndexNone(tokens: seq<string>, test: string -> bool)
    requires forall j | 0 <= j < |tokens| :: !test(tokens[j])
    ensures LastIndex(tokens, test) == None
    decreases |tokens|
  {
    if tokens != [] {
      LastIndexNone(tokens[..|tokens| - 1], test);
    }
  }

  lemma CollectUnfolds<T>(tokens: seq<string>, idx: nat, parse: (string, nat) -> Option<T>)
    requires tokens != []
    ensures Collect(tokens, idx, parse)
         == (match parse(tokens[0], idx) case None => [] case Some(p) => [p]) + Collect(tokens[1..], idx + 1, parse)
  {
  }

  lemma {:induction false} CollectConcatenation<T>(a: seq<string>, b: seq<string>, idx: nat,
                                                   parse: (string, nat) -> Option<T>)
    ensures Collect(a + b, idx, parse) == Collect(a, idx, parse) + Collect(b, idx + |a|, parse)
    decreases |a|
  {
    if a == [] {
      assert a + b == b;
    } else {
      hide Collect;
      CollectConcatenation(a[1..], b, idx + 1, parse);
      assert (a + b)[1..] == a[1..] + b && (a + b)[0] == a[0];
      CollectUnfolds(a + b, idx, parse);
      CollectUnfolds(a, idx, parse);
    }
  }

  /** A run of plain parameters at indices of one kind. */
  lemma {:induction false} CollectRun(ps: seq<Padded<ParameterTree>>, idx: nat,
                                      parse: (string, nat) -> Option<Parameter>, kind: ParameterKind)
    requires forall k | 0 <= k < |ps| :: parse(Texts(ParameterTokens(ps))[k], idx + k) == Some(Denote(ps[k].item, kind))
    ensures Collect(Texts(ParameterTokens(ps)), idx, parse) == DenoteAll(ps, kind)
    decreases |ps|
  {
    if ps != [] {
      var texts := Texts(ParameterTokens(ps));
      assert texts[1..] == Texts(ParameterTokens(ps[1..]));
      forall k | 0 <= k < |ps| - 1 ensures parse(texts[1..][k], idx + 1 + k) == Some(Denote(ps[1..][k].item, kind)) {
        assert texts[1..][k] == texts[k + 1] && ps[1..][k] == ps[k + 1];
      }
      CollectRun(ps[1..], idx + 1, parse, kind);
      assert parse(texts[0], idx + 0) == Some(Denote(ps[0].item, kind));
      assert DenoteAll(ps, kind) == [Denote(ps[0].item, kind)] + DenoteAll(ps[1..], kind);
    }
  }

  /** The same for legal parameters at indices where the markers give that kind. */
  lemma CollectLegalRun(ps: seq<Padded<ParameterTree>>, idx: nat, starAt: Option<nat>, slashAt: Option<nat>,
                        kind: ParameterKind)
    requires forall p | p in ps :: LegalPadding(p) && LegalParameter(p.item)
    requires forall j | idx <= j < idx + |ps| :: KindAt(j, starAt, slashAt) == kind
    ensures Collect(Texts(ParameterTokens(ps)), idx, TokenParser(starAt, slashAt)) == DenoteAll(ps, kind)
  {
    hide ParseToken, LegalParameter, Denote, LegalToken, IsStarToken, IsSlashToken;
    ParameterTokensAreLegal(ps);
    var parse := TokenParser(starAt, slashAt);
    forall k | 0 <= k < |ps| ensures parse(Texts(ParameterTokens(ps))[k], idx + k) == Some(Denote(ps[k].item, kind)) {
      assert KindAt(idx + k, starAt, slashAt) == kind;
      assert parse(Texts(ParameterTokens(ps))[k], idx + k) == ParseToken(Texts(ParameterTokens(ps))[k], kind);
    }
    CollectRun(ps, idx, parse, kind);
  }

  // ----- The whole parameter list

  lemma ParameterTokensAreLegal(ps: seq<Padded<ParameterTree>>)
    requires forall p | p in ps :: LegalPadding(p) && LegalParameter(p.item)
    ensures forall k | 0 <= k < |ps| ::
      && LegalToken(ParameterTokens(ps)[k])
      && !IsStarToken(Texts(ParameterTokens(ps))[k]) && !IsSlashToken(Texts(ParameterTokens(ps))[k])
      && forall kind :: ParseToken(Texts(ParameterTokens(ps))[k], kind) == Some(Denote(ps[k].item, kind))
  {
    hide ParseToken, Denote, Fits, Render, ParameterPieces;
    forall k | 0 <= k < |ps|
      ensures LegalToken(ParameterTokens(ps)[k])
      ensures !IsStarToken(Texts(ParameterTokens(ps))[k]) && !IsSlashToken(Texts(ParameterTokens(ps))[k])
      ensures forall kind :: ParseToken(Texts(ParameterTokens(ps))[k], kind) == Some(Denote(ps[k].item, kind))
    {
      var p := ps[k].item;
      assert ps[k] in ps;
      ParameterIsItem(p);
      forall kind ensures ParseToken(Render(ParameterPieces(p)), kind) == Some(Denote(p, kind)) {
        ParameterParses(p, kind);
      }
    }
  }

  /** The bare markers and the variadic parameters: legal tokens, told apart by how they begin. */
  lemma MarkerTokens(t: ParametersTree)
    requires LegalParameters(t)
    ensures forall x | x in SlashTokens(t) ::
      LegalToken(x) && IsSlashToken(Render(x.item)) && !IsStarToken(Render(x.item))
    ensures forall x | x in StarTokens(t) ::
      LegalToken(x) && IsStarToken(Render(x.item)) && !IsSlashToken(Render(x.item))
    ensures forall x | x in KwargsTokens(t) ::
      LegalToken(x) && !IsStarToken(Render(x.item)) && !IsSlashToken(Render(x.item))
  {
    hide ParseToken, Denote, Fits, Render, VariadicPieces, LegalVariadic;
    RenderStars();
    FitsStars();
    if t.varArgs.Some? {
      VariadicIsItem(t.varArgs.value.item, ONE_STAR);
      VariadicParses(t.varArgs.value.item, ONE_STAR, VarPositional, VarPositional);
    }
    if t.kwargs.Some? {
      VariadicIsItem(t.kwargs.value.item, TWO_STARS);
      VariadicParses(t.kwargs.value.item, TWO_STARS, VarKeyword, VarKeyword);
    }
  }

  lemma RunsAreLegal(t: ParametersTree)
    requires LegalParameters(t)
    ensures forall ps | ps in [t.positionalOnly, t.regular, t.keywordOnly] ::
      forall p | p in ps :: LegalPadding(p) && LegalParameter(p.item)
  {
  }

  lemma TokensAreLegal(t: ParametersTree)
    requires LegalParameters(t)
    ensures forall x | x in Tokens(t) :: LegalToken(x)
  {
    hide LegalToken, LegalParameters, LegalParameter;
    RunsAreLegal(t);
    MarkerTokens(t);
    assert t.positionalOnly in [t.positionalOnly, t.regular, t.keywordOnly];
    ParameterTokensAreLegal(t.positionalOnly);
    assert t.regular in [t.positionalOnly, t.regular, t.keywordOnly];
    ParameterTokensAreLegal(t.regular);
    assert t.keywordOnly in [t.positionalOnly, t.regular, t.keywordOnly];
    ParameterTokensAreLegal(t.keywordOnly);
  }

  /** The text between the parentheses falls apart into the printed tokens. */
  lemma ListFallsApart(t: ParametersTree)
    requires LegalParameters(t)
    ensures NonEmptyStripped(Split(Render(ListPieces(t)), ',')) == Texts(Tokens(t))
  {
    hide Tokens, Split, Render, NonEmptyStripped, LegalToken, Texts;
    TokensAreLegal(t);
    SegmentsAreSeparable(Tokens(t), t.tail);
    SplitRendersSegments(Segments(Tokens(t), t.tail));
    StrippedSegments(Tokens(t), t.tail);
  }

  /** Where a test holds once, at the seam between `a` and `b`. */
  lemma LastIndexAtSeam(a: seq<string>, marker: seq<string>, b: seq<string>, test: string -> bool)
    requires |marker| <= 1
    requires forall x | x in a + b :: !test(x)
    requires forall x | x in marker :: test(x)
    ensures LastIndex(a + marker + b, test) == if marker == [] then None else Some(|a|)
  {
    var all := a + marker + b;
    if marker == [] {
      LastIndexNone(all, test);
    } else {
      forall j | |a| < j < |all| ensures !test(all[j]) {
        assert all[j] == b[j - |a| - 1];
      }
      LastIndexIs(all, |a|, test);
    }
  }

  lemma TextsOfTokens(t: ParametersTree)
    ensures Texts(Tokens(t))
         == Texts(ParameterTokens(t.positionalOnly)) + Texts(SlashTokens(t)) + Texts(ParameterTokens(t.regular))
          + Texts(StarTokens(t)) + Texts(ParameterTokens(t.keywordOnly)) + Texts(KwargsTokens(t))
  {
    hide Texts, ParameterTokens, SlashTokens, StarTokens, KwargsTokens;
    var a, b, c := ParameterTokens(t.positionalOnly), SlashTokens(t), ParameterTokens(t.regular);
    var d, e, f := StarTokens(t), ParameterTokens(t.keywordOnly), KwargsTokens(t);
    TextsOfConcatenation(a, b);
    TextsOfConcatenation(a + b, c);
    TextsOfConcatenation(a + b + c, d);
    TextsOfConcatenation(a + b + c + d, e);
    TextsOfConcatenation(a + b + c + d + e, f);
  }

  lemma TextsOfConcatenation(x: seq<Token>, y: seq<Token>)
    ensures Texts(x + y) == Texts(x) + Texts(y)
  {
  }

  function StarPosition(t: ParametersTree): nat {
    |t.positionalOnly| + |SlashTokens(t)| + |t.regular|
  }

  lemma TextsAreUnmarked(t: ParametersTree)
    requires LegalParameters(t)
    ensures forall x | x in Texts(ParameterTokens(t.positionalOnly)) :: !IsStarToken(x) && !IsSlashToken(x)
    ensures forall x | x in Texts(ParameterTokens(t.regular)) :: !IsStarToken(x) && !IsSlashToken(x)
    ensures forall x | x in Texts(ParameterTokens(t.keywordOnly)) :: !IsStarToken(x) && !IsSlashToken(x)
    ensures forall x | x in Texts(SlashTokens(t)) :: IsSlashToken(x) && !IsStarToken(x)
    ensures forall x | x in Texts(StarTokens(t)) :: IsStarToken(x) && !IsSlashToken(x)
    ensures forall x | x in Texts(KwargsTokens(t)) :: !IsStarToken(x) && !IsSlashToken(x)
  {
    hide IsStarToken, IsSlashToken, LegalToken, LegalParameters, LegalParameter, ParameterTokens, ParseToken;
    RunsAreLegal(t);
    MarkerTokens(t);
    assert t.positionalOnly in [t.positionalOnly, t.regular, t.keywordOnly];
    assert t.regular in [t.positionalOnly, t.regular, t.keywordOnly];
    assert t.keywordOnly in [t.positionalOnly, t.regular, t.keywordOnly];
    ParameterTokensAreLegal(t.positionalOnly);
    ParameterTokensAreLegal(t.regular);
    ParameterTokensAreLegal(t.keywordOnly);
  }

  /** The two markers are found where the tree has them. */
  lemma MarkersAreFound(t: ParametersTree)
    requires LegalParameters(t)
    ensures LastIndex(Texts(Tokens(t)), IsSlashToken)
         == if t.positionalOnly == [] then None else Some(|t.positionalOnly|)
    ensures LastIndex(Texts(Tokens(t)), IsStarToken) == if StarTokens(t) == [] then None else Some(StarPosition(t))
  {
    hide IsStarToken, IsSlashToken, LegalParameters, ParameterTokens, Tokens, LastIndex, Texts;
    TextsAreUnmarked(t);
    TextsOfTokens(t);
    var p, s, r := Texts(ParameterTokens(t.positionalOnly)), Texts(SlashTokens(t)), Texts(ParameterTokens(t.regular));
    var v, k, w := Texts(StarTokens(t)), Texts(ParameterTokens(t.keywordOnly)), Texts(KwargsTokens(t));
    LastIndexAtSeam(p, s, r + v + k + w, IsSlashToken);
    assert p + s + (r + v + k + w) == p + s + r + v + k + w;
    LastIndexAtSeam(p + s + r, v, k + w, IsStarToken);
    assert (p + s + r) + v + (k + w) == p + s + r + v + k + w;
  }

  /** Every token yields the parameter it was printed from, with the kind its position says. */
  lemma ParametersParse(t: ParametersTree)
    requires LegalParameters(t)
    ensures ParameterList(Render(ListPieces(t))) == DenoteParameters(t)
  {
    hide LegalToken, ParseToken, Render, Split, NonEmptyStripped, ListPieces, Tokens, LastIndex, Collect, Texts,
         TokenParser, ParameterTokens, DenoteAll, LegalParameters;
    ListFallsApart(t);
    MarkersAreFound(t);
    TextsOfTokens(t);
    var slashAt: Option<nat> := if t.positionalOnly == [] then None else Some(|t.positionalOnly|);
    var starAt: Option<nat> := if StarTokens(t) == [] then None else Some(StarPosition(t));
    var parse := TokenParser(starAt, slashAt);
    var p, s, r := Texts(ParameterTokens(t.positionalOnly)), Texts(SlashTokens(t)), Texts(ParameterTokens(t.regular));
    var v, k, w := Texts(StarTokens(t)), Texts(ParameterTokens(t.keywordOnly)), Texts(KwargsTokens(t));
    CollectConcatenation(p + s + r + v + k, w, 0, parse);
    CollectConcatenation(p + s + r + v, k, 0, parse);
    CollectConcatenation(p + s + r, v, 0, parse);
    CollectConcatenation(p + s, r, 0, parse);
    CollectConcatenation(p, s, 0, parse);
    CollectParameterRuns(t, parse);
    CollectMarkers(t, parse);
  }

  ghost predicate ParserOf(t: ParametersTree, parse: (string, nat) -> Option<Parameter>) {
    parse == TokenParser(if StarTokens(t) == [] then None else Some(StarPosition(t)),
                         if t.positionalOnly == [] then None else Some(|t.positionalOnly|))
  }

  lemma CollectParameterRuns(t: ParametersTree, parse: (string, nat) -> Option<Parameter>)
    requires LegalParameters(t) && ParserOf(t, parse)
    ensures Collect(Texts(ParameterTokens(t.positionalOnly)), 0, parse) == DenoteAll(t.positionalOnly, PositionalOnly)
    ensures Collect(Texts(ParameterTokens(t.regular)), |t.positionalOnly| + |SlashTokens(t)|, parse)
         == DenoteAll(t.regular, PositionalOrKeyword)
    ensures Collect(Texts(ParameterTokens(t.keywordOnly)), StarPosition(t) + |StarTokens(t)|, parse)
         == DenoteAll(t.keywordOnly, KeywordOnly)
  {
    hide LegalToken, ParseToken, LegalParameters, LegalParameter, Collect, ParameterTokens, Texts, TokenParser;
    RunsAreLegal(t);
    assert t.positionalOnly in [t.positionalOnly, t.regular, t.keywordOnly];
    assert t.regular in [t.positionalOnly, t.regular, t.keywordOnly];
    assert t.keywordOnly in [t.positionalOnly, t.regular, t.keywordOnly];
    var slashAt: Option<nat> := if t.positionalOnly == [] then None else Some(|t.positionalOnly|);
    var starAt: Option<nat> := if StarTokens(t) == [] then None else Some(StarPosition(t));
    CollectLegalRun(t.positionalOnly, 0, starAt, slashAt, PositionalOnly);
    CollectLegalRun(t.regular, |t.positionalOnly| + |SlashTokens(t)|, starAt, slashAt, PositionalOrKeyword);
    assert t.keywordOnly != [] ==> StarTokens(t) != [];
    CollectLegalRun(t.keywordOnly, StarPosition(t) + |StarTokens(t)|, starAt, slashAt, KeywordOnly);
  }

  lemma CollectMarkers(t: ParametersTree, parse: (string, nat) -> Option<Parameter>)
    requires LegalParameters(t) && ParserOf(t, parse)
    ensures forall idx: nat :: Collect(Texts(SlashTokens(t)), idx, parse) == []
    ensures forall idx: nat :: Collect(Texts(StarTokens(t)), idx, parse) == DenoteVariadic(t.varArgs, VarPositional)
    ensures forall idx: nat :: Collect(Texts(KwargsTokens(t)), idx, parse) == DenoteVariadic(t.kwargs, VarKeyword)
  {
    hide Render, VariadicPieces, LegalVariadic, LegalParameter, Denote;
    RenderStars();
    forall idx: nat
      ensures Collect(Texts(SlashTokens(t)), idx, parse) == []
      ensures Collect(Texts(StarTokens(t)), idx, parse) == DenoteVariadic(t.varArgs, VarPositional)
      ensures Collect(Texts(KwargsTokens(t)), idx, parse) == DenoteVariadic(t.kwargs, VarKeyword)
    {
      var kind := KindAt(idx, if StarTokens(t) == [] then None else Some(StarPosition(t)),
                         if t.positionalOnly == [] then None else Some(|t.positionalOnly|));
      if t.varArgs.Some? {
        VariadicParses(t.varArgs.value.item, ONE_STAR, VarPositional, kind);
      }
      if t.kwargs.Some? {
        VariadicParses(t.kwargs.value.item, TWO_STARS, VarKeyword, kind);
      }
      CollectOne(Texts(SlashTokens(t)), idx, parse);
      CollectOne(Texts(StarTokens(t)), idx, parse);
      CollectOne(Texts(KwargsTokens(t)), idx, parse);
    }
  }

  lemma CollectOne<T>(tokens: seq<string>, idx: nat, parse: (string, nat) -> Option<T>)
    requires |tokens| <= 1
    ensures Collect(tokens, idx, parse)
         == if tokens == [] then [] else match parse(tokens[0], idx) case None => [] case Some(p) => [p]
  {
  }

  // ----- The parenthesis that closes the list

  function Plus(r: Option<nat>, n: nat): Option<nat> {
    match r case None => None case Some(k) => Some(k + n)
  }

  lemma CloseStep(t: string, st: ParenState)
    requires t != []
    ensures CloseFrom(t, st) == if Closes(t[0], st) then Some(0) else Plus(CloseFrom(t[1..], NextParen(t[0], st)), 1)
  {
  }

  lemma {:induction false} CloseSkipsPlain(x: string, rest: string, st: ParenState)
    requires st.quote.None? && !st.skip
    requires forall c | c in x :: !IsQuote(c) && c != '(' && c != ')'
    ensures CloseFrom(x + rest, st) == Plus(CloseFrom(rest, st), |x|)
    decreases |x|
  {
    hide CloseFrom;
    if x == [] {
      assert x + rest == rest;
    } else {
      assert x[0] in x && (x + rest)[1..] == x[1..] + rest;
      assert forall c | c in x[1..] :: c in x;
      CloseStep(x + rest, st);
      CloseSkipsPlain(x[1..], rest, st);
    }
  }

  lemma {:induction false} CloseSkipsBody(body: seq<StringChar>, q: char, rest: string, st: ParenState)
    requires IsQuote(q) && st.quote == Some(q) && !st.skip
    requires forall b | b in body && b.Literal? :: b.c != q && b.c != '\\'
    ensures CloseFrom(RenderBody(body) + rest, st) == Plus(CloseFrom(rest, st), |RenderBody(body)|)
    decreases |body|
  {
    hide CloseFrom;
    if body == [] {
      assert RenderBody(body) + rest == rest;
    } else {
      var tail := RenderBody(body[1..]) + rest;
      assert body[0] in body;
      CloseSkipsBody(body[1..], q, rest, st);
      match body[0] {
        case Literal(c) =>
          assert RenderBody(body) + rest == [c] + tail;
          CloseSkipsLiteral(c, tail, st);
        case Escape(c) =>
          assert RenderBody(body) + rest == ['\\', c] + tail;
          CloseSkipsEscape(c, tail, st);
      }
    }
  }

  lemma CloseSkipsLiteral(c: char, tail: string, st: ParenState)
    requires st.quote.Some? && !st.skip && c != '\\' && c != st.quote.value
    ensures CloseFrom([c] + tail, st) == Plus(CloseFrom(tail, st), 1)
  {
    assert ([c] + tail)[1..] == tail;
  }

  lemma CloseSkipsEscape(c: char, tail: string, st: ParenState)
    requires st.quote.Some? && !st.skip
    ensures CloseFrom(['\\', c] + tail, st) == Plus(CloseFrom(tail, st), 2)
  {
    hide CloseFrom;
    var t := ['\\', c] + tail;
    CloseStep(t, st);
    assert t[1..] == [c] + tail;
    CloseStep([c] + tail, st.(skip := true));
    assert ([c] + tail)[1..] == tail;
  }

  /** `t` is an opener, then `u`; the search passes through `u` to `tail`, a closer and then `rest`. */
  lemma CloseSkipsFrame(t: string, u: string, tail: string, rest: string, n: nat, st: ParenState)
    requires t != [] && t[1..] == u && tail != [] && tail[1..] == rest
    requires var inside := NextParen(t[0], st);
      && !Closes(t[0], st) && !Closes(tail[0], inside) && NextParen(tail[0], inside) == st
      && CloseFrom(u, inside) == Plus(CloseFrom(tail, inside), n)
    ensures CloseFrom(t, st) == Plus(CloseFrom(rest, st), n + 2)
  {
    hide CloseFrom, NextParen, Closes;
    CloseStep(t, st);
    CloseStep(tail, NextParen(t[0], st));
  }

  lemma Framed(o: char, body: string, c: char, rest: string)
    ensures var t := [o] + body + [c] + rest;
      t[0] == o && t[1..] == body + ([c] + rest) && ([c] + rest)[0] == c && ([c] + rest)[1..] == rest
  {
  }

  lemma {:induction false} CloseSkipsPiece(p: Piece, inLambda: bool, rest: string, st: ParenState)
    requires FitsPiece(p, inLambda) && st.quote.None? && !st.skip && st.depth >= 1
    ensures CloseFrom(RenderPiece(p) + rest, st) == Plus(CloseFrom(rest, st), |RenderPiece(p)|)
    decreases p, 0
  {
    hide CloseFrom, Render, Fits;
    match p
    case Word(text) =>
      CloseSkipsPlain(text, rest, st);
    case Symbol(c) =>
      CloseSkipsPlain([c], rest, st);
    case Quoted(q, body) =>
      CloseSkipsBody(body, q, [q] + rest, st.(quote := Some(q)));
      var content := RenderBody(body);
      Framed(q, content, q, rest);
      CloseSkipsFrame([q] + content + [q] + rest, content + ([q] + rest), [q] + rest, rest, |content|, st);
    case Group(b, inner) =>
      CloseSkipsText(inner, false, false, [b.Close()] + rest, NextParen(b.Open(), st));
      var o, content, c := b.Open(), Render(inner), b.Close();
      Framed(o, content, c, rest);
      CloseSkipsFrame([o] + content + [c] + rest, content + ([c] + rest), [c] + rest, rest, |content|, st);
    case Lambda(params) =>
      CloseSkipsText(params, true, true, ":" + rest, st);
      CloseSkipsHeader(Render(params), rest, st);
  }

  lemma LambdaIsPlain()
    ensures forall c | c in LAMBDA :: !IsQuote(c) && c != '(' && c != ')'
    ensures forall c | c in ":" :: !IsQuote(c) && c != '(' && c != ')'
  {
  }

  lemma CloseSkipsHeader(params: string, rest: string, st: ParenState)
    requires st.quote.None? && !st.skip
    requires CloseFrom(params + (":" + rest), st) == Plus(CloseFrom(":" + rest, st), |params|)
    ensures CloseFrom(LAMBDA + params + ":" + rest, st) == Plus(CloseFrom(rest, st), 6 + |params| + 1)
  {
    hide CloseFrom, IsQuote;
    LambdaIsPlain();
    CloseSkipsAround(LAMBDA, params, ":", rest, st);
  }

  lemma Regrouped(w: string, x: string, y: string, z: string)
    ensures w + x + y + z == w + (x + (y + z))
  {
  }

  lemma CloseSkipsAround(word: string, params: string, colon: string, rest: string, st: ParenState)
    requires st.quote.None? && !st.skip
    requires forall c | c in word :: !IsQuote(c) && c != '(' && c != ')'
    requires forall c | c in colon :: !IsQuote(c) && c != '(' && c != ')'
    requires CloseFrom(params + (colon + rest), st) == Plus(CloseFrom(colon + rest, st), |params|)
    ensures CloseFrom(word + params + colon + rest, st) == Plus(CloseFrom(rest, st), |word| + |params| + |colon|)
  {
    hide CloseFrom, IsQuote;
    Regrouped(word, params, colon, rest);
    CloseSkipsPlain(word, params + (colon + rest), st);
    CloseSkipsPlain(colon, rest, st);
  }

  /** Inside the list the paren-only search passes over any well-formed text: it agrees with the three-bracket mask. */
  lemma {:induction false} CloseSkipsText(ps: seq<Piece>, afterWord: bool, inLambda: bool, rest: string, st: ParenState)
    requires Fits(ps, afterWord, inLambda) && st.quote.None? && !st.skip && st.depth >= 1
    ensures CloseFrom(Render(ps) + rest, st) == Plus(CloseFrom(rest, st), |Render(ps)|)
    decreases ps, 1
  {
    hide CloseFrom, RenderPiece;
    if ps == [] {
      assert Render(ps) + rest == rest;
    } else {
      assert Render(ps) + rest == RenderPiece(ps[0]) + (Render(ps[1..]) + rest);
      CloseSkipsPiece(ps[0], inLambda, Render(ps[1..]) + rest, st);
      CloseSkipsText(ps[1..], ps[0].Word?, inLambda, rest, st);
    }
  }

  lemma CloseIsFound(before: string, ps: seq<Piece>, after: string)
    requires Fits(ps, false, false)
    ensures MatchingClose(before + "(" + Render(ps) + ")" + after, |before|) == Some(|before| + 1 + |Render(ps)|)
  {
    hide CloseFrom;
    var s := before + "(" + Render(ps) + ")" + after;
    var t := s[|before|..];
    assert t == "(" + (Render(ps) + (")" + after)) && t[1..] == Render(ps) + (")" + after);
    var inside := ParenState(1, None, false);
    CloseStep(t, UNQUOTED);
    CloseSkipsText(ps, false, false, ")" + after, inside);
    CloseStep(")" + after, inside);
  }

  // ----- The header

  lemma {:induction false} SpanIs(x: string, rest: string, test: char -> bool)
    requires forall c | c in x :: test(c)
    requires rest == [] || !test(rest[0])
    ensures Span(x + rest, test) == |x|
    decreases |x|
  {
    if x == [] {
      assert x + rest == rest;
    } else {
      assert x[0] in x && (x + rest)[1..] == x[1..] + rest;
      SpanIs(x[1..], rest, test);
    }
  }

  lemma DropFront(x: string, y: string)
    ensures (x + y)[|x|..] == y && (x + y)[..|x|] == x && x <= x + y
  {
  }

  lemma AfterDefMatches(gap: string, name: string, parenGap: string, rest: string, isAsync: bool)
    requires gap != [] && AllSpace(gap) && IsIdentifier(name) && AllSpace(parenGap)
    ensures AfterDef(gap + (name + (parenGap + ("(" + rest))), isAsync)
         == Some(Header(isAsync, name, |gap| + |name| + |parenGap|))
  {
    hide Span, IsSpace, IsWordChar, AllSpace;
    var tail := "(" + rest;
    assert tail[0] == '(';
    var v := parenGap + tail;
    SpanOfGap(parenGap, tail);
    var u := name + v;
    SpanOfName(name, v);
    SpanOfGap(gap, u);
    DropFront(parenGap, tail);
    DropFront(name, v);
    DropFront(gap, u);
    assert v[|parenGap|] == tail[0];
    assert u[0] == name[0];
  }

  lemma SpanOfGap(gap: string, v: string)
    requires AllSpace(gap) && v != [] && (v[0] == '(' || IsWordChar(v[0]))
    ensures Span(gap + v, IsSpace) == |gap|
    ensures v[0] == '(' ==> !IsWordChar((gap + v)[0])
  {
    assert !IsSpace(v[0]);
    SpanIs(gap, v, IsSpace);
    if gap != [] {
      assert gap[0] in gap;
    }
  }

  lemma SpanOfName(name: string, v: string)
    requires IsIdentifier(name) && v != [] && !IsWordChar(v[0])
    ensures Span(name + v, IsWordChar) == |name| && IsWordChar((name + v)[0])
  {
    assert name[0] in name;
    SpanIs(name, v, IsWordChar);
  }

  lemma AfterAsyncMatches(gap: string, afterDef: string)
    requires gap != [] && AllSpace(gap)
    ensures AfterAsync(gap + ("def" + afterDef)) == Shift(AfterDef(afterDef, true), |gap| + 3)
  {
    hide Span, AfterDef, AllSpace;
    var w := "def" + afterDef;
    DropFront("def", afterDef);
    assert w[0] == 'd';
    SpanOfGap(gap, w);
    DropFront(gap, w);
  }

  lemma IndentedHeader(indent: string, u: string)
    requires AllBlank(indent) && u != [] && !IsBlank(u[0])
    ensures HeaderAtLineStart(indent + u)
         == if "async" <= u then Shift(AfterAsync(u[5..]), |indent| + 5)
            else if "def" <= u then Shift(AfterDef(u[3..], false), |indent| + 3)
            else None
  {
    hide Span, AfterAsync, AfterDef;
    SpanIs(indent, u, IsBlank);
    DropFront(indent, u);
  }

  /** The printed header, bracketed the way it is read. */
  lemma PrintedHeader(t: SignatureTree, rest: string)
    ensures var afterDef := t.defGap + (t.name + (t.parenGap + ("(" + rest)));
      var u := if t.asyncGap.Some? then "async" + (t.asyncGap.value + ("def" + afterDef)) else "def" + afterDef;
      && PrintHeader(t) + "(" + rest == t.indent + u
      && |PrintHeader(t)| == |t.indent| + |u| - 1 - |rest|
  {
  }

  lemma HeaderBegins(t: SignatureTree, afterDef: string)
    ensures var u := if t.asyncGap.Some? then "async" + (t.asyncGap.value + ("def" + afterDef)) else "def" + afterDef;
      && !IsBlank(u[0])
      && ("async" <= u <==> t.asyncGap.Some?)
      && (t.asyncGap.Some? ==> u[5..] == t.asyncGap.value + ("def" + afterDef))
      && (t.asyncGap.None? ==> "def" <= u && u[3..] == afterDef)
  {
    if t.asyncGap.Some? {
      DropFront("async", t.asyncGap.value + ("def" + afterDef));
    } else {
      DropFront("def", afterDef);
      assert ("def" + afterDef)[0] == 'd';
    }
  }

  lemma HeaderMatches(t: SignatureTree, rest: string)
    requires LegalSignature(t)
    ensures HeaderAtLineStart(PrintHeader(t) + "(" + rest) == Some(Header(t.asyncGap.Some?, t.name, |PrintHeader(t)|))
  {
    hide HeaderAtLineStart, AfterDef, AfterAsync, PrintHeader, LegalParameters, NoHeaderLine, IsIdentifier, AllSpace,
         AllBlank;
    PrintedHeader(t, rest);
    var afterDef := t.defGap + (t.name + (t.parenGap + ("(" + rest)));
    HeaderBegins(t, afterDef);
    AfterDefMatches(t.defGap, t.name, t.parenGap, rest, t.asyncGap.Some?);
    match t.asyncGap {
      case None =>
        IndentedHeader(t.indent, "def" + afterDef);
      case Some(gap) =>
        AfterAsyncMatches(gap, afterDef);
        IndentedHeader(t.indent, "async" + (gap + ("def" + afterDef)));
    }
  }

  lemma NoHeaderInDecorators(d: string, rest: string, p: nat)
    requires NoHeaderLine(d) && p <= |d| && (p == 0 || d[p - 1] == '\n')
    ensures HeaderAtLineStart(d[p..] + "\n" + rest) == None
  {
    hide Span, AfterDef, AfterAsync, OpensHeader;
    var line, more := d[p..], "\n" + rest;
    var k := Span(line, IsBlank);
    var u := line[k..];
    SpanBeforeNewline(line, rest, IsBlank);
    assert line + "\n" + rest == line + more && (line + more)[k..] == u + more;
    assert !OpensHeader(u);
    NoHeaderAhead(u, rest);
  }

  lemma NoHeaderAhead(u: string, rest: string)
    requires !OpensHeader(u)
    ensures var s := u + ("\n" + rest);
      && ("async" <= s ==> AfterAsync(s[5..]) == None)
      && (!("async" <= s) && "def" <= s ==> AfterDef(s[3..], false) == None)
  {
    hide Span;
    var more := "\n" + rest;
    PrefixBeforeNewline("async", u, rest);
    PrefixBeforeNewline("def", u, rest);
    if "async" <= u {
      var w := u[5..];
      var gap := Span(w, IsSpace);
      assert (u + more)[5..] == w + more;
      SpanBeforeNewline(w, rest, IsSpace);
      assert (w + more)[gap..] == w[gap..] + more;
      PrefixBeforeNewline("def", w[gap..], rest);
    } else if "def" <= u {
      assert (u + more)[3..][0] == u[3] && !IsSpace(u[3]);
    }
  }

  /** A word is at the front of a text that goes on after a newline exactly if it is at the front of the text itself. */
  lemma PrefixBeforeNewline(word: string, u: string, rest: string)
    requires '\n' !in word
    ensures word <= u + ("\n" + rest) <==> word <= u
  {
    var s := u + ("\n" + rest);
    if |u| < |word| {
      assert word[|u|] in word && word[|u|] != s[|u|];
    }
  }

  lemma {:induction false} SpanBeforeNewline(line: string, rest: string, test: char -> bool)
    requires Span(line, test) < |line| || !test('\n')
    ensures Span(line + ("\n" + rest), test) == Span(line, test)
  {
    var more := "\n" + rest;
    if line == [] {
      assert line + more == more;
    } else if test(line[0]) {
      assert (line + more)[1..] == line[1..] + more;
      SpanBeforeNewline(line[1..], rest, test);
    }
  }

  lemma FindHeaderUnfolds(s: string, p: nat)
    requires p <= |s|
    ensures FindHeader(s, p)
         == if HeaderAt(s, p).Some? then HeaderAt(s, p) else if p < |s| then FindHeader(s, p + 1) else None
  {
  }

  /** No match begins inside the decorators. */
  lemma DecoratorsHoldNoHeader(d: string, rest: string, p: nat)
    requires NoHeaderLine(d) && d != [] && p < |d|
    ensures HeaderAt(d + "\n" + rest, p) == None
  {
    hide HeaderAtLineStart, NoHeaderLine;
    var s := d + "\n" + rest;
    assert d[0..] == d;
    NoHeaderInDecorators(d, rest, 0);
    if s[p] == '\n' {
      NoHeaderInDecorators(d, rest, p + 1);
      assert s[p + 1..] == d[p + 1..] + "\n" + rest;
    }
  }

  lemma {:induction false} DecoratorsAreSkipped(d: string, rest: string, p: nat)
    requires NoHeaderLine(d) && d != [] && p <= |d|
    requires HeaderAtLineStart(rest).Some?
    ensures FindHeader(d + "\n" + rest, p) == Shift(HeaderAtLineStart(rest), |d| + 1)
    decreases |d| - p
  {
    hide FindHeader, HeaderAtLineStart, NoHeaderLine;
    var s := d + "\n" + rest;
    FindHeaderUnfolds(s, p);
    if p < |d| {
      DecoratorsHoldNoHeader(d, rest, p);
      DecoratorsAreSkipped(d, rest, p + 1);
    } else {
      DropFront(d + "\n", rest);
      assert s[p] == '\n';
    }
  }

  lemma HasNoHeaderLine(t: SignatureTree)
    requires LegalSignature(t)
    ensures NoHeaderLine(t.decorators)
  {
  }

  lemma HeaderIsFound(t: SignatureTree, rest: string)
    requires LegalSignature(t)
    ensures FindHeader(PrintDecorators(t) + PrintHeader(t) + "(" + rest, 0)
         == Some(Header(t.asyncGap.Some?, t.name, |PrintDecorators(t) + PrintHeader(t)|))
  {
    hide HeaderAtLineStart, PrintHeader, LegalSignature;
    var s := PrintDecorators(t) + PrintHeader(t) + "(" + rest;
    HeaderMatches(t, rest);
    if t.decorators == [] {
      assert s == PrintHeader(t) + "(" + rest;
    } else {
      HasNoHeaderLine(t);
      DecoratorsAreSkipped(t.decorators, PrintHeader(t) + "(" + rest, 0);
      assert s == t.decorators + "\n" + (PrintHeader(t) + "(" + rest);
    }
  }

  lemma ReturnParses(t: SignatureTree)
    requires LegalSignature(t)
    ensures ReturnAnnotation(PrintReturn(t)) == t.returns_
  {
    hide LegalParameters, NoHeaderLine, Strip;
    match t.returns_ {
      case None =>
        assert AllSpace(PrintReturn(t));
        StripBlank(PrintReturn(t));
      case Some(r) =>
        var core := "->" + t.arrowAfter + r;
        TrimmedEnds("->", t.arrowAfter, r);
        assert PrintReturn(t) == t.arrowBefore + core + t.end;
        StripPadded(t.arrowBefore, core, t.end);
        assert core[2..] == t.arrowAfter + r + [];
        StripPadded(t.arrowAfter, r, []);
    }
  }

  // ----- The round trip

  lemma ListIsWellFormed(t: ParametersTree)
    requires LegalParameters(t)
    ensures Fits(ListPieces(t), false, false)
  {
    TokensAreLegal(t);
    SegmentsAreSeparable(Tokens(t), t.tail);
    JoinFits(Segments(Tokens(t), t.tail));
  }

  lemma NamesAreIdentifiers(t: ParametersTree)
    requires LegalParameters(t)
    ensures forall p | p in DenoteParameters(t) :: IsIdentifier(p.name)
  {
    hide IsIdentifier;
  }

  /** Printing any legal header, whatever its layout, and parsing the text gives back the signature it denotes. */
  lemma RoundTrip(t: SignatureTree)
    requires LegalSignature(t)
    ensures Parse(Print(t)) == Some(DenoteSignature(t))
  {
    hide FindHeader, MatchingClose, ParameterList, ReturnAnnotation, Render, ListPieces, DenoteParameters, Fits,
         PrintHeader, PrintDecorators, PrintReturn, IsIdentifier, LegalParameters;
    var front, list, back := PrintDecorators(t) + PrintHeader(t), Render(ListPieces(t.parameters)), PrintReturn(t);
    var s := Print(t);
    assert s == front + "(" + list + ")" + back == front + "(" + (list + ")" + back);
    HeaderIsFound(t, list + ")" + back);
    ListIsWellFormed(t.parameters);
    CloseIsFound(front, ListPieces(t.parameters), back);
    assert s[|front| + 1..|front| + 1 + |list|] == list;
    assert s[|front| + 1 + |list| + 1..] == back;
    ParametersParse(t.parameters);
    NamesAreIdentifiers(t.parameters);
    ReturnParses(t);
  }
}
