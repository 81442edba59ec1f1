/**
  * A function header as the grammar of section 8.7 of the Python Language Reference builds it, with its
  * whitespace: what it prints as, and the signature it denotes.
  */
module SignatureSyntax {
  import opened Wrappers
  import opened PythonText
  import opened SignatureScanner
  import opened SignatureText
  import opened SignatureParser

  predicate AllSpace(ws: string) { forall c | c in ws :: IsSpace(c) }

  predicate AllBlank(ws: string) { forall c | c in ws :: IsBlank(c) }

  /** Not empty, and no whitespace at either end. */
  predicate Trimmed(t: string) { t != [] && !IsSpace(t[0]) && !IsSpace(t[|t| - 1]) }

  function Spaces(ws: string): (ps: seq<Piece>)
    ensures |ps| == |ws|
  {
    seq(|ws|, k requires 0 <= k < |ws| => Symbol(ws[k]))
  }

  /** `: annotation` or `= default`, with the whitespace around the sign. */
  datatype Clause = Clause(before: string, after: string, text: seq<Piece>)

  predicate LegalClause(c: Clause, forbidden: set<char>) {
    && AllSpace(c.before) && AllSpace(c.after)
    && Fits(c.text, false, false) && Trimmed(Render(c.text))
    && forall x | x in forbidden :: Symbol(x) !in c.text
  }

  function ClausePieces(sign: char, c: Clause): seq<Piece> {
    Spaces(c.before) + [Symbol(sign)] + Spaces(c.after) + c.text
  }

  datatype ParameterTree = ParameterTree(name: string, annotation: Option<Clause>, default: Option<Clause>)

  predicate LegalParameter(p: ParameterTree) {
    && IsIdentifier(p.name) && p.name != LAMBDA
    && (p.annotation.Some? ==> LegalClause(p.annotation.value, {',', '='}))
    && (p.default.Some? ==> LegalClause(p.default.value, {','}))
  }

  function HeadPieces(p: ParameterTree): seq<Piece> {
    [Word(p.name)] + if p.annotation.Some? then ClausePieces(':', p.annotation.value) else []
  }

  function ParameterPieces(p: ParameterTree): seq<Piece> {
    HeadPieces(p) + if p.default.Some? then ClausePieces('=', p.default.value) else []
  }

  /** `*args` and `**kwargs`; `gap` is the whitespace between the stars and the name. */
  datatype VariadicTree = VariadicTree(gap: string, parameter: ParameterTree)

  predicate LegalVariadic(v: VariadicTree) {
    AllSpace(v.gap) && LegalParameter(v.parameter) && v.parameter.default.None?
  }

  function VariadicPieces(v: VariadicTree, stars: seq<Piece>): seq<Piece> {
    stars + Spaces(v.gap) + HeadPieces(v.parameter)
  }

  const ONE_STAR := [Symbol('*')]
  const TWO_STARS := [Symbol('*'), Symbol('*')]
  const SLASH := [Symbol('/')]

  /** A comma-separated item of the parameter list and the whitespace around it. */
  datatype Padded<T> = Padded(before: string, item: T, after: string)

  predicate LegalPadding<T>(p: Padded<T>) { AllSpace(p.before) && AllSpace(p.after) }

  datatype ParametersTree = ParametersTree(
    positionalOnly: seq<Padded<ParameterTree>>,
    slash: Padded<()>,
    regular: seq<Padded<ParameterTree>>,
    varArgs: Option<Padded<VariadicTree>>,
    bareStar: Padded<()>,
    keywordOnly: seq<Padded<ParameterTree>>,
    kwargs: Option<Padded<VariadicTree>>,
    /** Whitespace before the closing parenthesis, set off by a trailing comma unless the list is empty. */
    tail: Option<string>)

  predicate LegalParameters(t: ParametersTree) {
    && (forall p | p in t.positionalOnly + t.regular + t.keywordOnly :: LegalPadding(p) && LegalParameter(p.item))
    && LegalPadding(t.slash) && LegalPadding(t.bareStar)
    && (t.varArgs.Some? ==> LegalPadding(t.varArgs.value) && LegalVariadic(t.varArgs.value.item))
    && (t.kwargs.Some? ==> LegalPadding(t.kwargs.value) && LegalVariadic(t.kwargs.value.item))
    && (t.tail.Some? ==> AllSpace(t.tail.value))
    && (Tokens(t) == [] ==> t.tail.Some?)
  }

  type Token = Padded<seq<Piece>>

  function ParameterTokens(ps: seq<Padded<ParameterTree>>): (ts: seq<Token>)
    ensures |ts| == |ps|
  {
    seq(|ps|, k requires 0 <= k < |ps| => Padded(ps[k].before, ParameterPieces(ps[k].item), ps[k].after))
  }

  function SlashTokens(t: ParametersTree): seq<Token> {
    if t.positionalOnly == [] then [] else [Padded(t.slash.before, SLASH, t.slash.after)]
  }

  function StarTokens(t: ParametersTree): seq<Token> {
    match t.varArgs
    case Some(v) => [Padded(v.before, VariadicPieces(v.item, ONE_STAR), v.after)]
    case None => if t.keywordOnly == [] then [] else [Padded(t.bareStar.before, ONE_STAR, t.bareStar.after)]
  }

  function KwargsTokens(t: ParametersTree): seq<Token> {
    match t.kwargs
    case Some(v) => [Padded(v.before, VariadicPieces(v.item, TWO_STARS), v.after)]
    case None => []
  }

  function Tokens(t: ParametersTree): seq<Token> {
    ParameterTokens(t.positionalOnly) + SlashTokens(t) + ParameterTokens(t.regular)
    + StarTokens(t) + ParameterTokens(t.keywordOnly) + KwargsTokens(t)
  }

  function TokenPieces(t: Token): seq<Piece> { Spaces(t.before) + t.item + Spaces(t.after) }

  /** What the commas separate. */
  function Segments(ts: seq<Token>, tail: Option<string>): seq<seq<Piece>> {
    seq(|ts|, k requires 0 <= k < |ts| => TokenPieces(ts[k])) + if tail.Some? then [Spaces(tail.value)] else []
  }

  function ListPieces(t: ParametersTree): seq<Piece> {
    Join(Segments(Tokens(t), t.tail), Symbol(','))
  }

  datatype SignatureTree = SignatureTree(
    decorators: string,
    indent: string,
    asyncGap: Option<string>,
    defGap: string,
    name: string,
    parenGap: string,
    parameters: ParametersTree,
    arrowBefore: string,
    arrowAfter: string,
    returns_: Option<string>,
    end: string)

  /** The text goes on like a header: with the word `def`, or with `async` and then only spaces or `def`. */
  predicate OpensHeader(u: string) {
    if "async" <= u then
      var w := u[5..];
      var gap := Span(w, IsSpace);
      gap == |w| || (gap > 0 && "def" <= w[gap..])
    else "def" <= u && (|u| == 3 || IsSpace(u[3]))
  }

  /** No line of the decorators goes on like a header after its indent. */
  predicate NoHeaderLine(decorators: string) {
    forall p | 0 <= p <= |decorators| && (p == 0 || decorators[p - 1] == '\n') ::
      !OpensHeader(decorators[p..][Span(decorators[p..], IsBlank)..])
  }

  predicate LegalSignature(t: SignatureTree) {
    && NoHeaderLine(t.decorators) && AllBlank(t.indent)
    && (t.asyncGap.Some? ==> t.asyncGap.value != [] && AllSpace(t.asyncGap.value))
    && t.defGap != [] && AllSpace(t.defGap) && IsIdentifier(t.name) && AllSpace(t.parenGap)
    && LegalParameters(t.parameters)
    && AllSpace(t.arrowBefore) && AllSpace(t.arrowAfter) && AllSpace(t.end)
    && (t.returns_.Some? ==> Trimmed(t.returns_.value))
  }

  function PrintHeader(t: SignatureTree): string {
    t.indent + (if t.asyncGap.Some? then "async" + t.asyncGap.value else "") + "def" + t.defGap + t.name + t.parenGap
  }

  function PrintReturn(t: SignatureTree): string {
    t.arrowBefore + (if t.returns_.Some? then "->" + t.arrowAfter + t.returns_.value else "") + t.end
  }

  function PrintDecorators(t: SignatureTree): string {
    if t.decorators == [] then [] else t.decorators + "\n"
  }

  function Print(t: SignatureTree): string {
    PrintDecorators(t) + PrintHeader(t) + "(" + Render(ListPieces(t.parameters)) + ")" + PrintReturn(t)
  }

  // ----- What the tree denotes

  function ClauseText(c: Option<Clause>): Option<string> {
    match c case None => None case Some(x) => Some(Render(x.text))
  }

  function Denote(p: ParameterTree, kind: ParameterKind): Parameter {
    Parameter(p.name, kind, p.annotation.Some?, ClauseText(p.annotation), p.default.Some?, ClauseText(p.default))
  }

  function DenoteAll(ps: seq<Padded<ParameterTree>>, kind: ParameterKind): (r: seq<Parameter>)
    ensures |r| == |ps|
  {
    seq(|ps|, k requires 0 <= k < |ps| => Denote(ps[k].item, kind))
  }

  function DenoteVariadic(v: Option<Padded<VariadicTree>>, kind: ParameterKind): seq<Parameter> {
    match v case None => [] case Some(x) => [Denote(x.item.parameter, kind)]
  }

  function DenoteParameters(t: ParametersTree): seq<Parameter> {
    DenoteAll(t.positionalOnly, PositionalOnly) + DenoteAll(t.regular, PositionalOrKeyword)
    + DenoteVariadic(t.varArgs, VarPositional) + DenoteAll(t.keywordOnly, KeywordOnly)
    + DenoteVariadic(t.kwargs, VarKeyword)
  }

  function DenoteSignature(t: SignatureTree): FunctionSignature {
    FunctionSignature(t.name, t.asyncGap.Some?, DenoteParameters(t.parameters), t.returns_.Some?, t.returns_)
  }
}
