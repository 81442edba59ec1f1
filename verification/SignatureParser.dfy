/** From the text of a `def` header to its structure: names, kinds, annotations, defaults, return annotation. */
module SignatureParser {
  import opened Wrappers
  import opened PythonText
  import opened SignatureScanner

  datatype ParameterKind = PositionalOnly | PositionalOrKeyword | VarPositional | KeywordOnly | VarKeyword

  datatype Parameter = Parameter(
    name: string,
    kind: ParameterKind,
    hasAnnotation: bool,
    annotationText: Option<string>,
    hasDefault: bool,
    defaultText: Option<string>)

  datatype FunctionSignature = FunctionSignature(
    name: string,
    isAsync: bool,
    parameters: seq<Parameter>,
    hasReturnAnnotation: bool,
    returnAnnotationText: Option<string>)

  // ----- Characters and whitespace

  predicate IsBlank(c: char) { c == ' ' || c == '\t' }

  predicate IsDigit(c: char) { '0' <= c <= '9' }

  predicate IsIdentifier(s: string) {
    s != [] && !IsDigit(s[0]) && forall c | c in s :: IsWordChar(c)
  }

  /** How many leading characters pass the test. */
  function Span(t: string, test: char -> bool): (n: nat)
    ensures n <= |t|
    ensures forall k | 0 <= k < n :: test(t[k])
    ensures n < |t| ==> !test(t[n])
  {
    if t != [] && test(t[0]) then 1 + Span(t[1..], test) else 0
  }

  // ----- The parenthesis that closes the parameter list

  datatype ParenState = ParenState(depth: int, quote: Option<char>, skip: bool)

  const UNQUOTED := ParenState(0, None, false)

  function NextParen(c: char, st: ParenState): ParenState {
    if st.skip then st.(skip := false)
    else if st.quote.Some? then
      if c == '\\' then st.(skip := true) else if c == st.quote.value then st.(quote := None) else st
    else if IsQuote(c) then st.(quote := Some(c))
    else if c == '(' then st.(depth := st.depth + 1)
    else if c == ')' then st.(depth := st.depth - 1)
    else st
  }

  predicate Closes(c: char, st: ParenState) {
    c == ')' && !st.skip && st.quote.None? && st.depth == 1
  }

  function CloseFrom(t: string, st: ParenState): (r: Option<nat>)
    ensures r.Some? ==> r.value < |t| && t[r.value] == ')'
    decreases |t|
  {
    if t == [] then None
    else if Closes(t[0], st) then Some(0)
    else
      match CloseFrom(t[1..], NextParen(t[0], st))
      case None => None
      case Some(k) => Some(k + 1)
  }

  function MatchingClose(s: string, openIdx: nat): (r: Option<nat>)
    requires openIdx <= |s|
    ensures r.Some? ==> openIdx <= r.value < |s| && s[r.value] == ')'
  {
    match CloseFrom(s[openIdx..], UNQUOTED)
    case None => None
    case Some(k) => Some(openIdx + k)
  }

  /** The answer of a search that has reached index `i` in state `st`. */
  ghost function CloseAt(s: string, i: nat, st: ParenState): Option<nat>
    requires i <= |s|
  {
    match CloseFrom(s[i..], st)
    case None => None
    case Some(k) => Some(i + k)
  }

  lemma CloseAtUnfolds(s: string, i: nat, st: ParenState)
    requires i < |s|
    ensures CloseAt(s, i, st) == if Closes(s[i], st) then Some(i) else CloseAt(s, i + 1, NextParen(s[i], st))
  {
    assert s[i..][1..] == s[i + 1..];
  }

  lemma CloseAtEnd(s: string, st: ParenState)
    ensures CloseAt(s, |s|, st) == None
  {
  }

  method FindMatchingClose(s: string, openIdx: nat) returns (r: Option<nat>)
    requires openIdx <= |s|
    ensures r == MatchingClose(s, openIdx)
  {
    var depth, quote: Option<char>, i := 0, None, openIdx;
    var n := |s|;
    hide CloseFrom;
    ghost var answer := MatchingClose(s, openIdx);
    while i < n
      invariant openIdx <= i <= n && (quote.Some? ==> IsQuote(quote.value))
      invariant answer == CloseAt(s, i, ParenState(depth, quote, false))
      decreases n - i
    {
      var c := s[i];
      CloseAtUnfolds(s, i, ParenState(depth, quote, false));
      if quote.Some? {
        if c == '\\' && i + 1 < n {
          CloseAtUnfolds(s, i + 1, ParenState(depth, quote, true));
          i := i + 2;
          continue;
        }
        if c == quote.value {
          quote := None;
        }
        i := i + 1;
        continue;
      }
      if IsQuote(c) {
        quote := Some(c);
        i := i + 1;
        continue;
      }
      if c == '(' {
        depth := depth + 1;
      } else if c == ')' {
        depth := depth - 1;
        if depth == 0 {
          return Some(i);
        }
      }
      i := i + 1;
    }
    CloseAtEnd(s, ParenState(depth, quote, false));
    return None;
  }

  // ----- One parameter

  datatype NameAndAnnotation = NameAndAnnotation(name: string, annotation: Option<string>, hasAnnotation: bool)

  function SplitAnnotation(head: string): NameAndAnnotation {
    match FindTopLevel(head, ':')
    case None => NameAndAnnotation(Strip(head), None, false)
    case Some(k) =>
      var annotation := Strip(head[k + 1..]);
      NameAndAnnotation(Strip(head[..k]), if annotation == [] then None else Some(annotation), annotation != [])
  }

  predicate IsStarToken(token: string) { token == "*" || ("*" <= token && !("**" <= token)) }

  predicate IsSlashToken(token: string) { token == "/" }

  function LastIndex(tokens: seq<string>, test: string -> bool): (r: Option<nat>)
    ensures r.Some? ==> r.value < |tokens|
  {
    if tokens == [] then None
    else if test(tokens[|tokens| - 1]) then Some(|tokens| - 1)
    else LastIndex(tokens[..|tokens| - 1], test)
  }

  function KindAt(idx: nat, keywordOnlyFrom: Option<nat>, positionalOnlyUntil: Option<nat>): ParameterKind {
    if positionalOnlyUntil.Some? && idx <= positionalOnlyUntil.value then PositionalOnly
    else if keywordOnlyFrom.Some? && idx > keywordOnlyFrom.value then KeywordOnly
    else PositionalOrKeyword
  }

  function Variadic(body: string, kind: ParameterKind): Parameter {
    var split := SplitAnnotation(body);
    Parameter(split.name, kind, split.hasAnnotation, split.annotation, false, None)
  }

  /** No parameter for a bare marker, nor for a token without a name. */
  function ParseToken(token: string, kind: ParameterKind): Option<Parameter> {
    if token == "*" || token == "/" then None
    else if "**" <= token then Some(Variadic(Strip(token[2..]), VarKeyword))
    else if "*" <= token then Some(Variadic(Strip(token[1..]), VarPositional))
    else
      var eq := FindTopLevel(token, '=');
      var head := if eq.Some? then Strip(token[..eq.value]) else token;
      var defaultText := if eq.Some? then Some(Strip(token[eq.value + 1..])) else None;
      var split := SplitAnnotation(head);
      if split.name == [] then None
      else Some(Parameter(split.name, kind, split.hasAnnotation, split.annotation, eq.Some?, defaultText))
  }

  // ----- Parsing a parameter loses nothing but space

  /** The text without its whitespace. */
  function Dense(s: string): string {
    if s == [] then [] else (if IsSpace(s[0]) then [] else [s[0]]) + Dense(s[1..])
  }

  function Stars(kind: ParameterKind): string {
    match kind case VarPositional => "*" case VarKeyword => "**" case _ => ""
  }

  /** The token is stars, name, annotation and default of the parameter, but for space and a colon nothing follows. */
  ghost predicate LosesOnlySpace(token: string, p: Parameter) {
    exists colon: string | colon == "" || colon == ":" ::
      Dense(token) == Stars(p.kind) + DenseHead(p.name, p.annotationText, colon) + DenseDefault(p.defaultText)
  }

  function DenseHead(name: string, annotation: Option<string>, colon: string): string {
    Dense(name) + if annotation.Some? then ":" + Dense(annotation.value) else colon
  }

  function DenseDefault(text: Option<string>): string { if text.Some? then "=" + Dense(text.value) else "" }

  /** Nothing that could be a name comes first in the token. */
  predicate IsNameless(token: string) {
    var d := Dense(token); d == [] || d[0] == ':' || d[0] == '='
  }

  lemma {:induction false} DenseOfConcatenation(x: string, y: string)
    ensures Dense(x + y) == Dense(x) + Dense(y)
  {
    if x == [] {
      assert x + y == y;
    } else {
      assert (x + y)[1..] == x[1..] + y;
      DenseOfConcatenation(x[1..], y);
    }
  }

  lemma {:induction false} DenseOfStripLeft(s: string)
    ensures Dense(StripLeft(s)) == Dense(s)
  {
    if s != [] && IsSpace(s[0]) {
      DenseOfStripLeft(s[1..]);
    }
  }

  lemma {:induction false} DenseOfStripRight(s: string)
    ensures Dense(StripRight(s)) == Dense(s)
    decreases |s|
  {
    if s != [] && IsSpace(s[|s| - 1]) {
      var front, last := s[..|s| - 1], [s[|s| - 1]];
      DenseOfStripRight(front);
      assert s == front + last && last[1..] == [];
      DenseOfConcatenation(front, last);
    }
  }

  lemma DenseOfStrip(s: string)
    ensures Dense(Strip(s)) == Dense(s)
  {
    DenseOfStripLeft(s);
    DenseOfStripRight(StripLeft(s));
  }

  /** Cutting at a sign keeps what is on both sides of it. */
  lemma DenseAround(s: string, k: nat)
    requires k < |s| && !IsSpace(s[k])
    ensures Dense(s) == Dense(Strip(s[..k])) + ([s[k]] + Dense(Strip(s[k + 1..])))
  {
    hide Strip;
    var x, c, y := s[..k], [s[k]], s[k + 1..];
    assert s == x + (c + y) && c[1..] == [];
    DenseOfConcatenation(x, c + y);
    DenseOfConcatenation(c, y);
    DenseOfStrip(x);
    DenseOfStrip(y);
  }

  function ColonOf(head: string): (colon: string)
    ensures colon == "" || colon == ":"
  {
    if FindTopLevel(head, ':').None? then "" else ":"
  }

  lemma AnnotationLosesOnlySpace(head: string)
    ensures var split := SplitAnnotation(head);
      Dense(head) == DenseHead(split.name, split.annotation, ColonOf(head))
  {
    hide Strip, FindTopLevel, Dense;
    match FindTopLevel(head, ':') {
      case None =>
        DenseOfStrip(head);
      case Some(k) =>
        FindIsFirst(head, ':');
        DenseAround(head, k);
        NothingDense();
        assert head[k] == ':';
    }
  }

  lemma DefaultLosesOnlySpace(token: string)
    ensures var eq := FindTopLevel(token, '=');
      if eq.Some? then
        Dense(token) == Dense(Strip(token[..eq.value])) + DenseDefault(Some(Strip(token[eq.value + 1..])))
      else Dense(token) == Dense(token) + DenseDefault(None)
  {
    hide Strip, FindTopLevel, Dense;
    var eq := FindTopLevel(token, '=');
    if eq.Some? {
      FindIsFirst(token, '=');
      DenseAround(token, eq.value);
    }
  }

  lemma NothingDense()
    ensures Dense([]) == []
  {
  }

  lemma {:induction false} DenseOfSolid(s: string)
    requires forall c | c in s :: !IsSpace(c)
    ensures Dense(s) == s
  {
    if s != [] {
      assert s[0] in s;
      DenseOfSolid(s[1..]);
    }
  }

  lemma DenseOfStars(token: string, n: nat)
    requires n <= |token| && forall k | 0 <= k < n :: token[k] == '*'
    ensures Dense(token) == token[..n] + Dense(Strip(token[n..]))
  {
    hide Strip, Dense;
    var stars, body := token[..n], token[n..];
    assert token == stars + body;
    DenseOfConcatenation(stars, body);
    DenseOfSolid(stars);
    DenseOfStrip(body);
  }

  lemma StarsLoseOnlySpace(token: string, kind: ParameterKind)
    requires "*" <= token && token != "*" && kind != VarPositional && kind != VarKeyword
    ensures var p := ParseToken(token, kind); p.Some? && LosesOnlySpace(token, p.value)
  {
    hide Strip, FindTopLevel, Dense, SplitAnnotation, DenseHead, ColonOf;
    var n := if "**" <= token then 2 else 1;
    var p, body := ParseToken(token, kind).value, Strip(token[n..]);
    DenseOfStars(token, n);
    AnnotationLosesOnlySpace(body);
    var split := SplitAnnotation(body);
    assert p.name == split.name && p.annotationText == split.annotation && Stars(p.kind) == token[..n];
    assert Dense(token)
        == Stars(p.kind) + DenseHead(p.name, p.annotationText, ColonOf(body)) + DenseDefault(p.defaultText);
  }

  /**
    * Whatever the token: the parameter it gives holds all of it but space, and only a marker or a nameless token gives
    * none.
    */
  lemma ParsingLosesOnlySpace(token: string, kind: ParameterKind)
    requires kind != VarPositional && kind != VarKeyword
    ensures var p := ParseToken(token, kind);
      if p.Some? then LosesOnlySpace(token, p.value) else token == "*" || token == "/" || IsNameless(token)
  {
    hide Strip, FindTopLevel, Dense, SplitAnnotation, DenseHead, ColonOf;
    var p := ParseToken(token, kind);
    if token == "*" || token == "/" {
    } else if "*" <= token {
      StarsLoseOnlySpace(token, kind);
    } else {
      var eq := FindTopLevel(token, '=');
      var head := if eq.Some? then Strip(token[..eq.value]) else token;
      var defaultText := if eq.Some? then Some(Strip(token[eq.value + 1..])) else None;
      DefaultLosesOnlySpace(token);
      AnnotationLosesOnlySpace(head);
      var split := SplitAnnotation(head);
      var dense := DenseHead(split.name, split.annotation, ColonOf(head));
      assert Dense(token) == dense + DenseDefault(defaultText);
      if p.Some? {
        assert "" + dense == dense;
        assert p == Some(Parameter(split.name, kind, split.hasAnnotation, split.annotation, eq.Some?, defaultText));
      } else {
        assert Dense(split.name) == [] by { NothingDense(); }
        NamelessHead(split.name, split.annotation, ColonOf(head));
      }
    }
  }

  lemma NamelessHead(name: string, annotation: Option<string>, colon: string)
    requires Dense(name) == [] && (colon == "" || colon == ":")
    ensures DenseHead(name, annotation, colon) == [] || DenseHead(name, annotation, colon)[0] == ':'
  {
    hide Dense;
  }

  // ----- The parameter list

  function NonEmptyStripped(parts: seq<string>): seq<string> {
    if parts == [] then []
    else (if Strip(parts[0]) == [] then [] else [Strip(parts[0])]) + NonEmptyStripped(parts[1..])
  }

  /** The results of parsing each token at its index, the absent ones left out. */
  function Collect<T>(tokens: seq<string>, idx: nat, parse: (string, nat) -> Option<T>): seq<T> {
    if tokens == [] then []
    else (match parse(tokens[0], idx) case None => [] case Some(p) => [p]) + Collect(tokens[1..], idx + 1, parse)
  }

  function TokenParser(keywordOnlyFrom: Option<nat>, positionalOnlyUntil: Option<nat>)
    : (string, nat) -> Option<Parameter> {
    (token: string, idx: nat) => ParseToken(token, KindAt(idx, keywordOnlyFrom, positionalOnlyUntil))
  }

  function ParameterList(text: string): seq<Parameter> {
    var tokens := NonEmptyStripped(Split(text, ','));
    Collect(tokens, 0, TokenParser(LastIndex(tokens, IsStarToken), LastIndex(tokens, IsSlashToken)))
  }

  method ParseParameter(token: string, idx: nat, keywordOnlyFrom: Option<nat>, positionalOnlyUntil: Option<nat>)
    returns (p: Option<Parameter>)
    ensures p == ParseToken(token, KindAt(idx, keywordOnlyFrom, positionalOnlyUntil))
    ensures if p.Some? then LosesOnlySpace(token, p.value) else token == "*" || token == "/" || IsNameless(token)
  {
    hide LosesOnlySpace, Strip, SplitAnnotation, FindTopLevel;
    ParsingLosesOnlySpace(token, KindAt(idx, keywordOnlyFrom, positionalOnlyUntil));
    if token == "*" || token == "/" {
      return None;
    }
    if "**" <= token {
      return Some(Variadic(Strip(token[2..]), VarKeyword));
    }
    if "*" <= token {
      return Some(Variadic(Strip(token[1..]), VarPositional));
    }
    var eq := FindTopLevelIndex(token, '=');
    var head, defaultText: Option<string> := token, None;
    if eq.Some? {
      head, defaultText := Strip(token[..eq.value]), Some(Strip(token[eq.value + 1..]));
    }
    var split := SplitAnnotation(head);
    if split.name == [] {
      return None;
    }
    var kind;
    if positionalOnlyUntil.Some? && idx <= positionalOnlyUntil.value {
      kind := PositionalOnly;
    } else if keywordOnlyFrom.Some? && idx > keywordOnlyFrom.value {
      kind := KeywordOnly;
    } else {
      kind := PositionalOrKeyword;
    }
    return Some(Parameter(split.name, kind, split.hasAnnotation, split.annotation, eq.Some?, defaultText));
  }

  /** Where the keyword-only section opens and the positional-only one closes: the last marker of each sort. */
  method FindMarkers(tokens: seq<string>) returns (keywordOnlyFrom: Option<nat>, positionalOnlyUntil: Option<nat>)
    ensures keywordOnlyFrom == LastIndex(tokens, IsStarToken)
    ensures positionalOnlyUntil == LastIndex(tokens, IsSlashToken)
  {
    keywordOnlyFrom, positionalOnlyUntil := None, None;
    for idx := 0 to |tokens|
      invariant keywordOnlyFrom == LastIndex(tokens[..idx], IsStarToken)
      invariant positionalOnlyUntil == LastIndex(tokens[..idx], IsSlashToken)
    {
      var token := tokens[idx];
      assert tokens[..idx + 1][..idx] == tokens[..idx];
      if token == "*" || ("*" <= token && !("**" <= token)) {
        keywordOnlyFrom := Some(idx);
      } else if token == "/" {
        positionalOnlyUntil := Some(idx);
      }
    }
    assert tokens[..|tokens|] == tokens;
  }

  /** One more token: its parameter, if it has one, joins those already collected. */
  lemma CollectStep<T>(tokens: seq<string>, idx: nat, parse: (string, nat) -> Option<T>, found: seq<T>, p: Option<T>)
    requires idx < |tokens| && p == parse(tokens[idx], idx)
    ensures found + Collect(tokens[idx..], idx, parse)
         == (if p.Some? then found + [p.value] else found) + Collect(tokens[idx + 1..], idx + 1, parse)
  {
    assert tokens[idx..][1..] == tokens[idx + 1..];
  }

  method CollectParameters(tokens: seq<string>, keywordOnlyFrom: Option<nat>, positionalOnlyUntil: Option<nat>)
    returns (parameters: seq<Parameter>)
    ensures parameters == Collect(tokens, 0, TokenParser(keywordOnlyFrom, positionalOnlyUntil))
  {
    parameters := [];
    ghost var parse := TokenParser(keywordOnlyFrom, positionalOnlyUntil);
    ghost var whole := Collect(tokens, 0, parse);
    assert tokens[0..] == tokens;
    for idx := 0 to |tokens|
      invariant whole == parameters + Collect(tokens[idx..], idx, parse)
    {
      var p := ParseParameter(tokens[idx], idx, keywordOnlyFrom, positionalOnlyUntil);
      CollectStep(tokens, idx, parse, parameters, p);
      if p.Some? {
        parameters := parameters + [p.value];
      }
    }
  }

  method ParseParameters(text: string) returns (parameters: seq<Parameter>)
    ensures parameters == ParameterList(text)
  {
    var parts := SplitTopLevel(text, ',');
    var rawTokens := NonEmptyStripped(parts);
    var keywordOnlyFrom, positionalOnlyUntil := FindMarkers(rawTokens);
    parameters := CollectParameters(rawTokens, keywordOnlyFrom, positionalOnlyUntil);
  }

  // ----- The `def` header, as the leftmost match of a regular expression

  /** `open` is the offset of the parenthesis that ends the match. */
  datatype Header = Header(isAsync: bool, name: string, open: nat)

  function Shift(h: Option<Header>, offset: nat): Option<Header> {
    match h case None => None case Some(x) => Some(x.(open := x.open + offset))
  }

  /** The match, if any, ends with an opening parenthesis of `s`. */
  predicate EndsAtParen(h: Option<Header>, s: string) {
    h.Some? ==> h.value.open < |s| && s[h.value.open] == '('
  }

  lemma ShiftEndsAtParen(h: Option<Header>, s: string, offset: nat)
    requires offset <= |s| && EndsAtParen(h, s[offset..])
    ensures EndsAtParen(Shift(h, offset), s)
  {
  }

  /** What must follow `def`: spaces, an identifier, optional spaces, a parenthesis. */
  function AfterDef(t: string, isAsync: bool): (r: Option<Header>)
    ensures EndsAtParen(r, t)
  {
    var gap := Span(t, IsSpace);
    var u := t[gap..];
    var n := Span(u, IsWordChar);
    var v := u[n..];
    var more := Span(v, IsSpace);
    if gap == 0 || n == 0 || IsDigit(u[0]) || more == |v| || v[more] != '(' then None
    else
      assert v[more] == u[n + more] == t[gap + n + more];
      Some(Header(isAsync, u[..n], gap + n + more))
  }

  /** After `async`: spaces, then `def` and what must follow it. */
  function AfterAsync(v: string): (r: Option<Header>)
    ensures EndsAtParen(r, v)
  {
    var gap := Span(v, IsSpace);
    var w := v[gap..];
    if gap > 0 && "def" <= w then
      assert w[3..] == v[gap + 3..];
      ShiftEndsAtParen(AfterDef(w[3..], true), v, gap + 3);
      Shift(AfterDef(w[3..], true), gap + 3)
    else None
  }

  /** A header at the very front of `t`, after optional indentation. */
  function HeaderAtLineStart(t: string): (r: Option<Header>)
    ensures EndsAtParen(r, t)
  {
    var indent := Span(t, IsBlank);
    var u := t[indent..];
    if "async" <= u then
      assert u[5..] == t[indent + 5..];
      ShiftEndsAtParen(AfterAsync(u[5..]), t, indent + 5);
      Shift(AfterAsync(u[5..]), indent + 5)
    else if "def" <= u then
      assert u[3..] == t[indent + 3..];
      ShiftEndsAtParen(AfterDef(u[3..], false), t, indent + 3);
      Shift(AfterDef(u[3..], false), indent + 3)
    else None
  }

  /** A match that begins at `p`: at the start of the text, or at a newline. */
  function HeaderAt(s: string, p: nat): (r: Option<Header>)
    requires p <= |s|
    ensures EndsAtParen(r, s)
  {
    hide HeaderAtLineStart, Shift;
    if p == 0 && HeaderAtLineStart(s).Some? then HeaderAtLineStart(s)
    else if p < |s| && s[p] == '\n' then
      ShiftEndsAtParen(HeaderAtLineStart(s[p + 1..]), s, p + 1);
      Shift(HeaderAtLineStart(s[p + 1..]), p + 1)
    else None
  }

  function FindHeader(s: string, p: nat): (r: Option<Header>)
    requires p <= |s|
    ensures EndsAtParen(r, s)
    decreases |s| - p
  {
    hide HeaderAt;
    if HeaderAt(s, p).Some? then HeaderAt(s, p) else if p < |s| then FindHeader(s, p + 1) else None
  }

  // ----- The whole signature

  /** What follows the closing parenthesis: an optional `->` and its annotation. */
  function ReturnAnnotation(remainder: string): Option<string> {
    var rest := Strip(remainder);
    if "->" <= rest && Strip(rest[2..]) != [] then Some(Strip(rest[2..])) else None
  }

  function Assemble(h: Header, parameters: seq<Parameter>, remainder: string): Option<FunctionSignature> {
    if exists p | p in parameters :: !IsIdentifier(p.name) then None
    else
      var annotation := ReturnAnnotation(remainder);
      Some(FunctionSignature(h.name, h.isAsync, parameters, annotation.Some?, annotation))
  }

  function ParseFrom(text: string, h: Header): Option<FunctionSignature>
    requires h.open < |text| && text[h.open] == '('
  {
    match MatchingClose(text, h.open)
    case None => None
    case Some(close) => Assemble(h, ParameterList(text[h.open + 1..close]), text[close + 1..])
  }

  function Parse(text: string): Option<FunctionSignature> {
    match FindHeader(text, 0)
    case None => None
    case Some(h) => ParseFrom(text, h)
  }

  method ParseAfterHeader(text: string, header: Header) returns (signature: Option<FunctionSignature>)
    requires header.open < |text| && text[header.open] == '('
    ensures signature == ParseFrom(text, header)
  {
    hide MatchingClose, ParameterList, Assemble;
    var parenClose := FindMatchingClose(text, header.open);
    if parenClose.None? {
      return None;
    }
    var parameters := ParseParameters(text[header.open + 1..parenClose.value]);
    signature := Assemble(header, parameters, text[parenClose.value + 1..]);
  }
}
