/** What the parser answers for every text, legal or not: the header, the closing parenthesis, and what is rejected. */
module SignatureMeaning {
  import opened Wrappers
  import opened PythonText
  import opened SignatureScanner
  import opened SignatureParser
  import opened SignatureSyntax
  import opened SignatureSplitting
  import opened SignatureRoundTrip
  import opened Selection

  // ----- The header

  /** A name of the language: letters, digits and underscores, not beginning with a digit. */
  predicate IsName(s: string) {
    && s != "" && !('0' <= s[0] <= '9')
    && forall c | c in s :: 'a' <= c <= 'z' || 'A' <= c <= 'Z' || '0' <= c <= '9' || c == '_'
  }

  lemma IdentifiersAreNames(s: string)
    ensures IsIdentifier(s) <==> IsName(s)
  {
  }

  function Spelled(indent: string, asyncGap: Option<string>, defGap: string, name: string, parenGap: string): string {
    indent + (if asyncGap.Some? then "async" + asyncGap.value else "") + "def" + defGap + name + parenGap + "("
  }

  ghost predicate IsLayout(indent: string, asyncGap: Option<string>, defGap: string, name: string, parenGap: string) {
    && (forall c | c in indent :: c == ' ' || c == '\t')
    && (asyncGap.Some? ==> asyncGap.value != "" && AllSpace(asyncGap.value))
    && defGap != "" && AllSpace(defGap) && IsName(name) && AllSpace(parenGap)
  }

  /** The text is an indent, `def` or `async def`, the name and an opening parenthesis, with spaces between them. */
  ghost predicate SpellsHeader(t: string, isAsync: bool, name: string) {
    exists indent, asyncGap: Option<string>, defGap, parenGap ::
      && IsLayout(indent, asyncGap, defGap, name, parenGap) && (isAsync <==> asyncGap.Some?)
      && t == Spelled(indent, asyncGap, defGap, name, parenGap)
  }

  lemma SpelledIsFound(indent: string, asyncGap: Option<string>, defGap: string, name: string, parenGap: string,
                       rest: string)
    requires IsLayout(indent, asyncGap, defGap, name, parenGap)
    ensures var t := Spelled(indent, asyncGap, defGap, name, parenGap);
      HeaderAtLineStart(t + rest) == Some(Header(asyncGap.Some?, name, |t| - 1))
  {
    hide HeaderAtLineStart, AfterDef, AfterAsync, IsName;
    IdentifiersAreNames(name);
    var afterDef := defGap + (name + (parenGap + ("(" + rest)));
    var u := if asyncGap.Some? then "async" + (asyncGap.value + ("def" + afterDef)) else "def" + afterDef;
    assert Spelled(indent, asyncGap, defGap, name, parenGap) + rest == indent + u;
    AfterDefMatches(defGap, name, parenGap, rest, asyncGap.Some?);
    match asyncGap {
      case None =>
        DropFront("def", afterDef);
        assert u[0] == 'd';
        IndentedHeader(indent, u);
      case Some(gap) =>
        DropFront("async", gap + ("def" + afterDef));
        AfterAsyncMatches(gap, afterDef);
        IndentedHeader(indent, u);
    }
  }

  lemma Halves(t: string, n: nat)
    requires n <= |t|
    ensures t == t[..n] + t[n..]
  {
  }

  lemma SpannedPasses(t: string, test: char -> bool)
    ensures forall c | c in t[..Span(t, test)] :: test(c)
  {
  }

  lemma SpannedSpace(t: string)
    ensures AllSpace(t[..Span(t, IsSpace)])
  {
    SpannedPasses(t, IsSpace);
  }

  lemma WordCharsSpell(u: string)
    requires u != [] && !IsDigit(u[0]) && Span(u, IsWordChar) > 0
    ensures IsName(u[..Span(u, IsWordChar)])
  {
    hide IsWordChar;
    SpannedPasses(u, IsWordChar);
    IdentifiersAreNames(u[..Span(u, IsWordChar)]);
  }

  lemma AfterDefShape(t: string, isAsync: bool) returns (defGap: string, name: string, parenGap: string, rest: string)
    requires AfterDef(t, isAsync).Some?
    ensures AfterDef(t, isAsync).value == Header(isAsync, name, |defGap| + |name| + |parenGap|)
    ensures t == defGap + (name + (parenGap + ("(" + rest)))
    ensures defGap != "" && AllSpace(defGap) && IsName(name) && AllSpace(parenGap)
  {
    hide Span, IsName, IsSpace, IsWordChar, IsDigit, AllSpace, EndsAtParen;
    var gap := Span(t, IsSpace);
    var u := t[gap..];
    var n := Span(u, IsWordChar);
    var v := u[n..];
    var more := Span(v, IsSpace);
    var w := v[more..];
    SpannedSpace(t);
    SpannedSpace(v);
    WordCharsSpell(u);
    CutInFour(t, gap, n, more);
    defGap, name, parenGap, rest := t[..gap], u[..n], v[..more], w[1..];
  }

  lemma CutInFour(t: string, gap: nat, n: nat, more: nat)
    requires gap + n + more < |t| && t[gap + n + more] == '('
    ensures var u := t[gap..];
      var v := u[n..];
      var w := v[more..];
      t == t[..gap] + (u[..n] + (v[..more] + ("(" + w[1..]))) && |v| > more && v[more] == '('
  {
    var u := t[gap..];
    var v := u[n..];
    Halves(t, gap);
    Halves(u, n);
    Halves(v, more);
    ParenFirst(v[more..]);
  }

  lemma ParenFirst(w: string)
    requires w != [] && w[0] == '('
    ensures w == "(" + w[1..]
  {
  }

  lemma FoundIsSpelled(t: string)
    requires HeaderAtLineStart(t).Some?
    ensures var h := HeaderAtLineStart(t).value; SpellsHeader(t[..h.open + 1], h.isAsync, h.name)
  {
    hide Span, AfterDef, AfterAsync, IsBlank, SpellsHeader, Spelled, IsName, EndsAtParen;
    var k := Span(t, IsBlank);
    var indent, u := t[..k], t[k..];
    SpannedPasses(t, IsBlank);
    Halves(t, k);
    if "async" <= u {
      Halves(u, 5);
      assert u[..5] == "async";
      AsyncIsSpelled(indent, u[5..]);
    } else {
      Halves(u, 3);
      assert u[..3] == "def";
      PlainIsSpelled(indent, u[3..]);
    }
  }

  lemma PlainIsSpelled(indent: string, v: string)
    requires AllBlank(indent) && AfterDef(v, false).Some?
    ensures var h, t := AfterDef(v, false).value, indent + ("def" + v);
      SpellsHeader(t[..|indent| + 3 + h.open + 1], h.isAsync, h.name)
  {
    hide Span, AfterDef, IsSpace, SpellsHeader, Spelled, IsName;
    var defGap, name, parenGap, rest := AfterDefShape(v, false);
    FrontIsSpelled(indent, None, defGap, name, parenGap, rest);
  }

  lemma AsyncIsSpelled(indent: string, v: string)
    requires AllBlank(indent) && AfterAsync(v).Some?
    ensures var h, t := AfterAsync(v).value, indent + ("async" + v);
      SpellsHeader(t[..|indent| + 5 + h.open + 1], h.isAsync, h.name)
  {
    hide Span, AfterDef, IsSpace, SpellsHeader, Spelled, IsName, EndsAtParen;
    var g := Span(v, IsSpace);
    var gap, w := v[..g], v[g..];
    SpannedPasses(v, IsSpace);
    Halves(v, g);
    Halves(w, 3);
    assert w[..3] == "def";
    var defGap, name, parenGap, rest := AfterDefShape(w[3..], true);
    FrontIsSpelled(indent, Some(gap), defGap, name, parenGap, rest);
  }

  /** The front of the text, as the pieces found one after the other make it up. */
  lemma FrontIsSpelled(indent: string, asyncGap: Option<string>, defGap: string, name: string, parenGap: string,
                       rest: string)
    requires AllBlank(indent) && (asyncGap.Some? ==> asyncGap.value != "" && AllSpace(asyncGap.value))
    requires defGap != "" && AllSpace(defGap) && IsName(name) && AllSpace(parenGap)
    ensures var after := "def" + (defGap + (name + (parenGap + ("(" + rest))));
      var t := indent + if asyncGap.Some? then "async" + (asyncGap.value + after) else after;
      var n := |indent| + (if asyncGap.Some? then 5 + |asyncGap.value| else 0) + 3 + |defGap| + |name| + |parenGap|;
      SpellsHeader(t[..n + 1], asyncGap.Some?, name)
  {
    hide IsName, AllSpace;
    var after := "def" + (defGap + (name + (parenGap + ("(" + rest))));
    var t := indent + if asyncGap.Some? then "async" + (asyncGap.value + after) else after;
    var front := Spelled(indent, asyncGap, defGap, name, parenGap);
    assert t == front + rest;
    assert t[..|front|] == front;
    assert IsLayout(indent, asyncGap, defGap, name, parenGap);
  }

  /** At the front of a text there is a header exactly where one is spelled, and then only that one. */
  lemma LineStartMeans(t: string, h: Header)
    ensures HeaderAtLineStart(t) == Some(h) <==> h.open < |t| && SpellsHeader(t[..h.open + 1], h.isAsync, h.name)
  {
    hide HeaderAtLineStart, IsLayout;
    if HeaderAtLineStart(t) == Some(h) {
      FoundIsSpelled(t);
    }
    if h.open < |t| && SpellsHeader(t[..h.open + 1], h.isAsync, h.name) {
      var indent, asyncGap, defGap, parenGap :|
        && IsLayout(indent, asyncGap, defGap, h.name, parenGap) && (h.isAsync <==> asyncGap.Some?)
        && t[..h.open + 1] == Spelled(indent, asyncGap, defGap, h.name, parenGap);
      SpelledIsFound(indent, asyncGap, defGap, h.name, parenGap, t[h.open + 1..]);
      assert t == t[..h.open + 1] + t[h.open + 1..];
    }
  }

  ghost predicate IsLineStart(s: string, at: nat) { at == 0 || (at <= |s| && s[at - 1] == '\n') }

  ghost predicate OpensAt(s: string, at: nat, h: Header) {
    at <= h.open < |s| && SpellsHeader(s[at..h.open + 1], h.isAsync, h.name)
  }

  ghost predicate NeverOpens(s: string, at: nat) { forall h: Header :: !OpensAt(s, at, h) }

  ghost predicate OpensNowhereBefore(s: string, end: nat) {
    forall at: nat, h | at < end && IsLineStart(s, at) :: !OpensAt(s, at, h)
  }

  lemma OpensAtMeans(s: string, at: nat, h: Header)
    requires at <= |s|
    ensures OpensAt(s, at, h) <==> Shift(HeaderAtLineStart(s[at..]), at) == Some(h)
  {
    hide HeaderAtLineStart, SpellsHeader;
    if at <= h.open {
      var x := h.(open := h.open - at);
      LineStartMeans(s[at..], x);
      assert h.open < |s| ==> s[at..][..x.open + 1] == s[at..h.open + 1];
    }
  }

  lemma HeaderAtMeans(s: string, p: nat)
    requires p <= |s|
    ensures match HeaderAt(s, p)
            case Some(h) =>
              || (p == 0 && OpensAt(s, 0, h))
              || (p < |s| && s[p] == '\n' && OpensAt(s, p + 1, h) && (p == 0 ==> NeverOpens(s, 0)))
            case None =>
              && (p == 0 ==> NeverOpens(s, 0))
              && (p < |s| && s[p] == '\n' ==> NeverOpens(s, p + 1))
  {
    hide HeaderAtLineStart, SpellsHeader;
    NeverOpensMeans(s, 0);
    assert s[0..] == s;
    if p == 0 && HeaderAtLineStart(s).Some? {
      OpensAtMeans(s, 0, HeaderAtLineStart(s).value);
    }
    if p < |s| && s[p] == '\n' {
      NeverOpensMeans(s, p + 1);
      var found := Shift(HeaderAtLineStart(s[p + 1..]), p + 1);
      if found.Some? {
        OpensAtMeans(s, p + 1, found.value);
      }
    }
  }

  lemma NeverOpensMeans(s: string, at: nat)
    requires at <= |s|
    ensures NeverOpens(s, at) <==> HeaderAtLineStart(s[at..]).None?
  {
    hide HeaderAtLineStart, SpellsHeader;
    var found := Shift(HeaderAtLineStart(s[at..]), at);
    forall h: Header ensures OpensAt(s, at, h) <==> found == Some(h) {
      OpensAtMeans(s, at, h);
    }
    if found.Some? {
      assert OpensAt(s, at, found.value);
    }
  }

  /** Where a search that goes on from `p` has already looked. */
  function Looked(p: nat): nat { if p == 0 then 0 else p + 1 }

  lemma {:induction false} FindHeaderFrom(s: string, p: nat)
    requires p <= |s| && OpensNowhereBefore(s, Looked(p))
    ensures match FindHeader(s, p)
            case Some(h) => exists at: nat :: IsLineStart(s, at) && OpensAt(s, at, h) && OpensNowhereBefore(s, at)
            case None => OpensNowhereBefore(s, |s| + 1)
    decreases |s| - p
  {
    hide FindHeader, HeaderAt, OpensAt;
    FindHeaderUnfolds(s, p);
    HeaderAtMeans(s, p);
    if HeaderAt(s, p).None? {
      forall at: nat, h | at < Looked(p + 1) && at <= |s| && IsLineStart(s, at) ensures !OpensAt(s, at, h) {
        assert at < Looked(p) || (at == 0 && p == 0) || at == p + 1;
      }
      assert OpensNowhereBefore(s, if p < |s| then Looked(p + 1) else |s| + 1);
      if p < |s| {
        FindHeaderFrom(s, p + 1);
      }
    } else {
      var h := HeaderAt(s, p).value;
      if p == 0 && OpensAt(s, 0, h) {
        assert IsLineStart(s, 0) && OpensNowhereBefore(s, 0);
      } else {
        forall at: nat, x | at < p + 1 && IsLineStart(s, at) ensures !OpensAt(s, at, x) {
          assert at < Looked(p) || (at == 0 && p == 0);
        }
        assert IsLineStart(s, p + 1) && OpensNowhereBefore(s, p + 1);
      }
    }
  }

  /** The header found is the one spelled at the first line that any header opens; without such a line there is none. */
  lemma FindHeaderMeans(s: string)
    ensures match FindHeader(s, 0)
            case Some(h) => exists at: nat :: IsLineStart(s, at) && OpensAt(s, at, h) && OpensNowhereBefore(s, at)
            case None => OpensNowhereBefore(s, |s| + 1)
  {
    FindHeaderFrom(s, 0);
  }

  // ----- Brackets, outside string literals

  /**
    * Which characters stand outside string literals; `quote` is the one that is open, `escaped` by a backslash or not.
    */
  ghost function Outside(t: string, quote: Option<char>, escaped: bool): (out: seq<bool>)
    ensures |out| == |t|
  {
    if t == "" then []
    else
      var c, rest := t[0], t[1..];
      if quote.Some? then
        [false] + (if escaped then Outside(rest, quote, false)
                   else if c == quote.value then Outside(rest, None, false)
                   else Outside(rest, quote, c == '\\'))
      else if c == '\'' || c == '"' then [false] + Outside(rest, Some(c), false)
      else [true] + Outside(rest, None, false)
  }

  /** How many brackets that stand outside literals are open after the first `k` characters. */
  ghost function Depth(t: string, out: seq<bool>, opens: set<char>, closes: set<char>, k: nat): int
    requires k <= |t| == |out|
  {
    if k == 0 then 0
    else
      Depth(t, out, opens, closes, k - 1)
      + if out[k - 1] && t[k - 1] in opens then 1 else if out[k - 1] && t[k - 1] in closes then -1 else 0
  }

  lemma {:induction false} DepthFromFront(t: string, out: seq<bool>, opens: set<char>, closes: set<char>, k: nat)
    requires 0 < k <= |t| == |out|
    ensures Depth(t, out, opens, closes, k)
         == Depth(t[1..], out[1..], opens, closes, k - 1)
            + if out[0] && t[0] in opens then 1 else if out[0] && t[0] in closes then -1 else 0
    decreases k
  {
    if k > 1 {
      DepthFromFront(t, out, opens, closes, k - 1);
    }
  }

  /** The parenthesis at `k` closes the first one: outside literals, with one still open before it. */
  ghost predicate ClosesAt(t: string, out: seq<bool>, open: int, k: nat) {
    && k < |t| == |out| && out[k] && t[k] == ')' && open + Depth(t, out, {'('}, {')'}, k) == 1
  }

  ghost predicate ClosesFirstAt(t: string, out: seq<bool>, open: int, k: nat) {
    ClosesAt(t, out, open, k) && forall j: nat | j < k :: !ClosesAt(t, out, open, j)
  }

  ghost predicate NeverCloses(t: string, out: seq<bool>, open: int) { forall k: nat :: !ClosesAt(t, out, open, k) }

  lemma ClosesAtFromFront(t: string, out: seq<bool>, open: int, k: nat)
    requires t != [] && |out| == |t|
    ensures k > 0 ==>
      (ClosesAt(t, out, open, k)
       <==> ClosesAt(t[1..], out[1..],
                     open + (if out[0] && t[0] == '(' then 1 else if out[0] && t[0] == ')' then -1 else 0), k - 1))
    ensures ClosesAt(t, out, open, 0) <==> out[0] && t[0] == ')' && open == 1
  {
    if 0 < k < |t| {
      DepthFromFront(t, out, {'('}, {')'}, k);
    }
  }

  lemma {:induction false} CloseFromMeans(t: string, st: ParenState)
    requires (st.skip ==> st.quote.Some?) && (st.quote.Some? ==> IsQuote(st.quote.value))
    ensures match CloseFrom(t, st)
            case Some(k) => ClosesFirstAt(t, Outside(t, st.quote, st.skip), st.depth, k)
            case None => NeverCloses(t, Outside(t, st.quote, st.skip), st.depth)
    decreases |t|
  {
    hide ClosesAt, Outside;
    var out := Outside(t, st.quote, st.skip);
    if t == [] {
      assert NeverCloses(t, out, st.depth) by { NothingCloses(st.depth); }
    } else {
      var next := NextParen(t[0], st);
      CloseFromMeans(t[1..], next);
      OutsideUnfolds(t, st.quote, st.skip);
      assert out[1..] == Outside(t[1..], next.quote, next.skip);
      forall k: nat
        ensures k > 0 ==> (ClosesAt(t, out, st.depth, k) <==> ClosesAt(t[1..], out[1..], next.depth, k - 1))
        ensures ClosesAt(t, out, st.depth, 0) <==> Closes(t[0], st)
      {
        ClosesAtFromFront(t, out, st.depth, k);
      }
    }
  }

  /** What the character says about itself, and what is open after it. */
  lemma OutsideUnfolds(t: string, quote: Option<char>, escaped: bool)
    requires t != "" && (quote.Some? ==> IsQuote(quote.value))
    ensures var out, c := Outside(t, quote, escaped), t[0];
      && out[0] == (quote.None? && !IsQuote(c))
      && out[1..] == (if quote.None? then Outside(t[1..], if IsQuote(c) then Some(c) else None, false)
                      else if escaped || (c != '\\' && c != quote.value) then Outside(t[1..], quote, false)
                      else if c == '\\' then Outside(t[1..], quote, true)
                      else Outside(t[1..], None, false))
  {
  }

  lemma NothingCloses(open: int)
    ensures NeverCloses("", [], open)
  {
  }

  /** The search ends at the first parenthesis that balances those it has passed outside literals, if there is one. */
  lemma MatchingCloseMeans(s: string, open: nat)
    requires open <= |s|
    ensures var t := s[open..];
      match MatchingClose(s, open)
      case Some(close) => open <= close && ClosesFirstAt(t, Outside(t, None, false), 0, close - open)
      case None => NeverCloses(t, Outside(t, None, false), 0)
  {
    CloseFromMeans(s[open..], UNQUOTED);
  }

  /** The word is nowhere in the text. */
  ghost predicate HoldsNo(t: string, word: string) { forall k | 0 <= k <= |t| :: !(word <= t[k..]) }

  const OPENS: set<char> := {'(', '[', '{'}
  const CLOSES: set<char> := {')', ']', '}'}

  /** A character is at top level: outside literals, no bracket itself, and with no bracket open before it. */
  ghost predicate IsTopLevel(t: string, out: seq<bool>, open: int, k: nat)
    requires k < |t| == |out|
  {
    out[k] && t[k] !in OPENS && t[k] !in CLOSES && open + Depth(t, out, OPENS, CLOSES, k) == 0
  }

  lemma HoldsNoAfter(t: string, word: string)
    requires t != [] && HoldsNo(t, word)
    ensures HoldsNo(t[1..], word) && !(word <= t)
  {
    assert t[0..] == t;
    forall k | 0 <= k <= |t[1..]| ensures !(word <= t[1..][k..]) {
      assert t[1..][k..] == t[k + 1..];
    }
  }

  lemma {:induction false} MaskFromMeans(afterWord: bool, t: string, st: State)
    requires HoldsNo(t, "lambda") && st.lambdas == 0 && (st.skip == 0 || (st.skip == 1 && st.quote.Some?))
    requires st.quote.Some? ==> IsQuote(st.quote.value)
    ensures var out := Outside(t, st.quote, st.skip == 1);
      forall k: nat | k < |t| :: MaskFrom(afterWord, t, st)[k] <==> IsTopLevel(t, out, st.depth, k)
    decreases |t|
  {
    hide Outside, IsTopLevel, HoldsNo;
    var out := Outside(t, st.quote, st.skip == 1);
    if t != [] {
      OutsideUnfolds(t, st.quote, st.skip == 1);
      HoldsNoAfter(t, "lambda");
      var next := Next(t[0], false, st);
      assert !StartsLambda(afterWord, t);
      MaskFromMeans(IsWordChar(t[0]), t[1..], next);
      forall k: nat | k < |t| ensures MaskFrom(afterWord, t, st)[k] <==> IsTopLevel(t, out, st.depth, k) {
        if k > 0 {
          TopLevelFromFront(t, out, st.depth, k);
          assert out[1..] == Outside(t[1..], next.quote, next.skip == 1);
        } else {
          FirstIsTopLevel(t, out, st.depth);
        }
      }
    }
  }

  lemma FirstIsTopLevel(t: string, out: seq<bool>, open: int)
    requires t != "" && |out| == |t|
    ensures IsTopLevel(t, out, open, 0) <==> out[0] && !IsOpen(t[0]) && !IsClose(t[0]) && open == 0
  {
  }

  lemma TopLevelFromFront(t: string, out: seq<bool>, open: int, k: nat)
    requires 0 < k < |t| == |out|
    ensures IsTopLevel(t, out, open, k)
      <==> IsTopLevel(t[1..], out[1..],
                      open + (if out[0] && IsOpen(t[0]) then 1 else if out[0] && IsClose(t[0]) then -1 else 0), k - 1)
  {
    DepthFromFront(t, out, OPENS, CLOSES, k);
  }

  /** In a text without the word `lambda` exactly the characters outside literals and balanced brackets are marked. */
  lemma MaskMeans(s: string)
    requires HoldsNo(s, "lambda")
    ensures forall k: nat | k < |s| :: Mask(s)[k] <==> IsTopLevel(s, Outside(s, None, false), 0, k)
  {
    MaskFromMeans(false, s, START);
  }

  // ----- The parameter list

  function IsNotBlank(): string -> bool { (part: string) => exists c | c in part :: !IsSpace(c) }

  function Stripped(): string -> string { (part: string) => Strip(part) }

  function IsGiven(): Option<Parameter> -> bool { (p: Option<Parameter>) => p.Some? }

  function Given(): Option<Parameter> -> Parameter {
    (p: Option<Parameter>) => if p.Some? then p.value else Parameter("", VarKeyword, false, None, false, None)
  }

  ghost predicate IsStar(token: string) { token != "" && token[0] == '*' && (|token| == 1 || token[1] != '*') }

  /** The kind of a token's parameter: by its own stars, or by the slash after it and the star before it. */
  ghost predicate HasKind(tokens: seq<string>, k: nat, kind: ParameterKind)
    requires k < |tokens|
  {
    var t := tokens[k];
    var slashed := exists j :: k <= j < |tokens| && tokens[j] == "/";
    var starred := (exists j :: 0 <= j < |tokens| && IsStar(tokens[j])) && forall j | 0 <= j < |tokens|
      && IsStar(tokens[j]) :: j < k;
    if t != "" && t[0] == '*' then kind == if IsStar(t) then VarPositional else VarKeyword
    else kind == if slashed then PositionalOnly else if starred then KeywordOnly else PositionalOrKeyword
  }

  /** A token's parameter holds all of its text but space; only a marker or a nameless token has none. */
  ghost predicate IsReadAs(tokens: seq<string>, k: nat, p: Option<Parameter>)
    requires k < |tokens|
  {
    if p.None? then tokens[k] == "*" || tokens[k] == "/" || IsNameless(tokens[k])
    else
      && LosesOnlySpace(tokens[k], p.value) && HasKind(tokens, k, p.value.kind)
      && (p.value.hasAnnotation <==> p.value.annotationText.Some?) && p.value.annotationText != Some("")
      && (p.value.hasDefault <==> p.value.defaultText.Some?)
  }

  /** The non-blank pieces between the commas, stripped, each read in its place. */
  ghost predicate ReadsList(text: string, ps: seq<Parameter>) {
    exists tokens, parsed ::
      && Selected(Split(text, ','), IsNotBlank(), Stripped(), tokens)
      && |parsed| == |tokens| && (forall k: nat | k < |tokens| :: IsReadAs(tokens, k, parsed[k]))
      && Selected(parsed, IsGiven(), Given(), ps)
  }

  lemma BlankStrips(part: string)
    ensures Strip(part) == "" <==> !IsNotBlank()(part)
  {
    if AllSpace(part) {
      StripBlank(part);
    } else {
      DenseOfStrip(part);
      if Strip(part) == "" {
        NothingDense();
        DenseHoldsSolid(part);
      }
    }
  }

  lemma {:induction false} DenseHoldsSolid(s: string)
    requires Dense(s) == ""
    ensures AllSpace(s)
    decreases |s|
  {
    if s != [] {
      DenseHoldsSolid(s[1..]);
      assert s == [s[0]] + s[1..];
    }
  }

  lemma {:induction false} TokensAreSelected(parts: seq<string>)
    ensures Selected(parts, IsNotBlank(), Stripped(), NonEmptyStripped(parts))
    decreases |parts|
  {
    hide Selected, Strip;
    if parts == [] {
      NoneSelected(IsNotBlank(), Stripped());
    } else {
      TokensAreSelected(parts[1..]);
      BlankStrips(parts[0]);
      SelectedWithFirst(parts[0], parts[1..], IsNotBlank(), Stripped(), NonEmptyStripped(parts[1..]));
      assert parts == [parts[0]] + parts[1..];
    }
  }

  function ParsedAll(tokens: seq<string>, parse: (string, nat) -> Option<Parameter>): (r: seq<Option<Parameter>>)
    ensures |r| == |tokens| && forall k | 0 <= k < |r| :: r[k] == parse(tokens[k], k)
  {
    seq(|tokens|, k requires 0 <= k < |tokens| => parse(tokens[k], k))
  }

  lemma {:induction false} CollectedAreSelected(tokens: seq<string>, i: nat, parse: (string, nat) -> Option<Parameter>)
    requires i <= |tokens|
    ensures Selected(ParsedAll(tokens, parse)[i..], IsGiven(), Given(), Collect(tokens[i..], i, parse))
    decreases |tokens| - i
  {
    hide Selected;
    var parsed := ParsedAll(tokens, parse);
    if i == |tokens| {
      assert parsed[i..] == [] && tokens[i..] == [];
      NoneSelected(IsGiven(), Given());
    } else {
      CollectedAreSelected(tokens, i + 1, parse);
      SelectedWithFirst(parsed[i], parsed[i + 1..], IsGiven(), Given(), Collect(tokens[i + 1..], i + 1, parse));
      assert parsed[i..] == [parsed[i]] + parsed[i + 1..] && tokens[i..][1..] == tokens[i + 1..];
    }
  }

  lemma {:induction false} LastIndexMeans(tokens: seq<string>, test: string -> bool)
    ensures match LastIndex(tokens, test)
            case None => forall j | 0 <= j < |tokens| :: !test(tokens[j])
            case Some(k) => test(tokens[k]) && forall j | k < j < |tokens| :: !test(tokens[j])
    decreases |tokens|
  {
    if tokens != [] {
      LastIndexMeans(tokens[..|tokens| - 1], test);
    }
  }

  lemma StarsMean(token: string)
    ensures IsStarToken(token) <==> IsStar(token)
    ensures "*" <= token <==> token != "" && token[0] == '*'
    ensures "**" <= token <==> |token| >= 2 && token[0] == '*' && token[1] == '*'
  {
  }

  lemma KindMeans(tokens: seq<string>, k: nat)
    requires k < |tokens| && !("*" <= tokens[k])
    ensures HasKind(tokens, k, KindAt(k, LastIndex(tokens, IsStarToken), LastIndex(tokens, IsSlashToken)))
  {
    hide LastIndex, IsStar, IsStarToken;
    LastIndexMeans(tokens, IsStarToken);
    LastIndexMeans(tokens, IsSlashToken);
    forall token ensures IsStarToken(token) <==> IsStar(token) {
      StarsMean(token);
    }
    StarsMean(tokens[k]);
  }

  lemma TokenIsReadAs(tokens: seq<string>, k: nat)
    requires k < |tokens|
    ensures IsReadAs(tokens, k,
                     TokenParser(LastIndex(tokens, IsStarToken), LastIndex(tokens, IsSlashToken))(tokens[k], k))
  {
    hide LastIndex, Strip, FindTopLevel, LosesOnlySpace, IsNameless, HasKind, IsStarToken, IsStar;
    var kind := KindAt(k, LastIndex(tokens, IsStarToken), LastIndex(tokens, IsSlashToken));
    ParsingLosesOnlySpace(tokens[k], kind);
    StarsMean(tokens[k]);
    if "*" <= tokens[k] {
      StarredHasKind(tokens, k);
    } else {
      KindMeans(tokens, k);
    }
  }

  lemma StarredHasKind(tokens: seq<string>, k: nat)
    requires k < |tokens| && "*" <= tokens[k]
    ensures HasKind(tokens, k, if "**" <= tokens[k] then VarKeyword else VarPositional)
  {
    StarsMean(tokens[k]);
  }

  /** For every text between the parentheses: what the parameter list read from it is. */
  lemma ParameterListMeans(text: string)
    ensures ReadsList(text, ParameterList(text))
  {
    hide Selected, IsReadAs, NonEmptyStripped, LastIndex, Collect, Split;
    var parts := Split(text, ',');
    var tokens := NonEmptyStripped(parts);
    var parse := TokenParser(LastIndex(tokens, IsStarToken), LastIndex(tokens, IsSlashToken));
    TokensAreSelected(parts);
    CollectedAreSelected(tokens, 0, parse);
    var parsed := ParsedAll(tokens, parse);
    assert parsed[0..] == parsed && tokens[0..] == tokens;
    forall k: nat | k < |tokens| ensures IsReadAs(tokens, k, parsed[k]) {
      TokenIsReadAs(tokens, k);
    }
  }

  // ----- The return annotation

  /** An arrow and an annotation, with nothing but space around them. */
  ghost predicate IsArrow(after: string, annotation: string) {
    exists x, y, z ::
      AllSpace(x) && AllSpace(y) && AllSpace(z) && Trimmed(annotation) && after == x + "->" + y + annotation + z
  }

  lemma ArrowIsRead(after: string, annotation: string)
    requires IsArrow(after, annotation)
    ensures ReturnAnnotation(after) == Some(annotation)
  {
    hide Strip;
    var x, y, z :|
      AllSpace(x) && AllSpace(y) && AllSpace(z) && Trimmed(annotation) && after == x + "->" + y + annotation + z;
    var core := "->" + y + annotation;
    TrimmedEnds("->", y, annotation);
    assert after == x + core + z;
    StripPadded(x, core, z);
    assert core[2..] == y + annotation + [];
    StripPadded(y, annotation, []);
  }

  /** What strip takes away is space on both sides, and what it leaves is trimmed. */
  lemma StripMeans(s: string) returns (left: string, right: string)
    ensures AllSpace(left) && AllSpace(right) && s == left + Strip(s) + right
    ensures Strip(s) == "" || Trimmed(Strip(s))
  {
    left := StripLeftMeans(s);
    right := StripRightMeans(StripLeft(s));
    assert s == left + StripLeft(s) && StripLeft(s) == Strip(s) + right;
    assert Strip(s) != "" ==> Strip(s)[0] == StripLeft(s)[0];
  }

  lemma {:induction false} StripLeftMeans(s: string) returns (left: string)
    ensures AllSpace(left) && s == left + StripLeft(s) && (StripLeft(s) == "" || !IsSpace(StripLeft(s)[0]))
    decreases |s|
  {
    if s != "" && IsSpace(s[0]) {
      var c, back := s[0], s[1..];
      var rest := StripLeftMeans(back);
      left := [c] + rest;
      assert s == [c] + back && StripLeft(s) == StripLeft(back);
      assert [c] + (rest + StripLeft(back)) == ([c] + rest) + StripLeft(back);
    } else {
      left := "";
    }
  }

  lemma {:induction false} StripRightMeans(s: string) returns (right: string)
    ensures AllSpace(right) && s == StripRight(s) + right
    ensures StripRight(s) == "" || !IsSpace(StripRight(s)[|StripRight(s)| - 1])
    decreases |s|
  {
    if s != "" && IsSpace(s[|s| - 1]) {
      var front, c := s[..|s| - 1], s[|s| - 1];
      var rest := StripRightMeans(front);
      right := rest + [c];
      assert s == front + [c] && StripRight(s) == StripRight(front);
      assert (StripRight(front) + rest) + [c] == StripRight(front) + (rest + [c]);
    } else {
      right := "";
    }
  }

  lemma ReadIsArrow(after: string)
    requires ReturnAnnotation(after).Some?
    ensures IsArrow(after, ReturnAnnotation(after).value)
  {
    hide Strip;
    var core := Strip(after);
    var left, right := StripMeans(after);
    var y, z := StripMeans(core[2..]);
    var annotation := Strip(core[2..]);
    assert core == "->" + (y + annotation + z);
    assert after == left + "->" + y + annotation + (z + right);
  }

  // ----- The answer

  ghost predicate IsReturned(after: string, f: FunctionSignature) {
    && (f.hasReturnAnnotation <==> f.returnAnnotationText.Some?)
    && forall a :: f.returnAnnotationText == Some(a) <==> IsArrow(after, a)
  }

  /**
    * The answer for a text: none without a header or its closing parenthesis, none if some parameter read from the list
    * has no name of the language, and otherwise the signature of that header, list and return annotation.
    */
  ghost predicate IsAnswer(text: string, r: Option<FunctionSignature>) {
    match FindHeader(text, 0)
    case None => r.None?
    case Some(h) =>
      match MatchingClose(text, h.open)
      case None => r.None?
      case Some(close) =>
        var ps := ParameterList(text[h.open + 1..close]);
        && (r.None? <==> exists p | p in ps :: !IsName(p.name))
        && (r.Some? ==>
              && r.value.name == h.name && r.value.isAsync == h.isAsync && r.value.parameters == ps
              && IsReturned(text[close + 1..], r.value))
  }

  lemma AnswersMean(text: string)
    ensures IsAnswer(text, Parse(text))
  {
    hide FindHeader, MatchingClose, ParameterList, ReturnAnnotation, IsIdentifier, IsName, IsArrow;
    var found := FindHeader(text, 0);
    if found.Some? && MatchingClose(text, found.value.open).Some? {
      var close := MatchingClose(text, found.value.open).value;
      var after := text[close + 1..];
      forall p: Parameter ensures IsIdentifier(p.name) <==> IsName(p.name) {
        IdentifiersAreNames(p.name);
      }
      forall a ensures ReturnAnnotation(after) == Some(a) <==> IsArrow(after, a) {
        if IsArrow(after, a) {
          ArrowIsRead(after, a);
        }
        if ReturnAnnotation(after) == Some(a) {
          ReadIsArrow(after);
        }
      }
    }
  }

  method ParsePythonSignature(text: string) returns (signature: Option<FunctionSignature>)
    ensures signature == Parse(text)
    ensures IsAnswer(text, signature)
  {
    hide FindHeader, ParseFrom, IsAnswer;
    AnswersMean(text);
    var header := FindHeader(text, 0);
    if header.None? {
      return None;
    }
    signature := ParseAfterHeader(text, header.value);
  }
}
