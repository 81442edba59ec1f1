/** Whitespace, and finding and splitting at the symbols of a rendered text. */
module SignatureSplitting {
  import opened Wrappers
  import opened PythonText
  import opened SignatureScanner
  import opened SignatureText
  import opened SignatureSyntax

  // ----- Whitespace

  lemma {:induction false} StripLeftPad(ws: string, t: string)
    requires AllSpace(ws) && (t != [] ==> !IsSpace(t[0]))
    ensures StripLeft(ws + t) == t
    decreases |ws|
  {
    if ws == [] {
      assert ws + t == t;
    } else {
      assert IsSpace(ws[0]) && (ws + t)[1..] == ws[1..] + t;
      StripLeftPad(ws[1..], t);
    }
  }

  lemma {:induction false} StripRightPad(t: string, ws: string)
    requires AllSpace(ws) && (t != [] ==> !IsSpace(t[|t| - 1]))
    ensures StripRight(t + ws) == t
    decreases |ws|
  {
    if ws == [] {
      assert t + ws == t;
    } else {
      var n := |ws| - 1;
      assert IsSpace(ws[n]) && (t + ws)[..|t| + n] == t + ws[..n];
      StripRightPad(t, ws[..n]);
    }
  }

  lemma StripPadded(before: string, t: string, after: string)
    requires AllSpace(before) && AllSpace(after) && Trimmed(t)
    ensures Strip(before + t + after) == t
  {
    assert before + t + after == before + (t + after);
    StripLeftPad(before, t + after);
    StripRightPad(t, after);
  }

  lemma StripBlank(ws: string)
    requires AllSpace(ws)
    ensures Strip(ws) == []
  {
    assert ws + [] == ws;
    StripLeftPad(ws, []);
  }

  lemma {:induction false} RenderSpaces(ws: string)
    ensures Render(Spaces(ws)) == ws
    decreases |ws|
  {
    if ws != [] {
      RenderSpaces(ws[1..]);
      assert Spaces(ws)[1..] == Spaces(ws[1..]);
    }
  }

  predicate IsSymbolChar(c: char) {
    !IsWordChar(c) && !IsQuote(c) && !IsOpen(c) && !IsClose(c)
  }

  lemma FitsSymbol(c: char, qs: seq<Piece>, afterWord: bool)
    requires IsSymbolChar(c) && Fits(qs, false, false)
    ensures Fits([Symbol(c)] + qs, afterWord, false)
  {
    var all := [Symbol(c)] + qs;
    assert all[0] == Symbol(c) && all[1..] == qs;
    assert FitsPiece(all[0], false);
  }

  lemma {:induction false} FitsSpaces(ws: string, afterWord: bool)
    requires AllSpace(ws)
    ensures Fits(Spaces(ws), afterWord, false)
    decreases |ws|
  {
    if ws != [] {
      assert IsSpace(ws[0]);
      FitsSpaces(ws[1..], false);
      FitsSymbol(ws[0], Spaces(ws[1..]), afterWord);
      assert Spaces(ws) == [Symbol(ws[0])] + Spaces(ws[1..]);
    }
  }

  // ----- Finding and splitting at symbols of the tree

  lemma {:induction false} OutlineMarksSymbols(ps: seq<Piece>, c: char, k: nat)
    requires !IsWordChar(c) && (forall p | p in ps && p.Word? :: IsWord(p.text))
    requires |Outline(ps)| == |Render(ps)| && k < |Render(ps)| && Outline(ps)[k] && Render(ps)[k] == c
    ensures Symbol(c) in ps
  {
    var n := |RenderPiece(ps[0])|;
    if k < n {
      assert ps[0] in ps && RenderPiece(ps[0])[k] == c;
    } else {
      OutlineMarksSymbols(ps[1..], c, k - n);
    }
  }

  lemma {:induction false} WordsOf(ps: seq<Piece>, afterWord: bool, inLambda: bool)
    requires Fits(ps, afterWord, inLambda)
    ensures forall p | p in ps && p.Word? :: IsWord(p.text)
    decreases |ps|
  {
    if ps != [] {
      WordsOf(ps[1..], ps[0].Word?, inLambda);
    }
  }

  lemma FindAbsent(ps: seq<Piece>, c: char)
    requires Fits(ps, false, false) && !IsWordChar(c) && Symbol(c) !in ps
    ensures FindTopLevel(Render(ps), c) == None
  {
    hide FindTopLevel, Mask, Render, Outline, Fits;
    MaskIsOutline(ps);
    WordsOf(ps, false, false);
    FindIsFirst(Render(ps), c);
    if FindTopLevel(Render(ps), c).Some? {
      OutlineMarksSymbols(ps, c, FindTopLevel(Render(ps), c).value);
    }
  }

  lemma {:induction false} OutlineConcatenation(ps: seq<Piece>, qs: seq<Piece>)
    ensures Outline(ps + qs) == Outline(ps) + Outline(qs)
    decreases |ps|
  {
    hide OutlinePiece;
    if ps == [] {
      assert ps + qs == qs;
    } else {
      OutlineConcatenation(ps[1..], qs);
      assert (ps + qs)[1..] == ps[1..] + qs;
      assert Outline(ps) + Outline(qs) == OutlinePiece(ps[0]) + (Outline(ps[1..]) + Outline(qs));
    }
  }

  lemma {:induction false} FitsPrefix(ps: seq<Piece>, qs: seq<Piece>, afterWord: bool)
    requires Fits(ps + qs, afterWord, false)
    ensures Fits(ps, afterWord, false)
    decreases |ps|
  {
    if ps != [] {
      assert (ps + qs)[1..] == ps[1..] + qs;
      FitsPrefix(ps[1..], qs, ps[0].Word?);
    }
  }

  lemma {:induction false} OutlineLength(ps: seq<Piece>)
    ensures |Outline(ps)| == |Render(ps)|
    decreases |ps|
  {
    if ps != [] {
      OutlineLength(ps[1..]);
    }
  }

  lemma RenderAround(ps: seq<Piece>, c: char, qs: seq<Piece>)
    ensures Render(ps + [Symbol(c)] + qs) == Render(ps) + [c] + Render(qs)
  {
    RenderConcatenation(ps + [Symbol(c)], qs);
    RenderConcatenation(ps, [Symbol(c)]);
    RenderSingle(Symbol(c));
  }

  /** The first top-level `c` of a rendered text is where the first such symbol of the tree was printed. */
  lemma FindFirst(ps: seq<Piece>, c: char, qs: seq<Piece>)
    requires Fits(ps + [Symbol(c)] + qs, false, false) && !IsWordChar(c) && Symbol(c) !in ps
    ensures FindTopLevel(Render(ps + [Symbol(c)] + qs), c) == Some(|Render(ps)|)
  {
    hide FindTopLevel, Mask, Render, Outline, Fits;
    var all := ps + [Symbol(c)] + qs;
    var k := |Render(ps)|;
    RenderAround(ps, c, qs);
    OutlineConcatenation(ps + [Symbol(c)], qs);
    OutlineConcatenation(ps, [Symbol(c)]);
    OutlineLength(ps);
    OutlineSymbol(c);
    MaskIsOutline(all);
    assert Mask(Render(all))[k];
    assert all == ps + ([Symbol(c)] + qs);
    FitsPrefix(ps, [Symbol(c)] + qs, false);
    WordsOf(ps, false, false);
    forall j | 0 <= j < k && Mask(Render(all))[j] && Render(all)[j] == c ensures false {
      OutlineMarksSymbols(ps, c, j);
    }
    FoundAt(Render(all), c, k);
  }

  lemma OutlineSymbol(c: char)
    ensures Outline([Symbol(c)]) == [true]
  {
    assert [Symbol(c)][1..] == [];
  }

  function RenderAll(segments: seq<seq<Piece>>): (r: seq<string>)
    ensures |r| == |segments|
  {
    seq(|segments|, k requires 0 <= k < |segments| => Render(segments[k]))
  }

  ghost predicate Separable(segments: seq<seq<Piece>>) {
    forall g | g in segments :: Fits(g, false, false) && Symbol(',') !in g
  }

  lemma {:induction false} JoinFits(segments: seq<seq<Piece>>)
    requires segments != [] && Separable(segments)
    ensures Fits(Join(segments, Symbol(',')), false, false)
    decreases |segments|
  {
    assert segments[0] in segments;
    if |segments| > 1 {
      JoinFits(segments[1..]);
      var rest := Join(segments[1..], Symbol(','));
      FitsSymbol(',', rest, EndsWithWord(segments[0], false));
      FitsConcatenation(segments[0], [Symbol(',')] + rest, false, false);
      assert segments[0] + [Symbol(',')] + rest == segments[0] + ([Symbol(',')] + rest);
    }
  }

  /** Splitting a rendered list at its top-level commas gives the rendered items. */
  lemma {:induction false} SplitRendersSegments(segments: seq<seq<Piece>>)
    requires segments != [] && Separable(segments)
    ensures Split(Render(Join(segments, Symbol(','))), ',') == RenderAll(segments)
    decreases |segments|
  {
    hide FindTopLevel, Split, Fits, Render, HoldsTopLevel, Mask, RenderAll;
    assert segments[0] in segments;
    JoinFits(segments);
    RenderAllUnfolds(segments);
    if |segments| == 1 {
      FindAbsent(segments[0], ',');
      SplitNowhere(Render(segments[0]), ',');
      assert Split(Render(segments[0]), ',') == RenderAll(segments);
    } else {
      var rest := Join(segments[1..], Symbol(','));
      assert Join(segments, Symbol(',')) == segments[0] + [Symbol(',')] + rest;
      SplitOffFirst(segments[0], rest);
      SplitRendersSegments(segments[1..]);
    }
  }

  lemma RenderAllUnfolds(segments: seq<seq<Piece>>)
    requires segments != []
    ensures RenderAll(segments) == [Render(segments[0])] + RenderAll(segments[1..])
    ensures |segments| == 1 ==> RenderAll(segments) == [Render(segments[0])]
  {
    hide Render;
  }

  lemma SplitOffFirst(first: seq<Piece>, rest: seq<Piece>)
    requires Fits(first + [Symbol(',')] + rest, false, false) && Symbol(',') !in first
    ensures Split(Render(first + [Symbol(',')] + rest), ',') == [Render(first)] + Split(Render(rest), ',')
  {
    hide FindTopLevel, Split, Fits, Render, HoldsTopLevel, Mask;
    var text := Render(first + [Symbol(',')] + rest);
    FindFirst(first, ',', rest);
    RenderAround(first, ',', rest);
    SplitAtFirst(text, ',');
    var k := |Render(first)|;
    assert text[..k] == Render(first) && text[k + 1..] == Render(rest);
  }
}
