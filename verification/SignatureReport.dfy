/** What the diff of two signatures reports, in terms of their parameters, return annotations and `async`. */
module SignatureReport {
  import opened Wrappers
  import opened PythonText
  import opened Ordering
  import opened OrderedSets
  import opened Selection
  import opened SignatureParser
  import opened SignatureDelta

  function NameOf(): Parameter -> string { (p: Parameter) => p.name }

  function Addressed(): Parameter -> Option<Parameter> {
    (p: Parameter) => if p.kind in {PositionalOnly, PositionalOrKeyword, KeywordOnly} then Some(p) else None
  }

  /** The dictionary of the parameters that are no `*args` or `**kwargs`; the last one of a name counts. */
  ghost predicate IsDictionary(ps: seq<Parameter>, m: map<string, Parameter>) {
    HoldsLast(ps, NameOf(), Addressed(), m)
  }

  lemma {:induction false} ByNameIsDictionary(ps: seq<Parameter>)
    ensures IsDictionary(ps, ByName(ps))
    decreases |ps|
  {
    hide HoldsLast;
    if ps == [] {
      NothingHeld(NameOf(), Addressed());
    } else {
      var front, last := ps[..|ps| - 1], ps[|ps| - 1];
      ByNameIsDictionary(front);
      OneMoreHeld(front, NameOf(), Addressed(), ByName(front), last);
      assert ps == front + [last];
    }
  }

  lemma DistinctInBag(names: seq<string>, sorted: seq<string>)
    requires multiset(names) == multiset(sorted) && forall n | n in names :: multiset(names)[n] == 1
    ensures forall i, j | 0 <= i < j < |sorted| :: sorted[i] != sorted[j]
  {
    forall i, j | 0 <= i < j < |sorted| ensures sorted[i] != sorted[j] {
      assert sorted[i] in multiset(sorted);
      if sorted[i] == sorted[j] {
        PlacedTwice(sorted, i, j);
      }
    }
  }

  lemma SortedNamesAreListed(ps: seq<Parameter>, keep: string -> bool, s: set<string>)
    requires forall n :: n in s <==> n in ByName(ps) && keep(n)
    ensures IsListing(SortedNames(ps, keep), s)
  {
    hide ByName, Sort, StringLe, ComesFirst;
    var names, sorted := Names(ps, keep), SortedNames(ps, keep);
    NamesAreDistinct(ps, keep);
    SortIsPermutation(names, StringLe);
    DistinctInBag(names, sorted);
    StringLeIsTotalPreorder();
    SortIsAscending(names, StringLe);
    forall i, j | 0 <= i < j < |sorted| ensures ComesFirst(sorted[i], sorted[j]) {
      StringLeMeans(sorted[i], sorted[j]);
    }
  }

  function DefaultChanged(b: map<string, Parameter>, h: map<string, Parameter>): string -> bool {
    (n: string) => n in b && n in h && b[n].hasDefault != h[n].hasDefault
  }

  function DefaultChange(b: map<string, Parameter>): string -> BreakingCharacteristic {
    (n: string) => if n in b && b[n].hasDefault then DefaultRemoved else DefaultAdded
  }

  /** What is reported of the parameters: new ones by name, then the removed ones, then the changed defaults by name. */
  ghost predicate ReportsParameters(b: map<string, Parameter>, h: map<string, Parameter>, newer: seq<string>,
                                    gone: seq<string>, both: seq<string>, c: seq<BreakingCharacteristic>) {
    && IsListing(newer, h.Keys - b.Keys) && IsListing(gone, b.Keys - h.Keys) && IsListing(both, b.Keys * h.Keys)
    && |newer| + |gone| <= |c|
    && (forall k | 0 <= k < |newer| ::
          newer[k] in h && c[k] == if h[newer[k]].hasDefault then OptionalParameterAdded else RequiredParameterAdded)
    && (forall k | |newer| <= k < |newer| + |gone| :: c[k] == ParameterRemoved)
    && Selected(both, DefaultChanged(b, h), DefaultChange(b), c[|newer| + |gone|..])
  }

  lemma {:induction false} KeptIsSelected(names: seq<string>, b: map<string, Parameter>, h: map<string, Parameter>)
    requires forall n | n in names :: n in b && n in h
    ensures Selected(names, DefaultChanged(b, h), DefaultChange(b), SignatureDelta.Kept(names, b, h))
    decreases |names|
  {
    hide Selected;
    if names == [] {
      NoneSelected(DefaultChanged(b, h), DefaultChange(b));
    } else {
      var front, last := names[..|names| - 1], names[|names| - 1];
      KeptIsSelected(front, b, h);
      SelectedWithLast(front, DefaultChanged(b, h), DefaultChange(b), SignatureDelta.Kept(front, b, h), last);
      assert names == front + [last];
    }
  }

  lemma ParameterChangesReport(base: seq<Parameter>, head: seq<Parameter>)
    ensures exists newer, gone, both ::
      ReportsParameters(ByName(base), ByName(head), newer, gone, both, ParameterChanges(base, head))
  {
    hide ByName, SortedNames, Selected, IsListing;
    var b, h := ByName(base), ByName(head);
    var newer, gone, both := SortedNames(head, Absent(b)), SortedNames(base, Absent(h)), SortedNames(base, Present(h));
    SortedNamesAreListed(head, Absent(b), h.Keys - b.Keys);
    SortedNamesAreListed(base, Absent(h), b.Keys - h.Keys);
    SortedNamesAreListed(base, Present(h), b.Keys * h.Keys);
    KeptIsSelected(both, b, h);
    var c := ParameterChanges(base, head);
    assert c[|newer| + |gone|..] == SignatureDelta.Kept(both, b, h);
    assert ReportsParameters(b, h, newer, gone, both, c);
  }

  // ----- The whole report

  ghost predicate Differ(base: FunctionSignature, head: FunctionSignature) {
    Strip(base.returnAnnotationText.GetOr("")) != Strip(head.returnAnnotationText.GetOr(""))
  }

  ghost predicate AdmitsNone(f: FunctionSignature, shape: string -> bool) {
    exists text :: f.returnAnnotationText == Some(text) && shape(Strip(text))
  }

  /** At most one characteristic of the return annotation: it turned optional, or required, or else just changed. */
  ghost predicate ReportsReturn(base: FunctionSignature, head: FunctionSignature, shape: string -> bool,
                                c: seq<BreakingCharacteristic>) {
    && |c| <= 1 && (c == [] <==> !Differ(base, head))
    && (c == [ReturnBecameOptional] <==> Differ(base, head) && AdmitsNone(head, shape) && !AdmitsNone(base, shape))
    && (c == [ReturnBecameRequired] <==> Differ(base, head) && AdmitsNone(base, shape) && !AdmitsNone(head, shape))
    && (c == [ReturnAnnotationChanged]
        <==> Differ(base, head) && (AdmitsNone(base, shape) <==> AdmitsNone(head, shape)))
  }

  ghost predicate ReportsAsync(base: FunctionSignature, head: FunctionSignature, c: seq<BreakingCharacteristic>) {
    && (base.isAsync && !head.isAsync ==> c == [AsyncToSync]) && (!base.isAsync && head.isAsync ==> c == [SyncToAsync])
    && (base.isAsync == head.isAsync ==> c == [])
  }

  ghost predicate Reports(base: FunctionSignature, head: FunctionSignature, shape: string -> bool,
                          c: seq<BreakingCharacteristic>) {
    var b, h := ByName(base.parameters), ByName(head.parameters);
    && IsDictionary(base.parameters, b) && IsDictionary(head.parameters, h)
    && exists x, y, z ::
         && c == x + y + z && ReportsReturn(base, head, shape, y) && ReportsAsync(base, head, z)
         && exists newer, gone, both :: ReportsParameters(b, h, newer, gone, both, x)
  }

  /** The whole report, in order, for every two signatures. */
  lemma DifferencesAreReported(base: FunctionSignature, head: FunctionSignature, shape: string -> bool)
    ensures Reports(base, head, shape,
                    ParameterChanges(base.parameters, head.parameters) + ReturnChange(base, head, shape)
                    + AsyncChange(base, head))
  {
    hide ParameterChanges, ByName, IsDictionary, ReportsParameters, Strip;
    ByNameIsDictionary(base.parameters);
    ByNameIsDictionary(head.parameters);
    ParameterChangesReport(base.parameters, head.parameters);
    ReturnIsReported(base, head, shape);
  }

  method DiffSignatures(base: FunctionSignature, head: FunctionSignature, shape: string -> bool)
    returns (characteristics: seq<BreakingCharacteristic>)
    ensures characteristics
         == ParameterChanges(base.parameters, head.parameters) + ReturnChange(base, head, shape)
            + AsyncChange(base, head)
    ensures Reports(base, head, shape, characteristics)
  {
    hide ParameterChanges, Strip, IsOptionalShaped, Reports;
    DifferencesAreReported(base, head, shape);
    characteristics := DiffParameters(base.parameters, head.parameters);
    if Strip(base.returnAnnotationText.GetOr("")) != Strip(head.returnAnnotationText.GetOr("")) {
      var baseOptional := IsOptionalShaped(base.returnAnnotationText, shape);
      var headOptional := IsOptionalShaped(head.returnAnnotationText, shape);
      if headOptional && !baseOptional {
        characteristics := characteristics + [ReturnBecameOptional];
      } else if baseOptional && !headOptional {
        characteristics := characteristics + [ReturnBecameRequired];
      } else {
        characteristics := characteristics + [ReturnAnnotationChanged];
      }
    }
    if base.isAsync && !head.isAsync {
      characteristics := characteristics + [AsyncToSync];
    } else if !base.isAsync && head.isAsync {
      characteristics := characteristics + [SyncToAsync];
    }
  }

  predicate GainsOptional(b: map<string, Parameter>, h: map<string, Parameter>) {
    exists n | n in h :: n !in b && h[n].hasDefault
  }

  predicate GainsDefault(b: map<string, Parameter>, h: map<string, Parameter>) {
    exists n | n in b :: n in h && !b[n].hasDefault && h[n].hasDefault
  }

  /** When each characteristic is reported, and that the verdict is breaking exactly for a break of some part. */
  lemma CharacteristicsMean(base: FunctionSignature, head: FunctionSignature, shape: string -> bool,
                            c: seq<BreakingCharacteristic>)
    requires Reports(base, head, shape, c)
    ensures var b, h := ByName(base.parameters), ByName(head.parameters);
      && (RequiredParameterAdded in c <==> GainsRequired(b, h))
      && (OptionalParameterAdded in c <==> GainsOptional(b, h))
      && (ParameterRemoved in c <==> LosesName(b, h))
      && (DefaultRemoved in c <==> LosesDefault(b, h))
      && (DefaultAdded in c <==> GainsDefault(b, h))
      && (ReturnBecameOptional in c <==> Differ(base, head) && AdmitsNone(head, shape) && !AdmitsNone(base, shape))
      && (ReturnBecameRequired in c <==> Differ(base, head) && AdmitsNone(base, shape) && !AdmitsNone(head, shape))
      && (ReturnAnnotationChanged in c
          <==> Differ(base, head) && (AdmitsNone(base, shape) <==> AdmitsNone(head, shape)))
      && (AsyncToSync in c <==> base.isAsync && !head.isAsync) && (SyncToAsync in c <==> !base.isAsync && head.isAsync)
      && (IsPotentiallyBreaking(c)
          <==> || GainsRequired(b, h) || LosesName(b, h) || LosesDefault(b, h)
               || (Differ(base, head) && AdmitsNone(head, shape) && !AdmitsNone(base, shape))
               || base.isAsync != head.isAsync)
  {
    hide ByName, IsDictionary, ReportsParameters, Differ, AdmitsNone, GainsRequired, LosesName, LosesDefault,
         GainsOptional, GainsDefault, IsPotentiallyBreaking, ReportsReturn, ReportsAsync;
    var b, h := ByName(base.parameters), ByName(head.parameters);
    var x, y, z :| c == x + y + z && ReportsReturn(base, head, shape, y) && ReportsAsync(base, head, z)
                   && exists newer, gone, both :: ReportsParameters(b, h, newer, gone, both, x);
    var newer, gone, both :| ReportsParameters(b, h, newer, gone, both, x);
    InOneOfThree(x, y, z);
    ParametersMean(b, h, newer, gone, both, x);
    ReturnMeans(base, head, shape, y);
    AsyncMeans(base, head, z);
    BreakingMeans(c);
  }

  lemma ReturnMeans(base: FunctionSignature, head: FunctionSignature, shape: string -> bool,
                    y: seq<BreakingCharacteristic>)
    requires ReportsReturn(base, head, shape, y)
    ensures ReturnBecameOptional in y <==> Differ(base, head) && AdmitsNone(head, shape) && !AdmitsNone(base, shape)
    ensures ReturnBecameRequired in y <==> Differ(base, head) && AdmitsNone(base, shape) && !AdmitsNone(head, shape)
    ensures ReturnAnnotationChanged in y
      <==> Differ(base, head) && (AdmitsNone(base, shape) <==> AdmitsNone(head, shape))
    ensures forall c | c in y :: c in {ReturnBecameOptional, ReturnBecameRequired, ReturnAnnotationChanged}
  {
    hide Differ, AdmitsNone;
    AtMostOne(y);
  }

  lemma AsyncMeans(base: FunctionSignature, head: FunctionSignature, z: seq<BreakingCharacteristic>)
    requires ReportsAsync(base, head, z)
    ensures AsyncToSync in z <==> base.isAsync && !head.isAsync
    ensures SyncToAsync in z <==> !base.isAsync && head.isAsync
    ensures forall c | c in z :: c == AsyncToSync || c == SyncToAsync
  {
    AtMostOne(z);
  }

  lemma BreakingMeans(c: seq<BreakingCharacteristic>)
    ensures IsPotentiallyBreaking(c)
      <==> || RequiredParameterAdded in c || ParameterRemoved in c || DefaultRemoved in c || ReturnBecameOptional in c
           || AsyncToSync in c || SyncToAsync in c
  {
  }

  lemma AtMostOne(y: seq<BreakingCharacteristic>)
    requires |y| <= 1
    ensures forall c :: c in y <==> y == [c]
  {
  }

  lemma ParametersMean(b: map<string, Parameter>, h: map<string, Parameter>, newer: seq<string>, gone: seq<string>,
                       both: seq<string>, x: seq<BreakingCharacteristic>)
    requires ReportsParameters(b, h, newer, gone, both, x)
    ensures RequiredParameterAdded in x <==> GainsRequired(b, h)
    ensures OptionalParameterAdded in x <==> GainsOptional(b, h)
    ensures ParameterRemoved in x <==> LosesName(b, h)
    ensures DefaultRemoved in x <==> LosesDefault(b, h)
    ensures DefaultAdded in x <==> GainsDefault(b, h)
    ensures forall c | c in x ::
      c in {RequiredParameterAdded, OptionalParameterAdded, ParameterRemoved, DefaultRemoved, DefaultAdded}
  {
    hide Selected, GainsRequired, LosesName, LosesDefault, GainsOptional, GainsDefault, ReportsParameters, IsListing;
    PartsAre(b, h, newer, gone, both, x);
    var last := x[|newer| + |gone|..];
    var first, second := x[..|newer|], x[|newer|..|newer| + |gone|];
    InOneOfThree(first, second, last);
    NewerMean(h, newer, first);
    NewerAreGained(b, h, newer);
    GoneMean(b, h, gone, second);
    BothMean(b, h, both, last);
  }

  /** The three parts of the report, each by itself. */
  lemma PartsAre(b: map<string, Parameter>, h: map<string, Parameter>, newer: seq<string>, gone: seq<string>,
                 both: seq<string>, x: seq<BreakingCharacteristic>)
    requires ReportsParameters(b, h, newer, gone, both, x)
    ensures |newer| + |gone| <= |x|
    ensures var last := x[|newer| + |gone|..];
      var first, second := x[..|newer|], x[|newer|..|newer| + |gone|];
      && x == first + second + last
      && (forall n :: n in newer <==> n in h.Keys - b.Keys) && (forall n :: n in gone <==> n in b.Keys - h.Keys)
      && (forall n :: n in both <==> n in b && n in h)
      && (forall k | 0 <= k < |newer| ::
            && newer[k] in h
            && first[k] == if h[newer[k]].hasDefault then OptionalParameterAdded else RequiredParameterAdded)
      && (forall k | 0 <= k < |second| :: second[k] == ParameterRemoved)
      && Selected(both, DefaultChanged(b, h), DefaultChange(b), last)
  {
    hide Selected;
  }

  lemma NewerAreGained(b: map<string, Parameter>, h: map<string, Parameter>, newer: seq<string>)
    requires forall n :: n in newer <==> n in h.Keys - b.Keys
    ensures (exists n :: n in newer && n in h && !h[n].hasDefault) <==> GainsRequired(b, h)
    ensures (exists n :: n in newer && n in h && h[n].hasDefault) <==> GainsOptional(b, h)
  {
  }

  lemma GoneMean(b: map<string, Parameter>, h: map<string, Parameter>, gone: seq<string>,
                 c: seq<BreakingCharacteristic>)
    requires forall n :: n in gone <==> n in b.Keys - h.Keys
    requires |c| == |gone| && forall k | 0 <= k < |c| :: c[k] == ParameterRemoved
    ensures ParameterRemoved in c <==> LosesName(b, h)
    ensures forall x | x in c :: x == ParameterRemoved
  {
    if gone != [] {
      assert gone[0] in gone && c[0] in c;
    }
    if LosesName(b, h) {
      var n :| n in b && n !in h;
      assert n in gone;
    }
  }

  lemma NewerMean(h: map<string, Parameter>, newer: seq<string>, c: seq<BreakingCharacteristic>)
    requires |c| == |newer|
    requires forall k | 0 <= k < |newer| ::
      newer[k] in h && c[k] == if h[newer[k]].hasDefault then OptionalParameterAdded else RequiredParameterAdded
    ensures RequiredParameterAdded in c <==> exists n :: n in newer && n in h && !h[n].hasDefault
    ensures OptionalParameterAdded in c <==> exists n :: n in newer && n in h && h[n].hasDefault
    ensures forall x | x in c :: x == RequiredParameterAdded || x == OptionalParameterAdded
  {
    forall x | x in c ensures (x == RequiredParameterAdded && exists n :: n in newer && n in h && !h[n].hasDefault)
                              || (x == OptionalParameterAdded && exists n :: n in newer && n in h && h[n].hasDefault) {
      var k :| 0 <= k < |c| && c[k] == x;
      assert newer[k] in newer;
    }
    forall n | n in newer && n in h
      ensures (if h[n].hasDefault then OptionalParameterAdded else RequiredParameterAdded) in c {
      var k :| 0 <= k < |newer| && newer[k] == n;
      assert c[k] in c;
    }
  }

  lemma BothMean(b: map<string, Parameter>, h: map<string, Parameter>, both: seq<string>,
                 c: seq<BreakingCharacteristic>)
    requires Selected(both, DefaultChanged(b, h), DefaultChange(b), c) && forall n :: n in both <==> n in b && n in h
    ensures DefaultRemoved in c <==> LosesDefault(b, h)
    ensures DefaultAdded in c <==> GainsDefault(b, h)
    ensures forall x | x in c :: x == DefaultRemoved || x == DefaultAdded
  {
    hide Selected;
    forall x ensures x in c
      <==> exists k :: 0 <= k < |both| && DefaultChanged(b, h)(both[k]) && DefaultChange(b)(both[k]) == x {
      SelectedMembers(both, DefaultChanged(b, h), DefaultChange(b), c, x);
    }
    forall n | n in b && n in h && b[n].hasDefault != h[n].hasDefault
      ensures (if b[n].hasDefault then DefaultRemoved else DefaultAdded) in c {
      assert n in both;
      var k :| 0 <= k < |both| && both[k] == n;
      assert DefaultChanged(b, h)(both[k]) && DefaultChange(b)(both[k]) in c;
    }
    forall x | x in c ensures (x == DefaultRemoved && LosesDefault(b, h))
      || (x == DefaultAdded && GainsDefault(b, h)) {
      var k :| 0 <= k < |both| && DefaultChanged(b, h)(both[k]) && DefaultChange(b)(both[k]) == x;
      assert both[k] in both;
    }
  }

  lemma ReturnIsReported(base: FunctionSignature, head: FunctionSignature, shape: string -> bool)
    ensures ReportsReturn(base, head, shape, ReturnChange(base, head, shape))
  {
    hide Strip;
    OptionalMeans(base, shape);
    OptionalMeans(head, shape);
  }

  lemma OptionalMeans(f: FunctionSignature, shape: string -> bool)
    ensures AdmitsNone(f, shape) <==> IsOptionalShaped(f.returnAnnotationText, shape)
  {
    hide Strip;
    if f.returnAnnotationText.Some? {
      assert f.returnAnnotationText == Some(f.returnAnnotationText.value);
    }
  }
}
