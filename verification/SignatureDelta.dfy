/** The structural diff of two signatures, against the calls that still bind. */
module SignatureDelta {
  import opened Wrappers
  import opened PythonText
  import opened Ordering
  import opened SignatureParser

  datatype BreakingCharacteristic =
    | RequiredParameterAdded
    | ParameterRemoved
    | DefaultRemoved
    | DefaultAdded
    | OptionalParameterAdded
    | ReturnBecameOptional
    | ReturnBecameRequired
    | ReturnAnnotationChanged
    | AsyncToSync
    | SyncToAsync

  const BREAKING_CHARACTERISTICS: set<BreakingCharacteristic> :=
    {RequiredParameterAdded, ParameterRemoved, DefaultRemoved, ReturnBecameOptional, AsyncToSync, SyncToAsync}

  predicate IsPotentiallyBreaking(characteristics: seq<BreakingCharacteristic>) {
    exists c | c in characteristics :: c in BREAKING_CHARACTERISTICS
  }

  predicate IsAddressable(p: Parameter) {
    p.kind == PositionalOnly || p.kind == PositionalOrKeyword || p.kind == KeywordOnly
  }

  /** A dictionary of the addressable parameters by name; a later one replaces an earlier one of the same name. */
  function ByName(ps: seq<Parameter>): (m: map<string, Parameter>)
    ensures forall n | n in m :: m[n] in ps && IsAddressable(m[n]) && m[n].name == n
    ensures forall p | p in ps && IsAddressable(p) :: p.name in m
  {
    if ps == [] then map[] else
      var last := ps[|ps| - 1];
      var rest := ByName(ps[..|ps| - 1]);
      assert forall p | p in ps :: p == last || p in ps[..|ps| - 1];
      if IsAddressable(last) then rest[last.name := last] else rest
  }

  /** The names in order of appearance that pass a test, without repetition. */
  function Names(ps: seq<Parameter>, keep: string -> bool): (ns: seq<string>)
    ensures forall n :: n in ns <==> n in ByName(ps) && keep(n)
  {
    if ps == [] then [] else
      var last := ps[|ps| - 1];
      var rest := Names(ps[..|ps| - 1], keep);
      if IsAddressable(last) && keep(last.name) && last.name !in rest then rest + [last.name] else rest
  }

  function SortedNames(ps: seq<Parameter>, keep: string -> bool): (ns: seq<string>)
    ensures forall n :: n in ns <==> n in ByName(ps) && keep(n)
  {
    var names := Names(ps, keep);
    SortIsPermutation(names, StringLe);
    assert forall n :: n in Sort(names, StringLe) <==> n in multiset(Sort(names, StringLe));
    Sort(names, StringLe)
  }

  function Absent(m: map<string, Parameter>): string -> bool { n => n !in m }

  function Present(m: map<string, Parameter>): string -> bool { n => n in m }

  function Removals(n: nat): (r: seq<BreakingCharacteristic>)
    ensures |r| == n && forall c | c in r :: c == ParameterRemoved
  {
    seq(n, _ => ParameterRemoved)
  }

  function WhenAdded(after: Parameter): BreakingCharacteristic {
    if after.hasDefault then OptionalParameterAdded else RequiredParameterAdded
  }

  function WhenKept(before: Parameter, after: Parameter): seq<BreakingCharacteristic> {
    if before.hasDefault && !after.hasDefault then [DefaultRemoved]
    else if !before.hasDefault && after.hasDefault then [DefaultAdded]
    else []
  }

  function Added(names: seq<string>, head: map<string, Parameter>): seq<BreakingCharacteristic>
    requires forall n | n in names :: n in head
  {
    seq(|names|, k requires 0 <= k < |names| => WhenAdded(head[names[k]]))
  }

  function Kept(names: seq<string>, base: map<string, Parameter>, head: map<string, Parameter>)
    : seq<BreakingCharacteristic>
    requires forall n | n in names :: n in base && n in head
  {
    if names == [] then [] else
      var last := |names| - 1;
      Kept(names[..last], base, head) + WhenKept(base[names[last]], head[names[last]])
  }

  /** `shape` is the textual test for an annotation that admits `None`. */
  function IsOptionalShaped(annotation: Option<string>, shape: string -> bool): bool {
    annotation.Some? && shape(Strip(annotation.value))
  }

  function ReturnChange(base: FunctionSignature, head: FunctionSignature, shape: string -> bool)
    : seq<BreakingCharacteristic> {
    if Strip(base.returnAnnotationText.GetOr("")) == Strip(head.returnAnnotationText.GetOr("")) then []
    else
      var before := IsOptionalShaped(base.returnAnnotationText, shape);
      var after := IsOptionalShaped(head.returnAnnotationText, shape);
      if after && !before then [ReturnBecameOptional]
      else if before && !after then [ReturnBecameRequired]
      else [ReturnAnnotationChanged]
  }

  function AsyncChange(base: FunctionSignature, head: FunctionSignature): seq<BreakingCharacteristic> {
    if base.isAsync && !head.isAsync then [AsyncToSync]
    else if !base.isAsync && head.isAsync then [SyncToAsync]
    else []
  }

  function ParameterChanges(base: seq<Parameter>, head: seq<Parameter>): seq<BreakingCharacteristic> {
    var b, h := ByName(base), ByName(head);
    Added(SortedNames(head, Absent(b)), h)
    + Removals(|SortedNames(base, Absent(h))|)
    + Kept(SortedNames(base, Present(h)), b, h)
  }

  method DiffParameters(base: seq<Parameter>, head: seq<Parameter>)
    returns (characteristics: seq<BreakingCharacteristic>)
    ensures characteristics == ParameterChanges(base, head)
  {
    hide ByName, SortedNames, Added, Kept;
    var b, h := ByName(base), ByName(head);
    var added := SortedNames(head, Absent(b));
    var removed := SortedNames(base, Absent(h));
    var kept := SortedNames(base, Present(h));
    NamesAreKnown(base, head);
    assert forall n | n in kept :: n in b && n in h;
    characteristics := [];
    assert Added(added[..0], h) == [] && Kept(kept[..0], b, h) == [] by { NothingYet(b, h); }
    for k := 0 to |added|
      invariant characteristics == Added(added[..k], h)
    {
      AddedGrows(added, h, k);
      if h[added[k]].hasDefault {
        characteristics := characteristics + [OptionalParameterAdded];
      } else {
        characteristics := characteristics + [RequiredParameterAdded];
      }
    }
    assert added[..|added|] == added;
    ghost var first := characteristics;
    for k := 0 to |removed|
      invariant characteristics == first + Removals(k)
    {
      characteristics := characteristics + [ParameterRemoved];
    }
    ghost var second := characteristics;
    for k := 0 to |kept|
      invariant characteristics == second + Kept(kept[..k], b, h)
    {
      KeptGrows(kept, b, h, k);
      var before, after := b[kept[k]], h[kept[k]];
      if before.hasDefault && !after.hasDefault {
        characteristics := characteristics + [DefaultRemoved];
      } else if !before.hasDefault && after.hasDefault {
        characteristics := characteristics + [DefaultAdded];
      }
    }
    assert kept[..|kept|] == kept;
  }

  lemma NamesAreKnown(base: seq<Parameter>, head: seq<Parameter>)
    ensures var b, h := ByName(base), ByName(head);
      && (forall n | n in SortedNames(head, Absent(b)) :: n in h)
      && (forall n | n in SortedNames(base, Present(h)) :: n in b && n in h)
  {
    hide ByName, SortedNames;
  }

  lemma AddedGrows(names: seq<string>, head: map<string, Parameter>, k: nat)
    requires k < |names| && forall n | n in names :: n in head
    ensures Added(names[..k + 1], head) == Added(names[..k], head) + [WhenAdded(head[names[k]])]
  {
  }

  lemma NothingYet(base: map<string, Parameter>, head: map<string, Parameter>)
    ensures Added([], head) == [] && Kept([], base, head) == []
  {
  }

  lemma KeptGrows(names: seq<string>, base: map<string, Parameter>, head: map<string, Parameter>, k: nat)
    requires k < |names| && forall n | n in names :: n in base && n in head
    ensures Kept(names[..k + 1], base, head) == Kept(names[..k], base, head) + WhenKept(base[names[k]], head[names[k]])
  {
    assert names[..k + 1][..k] == names[..k];
  }

  // ----- When a call binds

  /** A call site: how many positional arguments, and which keywords. */
  datatype Call = Call(positional: nat, keywords: set<string>)

  predicate TakesPosition(p: Parameter) { p.kind == PositionalOnly || p.kind == PositionalOrKeyword }

  predicate TakesKeyword(p: Parameter) { p.kind == PositionalOrKeyword || p.kind == KeywordOnly }

  function Slots(ps: seq<Parameter>): (slots: seq<Parameter>)
    ensures forall p :: p in slots <==> p in ps && TakesPosition(p)
  {
    if ps == [] then []
    else
      assert forall p :: p in ps <==> p == ps[0] || p in ps[1..];
      (if TakesPosition(ps[0]) then [ps[0]] else []) + Slots(ps[1..])
  }

  predicate Has(ps: seq<Parameter>, kind: ParameterKind) { exists p :: p in ps && p.kind == kind }

  /** The parameters the positional arguments of the call fill. */
  function Filled(ps: seq<Parameter>, call: Call): seq<Parameter> {
    var slots := Slots(ps);
    if call.positional <= |slots| then slots[..call.positional] else slots
  }

  ghost predicate Named(ps: seq<Parameter>, n: string) { exists p :: p in ps && TakesKeyword(p) && p.name == n }

  /**
    * The binding rules for a call: no surplus position, no unknown or doubly bound keyword, nothing required left out.
    */
  ghost predicate Accepts(ps: seq<Parameter>, call: Call) {
    var filled := Filled(ps, call);
    && (call.positional <= |Slots(ps)| || Has(ps, VarPositional))
    && (forall n | n in call.keywords :: Named(ps, n) || Has(ps, VarKeyword))
    && (forall p | p in filled && TakesKeyword(p) :: p.name !in call.keywords)
    && (forall p | p in ps && IsAddressable(p) && !p.hasDefault ::
        p in filled || (TakesKeyword(p) && p.name in call.keywords))
  }

  ghost predicate DistinctNames(ps: seq<Parameter>) {
    forall i, j | 0 <= i < j < |ps| :: ps[i].name != ps[j].name
  }

  /** Every parameter that takes one argument can be given by keyword. */
  ghost predicate AllByKeyword(ps: seq<Parameter>) {
    DistinctNames(ps) && forall p | p in ps :: p.kind != PositionalOnly
  }

  /** The parameters alone make the verdict potentially breaking. */
  predicate ReportsParameterBreak(base: seq<Parameter>, head: seq<Parameter>) {
    IsPotentiallyBreaking(ParameterChanges(base, head))
  }

  /** Some keyword call that bound to the base no longer binds to the head. */
  ghost predicate BreaksKeywordCall(base: seq<Parameter>, head: seq<Parameter>) {
    exists keywords: set<string> :: Accepts(base, Call(0, keywords)) && !Accepts(head, Call(0, keywords))
  }

  // ----- What each report means

  predicate AnyRequired(names: seq<string>, head: map<string, Parameter>) {
    exists n | n in names :: n in head && !head[n].hasDefault
  }

  predicate AnyDefaultLost(names: seq<string>, base: map<string, Parameter>, head: map<string, Parameter>) {
    exists n | n in names :: n in base && n in head && base[n].hasDefault && !head[n].hasDefault
  }

  lemma {:induction false} KeptReports(names: seq<string>, base: map<string, Parameter>, head: map<string, Parameter>)
    requires forall n | n in names :: n in base && n in head
    ensures DefaultRemoved in Kept(names, base, head) <==> AnyDefaultLost(names, base, head)
    ensures forall c | c in Kept(names, base, head) :: c == DefaultRemoved || c == DefaultAdded
  {
    hide WhenKept, AnyDefaultLost;
    if names == [] {
      assert !AnyDefaultLost(names, base, head) by { NoDefaultLost(base, head); }
    } else {
      var front, last := names[..|names| - 1], names[|names| - 1];
      assert names == front + [last];
      KeptReports(front, base, head);
      KeptOnce(base[last], head[last]);
      LostInFront(front, last, base, head);
    }
  }

  lemma KeptOnce(before: Parameter, after: Parameter)
    ensures DefaultRemoved in WhenKept(before, after) <==> before.hasDefault && !after.hasDefault
    ensures forall c | c in WhenKept(before, after) :: c == DefaultRemoved || c == DefaultAdded
  {
  }

  lemma NoDefaultLost(base: map<string, Parameter>, head: map<string, Parameter>)
    ensures !AnyDefaultLost([], base, head)
  {
  }

  lemma LostInFront(front: seq<string>, last: string, base: map<string, Parameter>, head: map<string, Parameter>)
    requires last in base && last in head
    ensures AnyDefaultLost(front + [last], base, head)
      <==> AnyDefaultLost(front, base, head) || (base[last].hasDefault && !head[last].hasDefault)
  {
    assert forall n :: n in front + [last] <==> n in front || n == last;
  }

  lemma AddedReports(names: seq<string>, head: map<string, Parameter>)
    requires forall n | n in names :: n in head
    ensures RequiredParameterAdded in Added(names, head) <==> AnyRequired(names, head)
    ensures forall c | c in Added(names, head) :: c == RequiredParameterAdded || c == OptionalParameterAdded
  {
    var added := Added(names, head);
    if n :| n in names && !head[n].hasDefault {
      var k :| 0 <= k < |names| && names[k] == n;
      assert added[k] == RequiredParameterAdded;
    }
    if RequiredParameterAdded in added {
      var k :| 0 <= k < |added| && added[k] == RequiredParameterAdded;
      assert names[k] in names && !head[names[k]].hasDefault;
    }
  }

  lemma RemovedReports(names: seq<string>)
    ensures ParameterRemoved in Removals(|names|) <==> names != []
  {
    if names != [] {
      assert Removals(|names|)[0] == ParameterRemoved && names[0] in names;
    }
  }

  type Dictionary = map<string, Parameter>

  predicate GainsRequired(b: Dictionary, h: Dictionary) { exists n | n in h :: n !in b && !h[n].hasDefault }

  predicate LosesName(b: Dictionary, h: Dictionary) { exists n | n in b :: n !in h }

  predicate LosesDefault(b: Dictionary, h: Dictionary) {
    exists n | n in b :: n in h && b[n].hasDefault && !h[n].hasDefault
  }

  lemma InOneOfThree<T>(xs: seq<T>, ys: seq<T>, zs: seq<T>)
    ensures forall c :: c in xs + ys + zs <==> c in xs || c in ys || c in zs
  {
  }

  /** The parts of the report, and what each can hold. */
  lemma ReportsByPart(base: seq<Parameter>, head: seq<Parameter>)
    ensures var b, h, c := ByName(base), ByName(head), ParameterChanges(base, head);
      var newer, gone, both := SortedNames(head, Absent(b)), SortedNames(base, Absent(h)),
        SortedNames(base, Present(h));
      && (RequiredParameterAdded in c <==> AnyRequired(newer, h))
      && (ParameterRemoved in c <==> gone != [])
      && (DefaultRemoved in c <==> AnyDefaultLost(both, b, h))
      && forall x | x in c ::
           x in {RequiredParameterAdded, OptionalParameterAdded, ParameterRemoved, DefaultRemoved, DefaultAdded}
  {
    hide ByName, SortedNames, Added, Kept, Removals, AnyRequired, AnyDefaultLost;
    var b, h := ByName(base), ByName(head);
    var newer, gone, both := SortedNames(head, Absent(b)), SortedNames(base, Absent(h)), SortedNames(base, Present(h));
    AddedReports(newer, h);
    RemovedReports(gone);
    KeptReports(both, b, h);
    InOneOfThree(Added(newer, h), Removals(|gone|), Kept(both, b, h));
  }

  lemma ReportsMean(base: seq<Parameter>, head: seq<Parameter>)
    ensures RequiredParameterAdded in ParameterChanges(base, head) <==> GainsRequired(ByName(base), ByName(head))
    ensures ParameterRemoved in ParameterChanges(base, head) <==> LosesName(ByName(base), ByName(head))
    ensures DefaultRemoved in ParameterChanges(base, head) <==> LosesDefault(ByName(base), ByName(head))
  {
    hide ByName, SortedNames, ParameterChanges;
    ReportsByPart(base, head);
    var gone := SortedNames(base, Absent(ByName(head)));
    assert gone != [] ==> gone[0] in gone;
  }

  /**
    * The parameters alone are potentially breaking exactly when a required name was gained, a name lost or a default
    * lost.
    */
  lemma BreakMeans(base: seq<Parameter>, head: seq<Parameter>)
    ensures var b, h := ByName(base), ByName(head);
      ReportsParameterBreak(base, head) <==> GainsRequired(b, h) || LosesName(b, h) || LosesDefault(b, h)
  {
    hide ByName, SortedNames, ParameterChanges, GainsRequired, LosesName, LosesDefault;
    ReportsMean(base, head);
    ReportsByPart(base, head);
    var c := ParameterChanges(base, head);
    assert RequiredParameterAdded in c || ParameterRemoved in c || DefaultRemoved in c ==> IsPotentiallyBreaking(c) by {
      assert {RequiredParameterAdded, ParameterRemoved, DefaultRemoved} <= BREAKING_CHARACTERISTICS;
    }
  }

  lemma UniqueByName(ps: seq<Parameter>, p: Parameter)
    requires DistinctNames(ps) && p in ps && IsAddressable(p)
    ensures ByName(ps)[p.name] == p
  {
    hide ByName;
    assert ByName(ps)[p.name] in ps;
  }

  /** A keyword call binds exactly when it gives every required name and, without `**kwargs`, no unknown one. */
  lemma KeywordCallBinds(ps: seq<Parameter>, keywords: set<string>)
    requires AllByKeyword(ps)
    ensures var m := ByName(ps);
      Accepts(ps, Call(0, keywords))
      <==> (forall n | n in m && !m[n].hasDefault :: n in keywords) && (Has(ps, VarKeyword) || keywords <= m.Keys)
  {
    hide ByName;
    var m, call := ByName(ps), Call(0, keywords);
    assert Filled(ps, call) == [];
    forall p | p in ps && IsAddressable(p) ensures m[p.name] == p {
      UniqueByName(ps, p);
    }
    assert forall n :: Named(ps, n) <==> n in m;
  }

  // ----- The verdict is exact

  lemma FreshNameExists(names: set<string>)
    ensures exists n: string :: n !in names
  {
    var n := LongerThanAll(names);
  }

  lemma {:induction false} LongerThanAll(names: set<string>) returns (n: string)
    ensures forall x | x in names :: |x| < |n|
    decreases |names|
  {
    if names == {} {
      n := "x";
    } else {
      var x :| x in names;
      var m := LongerThanAll(names - {x});
      n := m + x + "x";
      forall y | y in names ensures |y| < |n| {
        if y != x { assert y in names - {x}; }
      }
    }
  }

  /** What breaks some keyword call, in terms of the two dictionaries and of `**kwargs`. */
  lemma BreaksExactlyWhen(base: seq<Parameter>, head: seq<Parameter>)
    requires AllByKeyword(base) && AllByKeyword(head)
    ensures var b, h := ByName(base), ByName(head);
      BreaksKeywordCall(base, head)
      <==> || GainsRequired(b, h) || LosesDefault(b, h)
           || (!Has(head, VarKeyword) && (Has(base, VarKeyword) || LosesName(b, h)))
  {
    hide ByName, Accepts, Has;
    var b, h := ByName(base), ByName(head);
    forall keywords ensures
      Accepts(base, Call(0, keywords))
      <==> (forall n | n in b && !b[n].hasDefault :: n in keywords) && (Has(base, VarKeyword) || keywords <= b.Keys)
    {
      KeywordCallBinds(base, keywords);
    }
    forall keywords ensures
      Accepts(head, Call(0, keywords))
      <==> (forall n | n in h && !h[n].hasDefault :: n in keywords) && (Has(head, VarKeyword) || keywords <= h.Keys)
    {
      KeywordCallBinds(head, keywords);
    }
    if GainsRequired(b, h) || LosesDefault(b, h) {
      var n :| n in h && !h[n].hasDefault && !(n in b && !b[n].hasDefault);
      var keywords := b.Keys - {n};
      assert Accepts(base, Call(0, keywords)) && !Accepts(head, Call(0, keywords));
    } else if !Has(head, VarKeyword) && LosesName(b, h) {
      var keywords := b.Keys;
      assert Accepts(base, Call(0, keywords)) && !Accepts(head, Call(0, keywords));
    } else if !Has(head, VarKeyword) && Has(base, VarKeyword) {
      FreshNameExists(h.Keys);
      var n: string :| n !in h.Keys;
      var keywords := b.Keys + {n};
      assert Accepts(base, Call(0, keywords)) && !Accepts(head, Call(0, keywords));
    }
  }

  /**
    * Without `**kwargs` on either side, a parameter break is reported if and only if some keyword call that bound
    * to the base no longer binds to the head.
    */
  lemma VerdictIsExact(base: seq<Parameter>, head: seq<Parameter>)
    requires AllByKeyword(base) && AllByKeyword(head)
    requires !Has(base, VarKeyword) && !Has(head, VarKeyword)
    ensures ReportsParameterBreak(base, head) <==> BreaksKeywordCall(base, head)
  {
    hide ByName, BreaksKeywordCall, ReportsParameterBreak;
    BreakMeans(base, head);
    BreaksExactlyWhen(base, head);
  }

  /**
    * With `**kwargs` in play the report and the truth can part. They agree exactly when a required name was gained or a
    * default lost; or else when the head takes `**kwargs` and no name was lost, or does not and `**kwargs` was not lost
    * alone.
    */
  lemma VerdictAgreesExactlyWhen(base: seq<Parameter>, head: seq<Parameter>)
    requires AllByKeyword(base) && AllByKeyword(head)
    ensures var b, h := ByName(base), ByName(head);
      (ReportsParameterBreak(base, head) <==> BreaksKeywordCall(base, head))
      <==> || GainsRequired(b, h) || LosesDefault(b, h)
           || (if Has(head, VarKeyword) then !LosesName(b, h) else Has(base, VarKeyword) ==> LosesName(b, h))
  {
    hide ByName, BreaksKeywordCall, ReportsParameterBreak;
    BreakMeans(base, head);
    BreaksExactlyWhen(base, head);
  }

  function Plain(name: string, kind: ParameterKind, hasDefault: bool): Parameter {
    Parameter(name, kind, false, None, hasDefault, if hasDefault then Some("1") else None)
  }

  /** A false alarm: an optional parameter gives way to `**kwargs`, which is reported and breaks no keyword call. */
  lemma KwargsCanRaiseFalseAlarm()
    ensures var base, head := [Plain("a", PositionalOrKeyword, true)], [Plain("kw", VarKeyword, false)];
      ReportsParameterBreak(base, head) && !BreaksKeywordCall(base, head)
  {
    hide BreaksKeywordCall, ReportsParameterBreak;
    var base, head := [Plain("a", PositionalOrKeyword, true)], [Plain("kw", VarKeyword, false)];
    assert base[0] in base && head[0] in head;
    assert Has(head, VarKeyword);
    BreakMeans(base, head);
    BreaksExactlyWhen(base, head);
  }

  /** A miss: `**kwargs` is dropped, which is silent and breaks every call that used it. */
  lemma DroppedKwargsAreMissed()
    ensures var base, head: seq<Parameter> := [Plain("kw", VarKeyword, false)], [];
      !ReportsParameterBreak(base, head) && BreaksKeywordCall(base, head)
  {
    hide BreaksKeywordCall, ReportsParameterBreak;
    var base, head: seq<Parameter> := [Plain("kw", VarKeyword, false)], [];
    assert base[0] in base;
    assert Has(base, VarKeyword) && !Has(head, VarKeyword);
    BreakMeans(base, head);
    BreaksExactlyWhen(base, head);
  }

  // ----- Positional calls

  /** The parameters that `k` positional arguments fill. */
  function FilledBy(ps: seq<Parameter>, k: nat): seq<Parameter> { Filled(ps, Call(k, {})) }

  /** The signature admits `k` positional arguments, and they fill all it requires by position only. */
  ghost predicate Shape(ps: seq<Parameter>, k: nat) {
    && (k <= |Slots(ps)| || Has(ps, VarPositional))
    && forall p | p in ps && p.kind == PositionalOnly && !p.hasDefault :: p in FilledBy(ps, k)
  }

  /** The names a call with `k` positional arguments has to give as keywords. */
  ghost function Needed(ps: seq<Parameter>, k: nat): set<string> {
    set p | p in ps && TakesKeyword(p) && !p.hasDefault && p !in FilledBy(ps, k) :: p.name
  }

  /** A call with `k` positional arguments may give this keyword: it is named or swallowed, and not bound already. */
  ghost predicate Allows(ps: seq<Parameter>, k: nat, n: string) {
    && (Named(ps, n) || Has(ps, VarKeyword))
    && forall p | p in FilledBy(ps, k) && TakesKeyword(p) :: p.name != n
  }

  /** What a call with `k` positional arguments must satisfy. */
  lemma CallBinds(ps: seq<Parameter>, k: nat, keywords: set<string>)
    ensures Accepts(ps, Call(k, keywords))
      <==> Shape(ps, k) && Needed(ps, k) <= keywords && forall n | n in keywords :: Allows(ps, k, n)
  {
    hide Slots, Has, Named;
    assert Filled(ps, Call(k, keywords)) == FilledBy(ps, k);
    forall p | p in ps && TakesKeyword(p) && !p.hasDefault && p !in FilledBy(ps, k) ensures p.name in Needed(ps, k) {
    }
  }

  lemma NeededIsAllowed(ps: seq<Parameter>, k: nat)
    requires DistinctNames(ps)
    ensures forall n | n in Needed(ps, k) :: Allows(ps, k, n)
  {
    hide Slots, Has;
    forall n | n in Needed(ps, k) ensures Allows(ps, k, n) {
      var p :| p in ps && TakesKeyword(p) && !p.hasDefault && p !in FilledBy(ps, k) && p.name == n;
      forall q | q in FilledBy(ps, k) && TakesKeyword(q) ensures q.name != n {
        FilledIsPart(ps, k);
      }
    }
  }

  lemma FilledIsPart(ps: seq<Parameter>, k: nat)
    ensures forall p | p in FilledBy(ps, k) :: p in ps && TakesPosition(p)
  {
    forall p | p in FilledBy(ps, k) ensures p in ps && TakesPosition(p) {
      assert p in Slots(ps);
    }
  }

  /** The head takes every call the base took. */
  ghost predicate CoversEveryCall(base: seq<Parameter>, head: seq<Parameter>) {
    forall call :: Accepts(base, call) ==> Accepts(head, call)
  }

  /** With `k` positional arguments the head asks for no more than the base and allows no less. */
  ghost predicate CoversAt(base: seq<Parameter>, head: seq<Parameter>, k: nat) {
    Shape(base, k) ==>
      && Shape(head, k) && Needed(head, k) <= Needed(base, k)
      && forall n | Allows(base, k, n) :: Allows(head, k, n)
  }

  /** As many positional arguments as can make a difference. */
  function Longest(base: seq<Parameter>, head: seq<Parameter>): nat {
    1 + if |Slots(base)| <= |Slots(head)| then |Slots(head)| else |Slots(base)|
  }

  /**
    * For all signatures: the head takes every call the base took, positional arguments included, exactly when for every
    * number of positional arguments that can make a difference it asks for no more and allows no less.
    */
  lemma CoversExactlyWhen(base: seq<Parameter>, head: seq<Parameter>)
    requires DistinctNames(base) && DistinctNames(head)
    ensures CoversEveryCall(base, head) <==> forall k: nat | k <= Longest(base, head) :: CoversAt(base, head, k)
  {
    hide Accepts, CoversAt, Longest, DistinctNames;
    forall k: nat ensures CoversAt(base, head, k) <==> CoversCallsOf(base, head, k) {
      CoversAtMeans(base, head, k);
    }
    forall k: nat | k > Longest(base, head)
      ensures CoversAt(base, head, k) <==> CoversAt(base, head, Longest(base, head)) {
      FarPositionsAreAlike(base, head, k);
    }
    if forall k: nat | k <= Longest(base, head) :: CoversAt(base, head, k) {
      forall call: Call | Accepts(base, call) ensures Accepts(head, call) {
        assert CoversAt(base, head, call.positional);
        assert CoversCallsOf(base, head, call.positional) && call == Call(call.positional, call.keywords);
      }
    }
  }

  ghost predicate CoversCallsOf(base: seq<Parameter>, head: seq<Parameter>, k: nat) {
    forall keywords :: Accepts(base, Call(k, keywords)) ==> Accepts(head, Call(k, keywords))
  }

  lemma CoversAtMeans(base: seq<Parameter>, head: seq<Parameter>, k: nat)
    requires DistinctNames(base) && DistinctNames(head)
    ensures CoversAt(base, head, k) <==> CoversCallsOf(base, head, k)
  {
    hide Accepts, Shape, Needed, Allows, DistinctNames;
    forall keywords ensures Accepts(base, Call(k, keywords))
      <==> Shape(base, k) && Needed(base, k) <= keywords && forall n | n in keywords :: Allows(base, k, n) {
      CallBinds(base, k, keywords);
    }
    forall keywords ensures Accepts(head, Call(k, keywords))
      <==> Shape(head, k) && Needed(head, k) <= keywords && forall n | n in keywords :: Allows(head, k, n) {
      CallBinds(head, k, keywords);
    }
    NeededIsAllowed(base, k);
    if CoversCallsOf(base, head, k) && Shape(base, k) {
      var least := Needed(base, k);
      assert Accepts(head, Call(k, least));
      forall n | Allows(base, k, n) ensures Allows(head, k, n) {
        assert Accepts(head, Call(k, least + {n}));
        assert n in least + {n};
      }
    }
  }

  /** Beyond all positions of both, one more positional argument changes nothing. */
  lemma FarPositionsAreAlike(base: seq<Parameter>, head: seq<Parameter>, k: nat)
    requires k > Longest(base, head)
    ensures CoversAt(base, head, k) <==> CoversAt(base, head, Longest(base, head))
  {
    hide Shape, Needed, Allows;
    FarAlike(base, k, Longest(base, head));
    FarAlike(head, k, Longest(base, head));
  }

  lemma FarAlike(ps: seq<Parameter>, k: nat, j: nat)
    requires k > |Slots(ps)| && j > |Slots(ps)|
    ensures Shape(ps, k) <==> Shape(ps, j)
    ensures Needed(ps, k) == Needed(ps, j)
    ensures forall n :: Allows(ps, k, n) <==> Allows(ps, j, n)
  {
    hide Slots, Has, Named;
    assert FilledBy(ps, k) == FilledBy(ps, j);
  }

  /**
    * For all signatures: report and truth agree exactly when a required name gained, a name lost or a default lost goes
    * together with some number of positional arguments that is not covered.
    */
  lemma FullVerdictAgreesExactlyWhen(base: seq<Parameter>, head: seq<Parameter>)
    requires DistinctNames(base) && DistinctNames(head)
    ensures var b, h := ByName(base), ByName(head);
      (ReportsParameterBreak(base, head) <==> !CoversEveryCall(base, head))
      <==> (GainsRequired(b, h) || LosesName(b, h) || LosesDefault(b, h)
            <==> exists k: nat | k <= Longest(base, head) :: !CoversAt(base, head, k))
  {
    hide ReportsParameterBreak, CoversEveryCall, CoversAt, ByName, Longest, GainsRequired, LosesName, LosesDefault;
    BreakMeans(base, head);
    CoversExactlyWhen(base, head);
  }

  // ----- Silent verdicts

  /** Distinct names, and every parameter can be given by keyword: neither positional-only nor variadic. */
  ghost predicate AllTakeKeyword(ps: seq<Parameter>) { DistinctNames(ps) && forall p | p in ps :: TakesKeyword(p) }

  /** The names the first `k` positional arguments fill. */
  function FirstNames(ps: seq<Parameter>, k: nat): set<string>
    requires k <= |Slots(ps)|
  {
    set p | p in Slots(ps)[..k] :: p.name
  }

  /** However many positional arguments the base takes, they are kept. */
  ghost predicate KeepsPositions(base: seq<Parameter>, head: seq<Parameter>) {
    forall k: nat | k <= |Slots(base)| :: KeepsPositionsAt(base, head, k)
  }

  /**
    * What `k` positional arguments fill in the head was filled by them in the base, or is new; and what they filled in
    * the base and the head requires, they still fill.
    */
  ghost predicate KeepsPositionsAt(base: seq<Parameter>, head: seq<Parameter>, k: nat)
    requires k <= |Slots(base)|
  {
    var b, h := ByName(base), ByName(head);
    && k <= |Slots(head)|
    && (forall n | n in FirstNames(head, k) && n in b :: n in FirstNames(base, k))
    && (forall n | n in FirstNames(base, k) && n in h && !h[n].hasDefault :: n in FirstNames(head, k))
  }

  /** When every parameter takes a keyword, positions and names alone say what a call must satisfy. */
  lemma NamedShape(ps: seq<Parameter>, k: nat)
    requires AllTakeKeyword(ps)
    ensures var m := ByName(ps);
      && (Shape(ps, k) <==> k <= |Slots(ps)|)
      && (k <= |Slots(ps)| ==>
            && (forall n :: n in Needed(ps, k) <==> n in m && !m[n].hasDefault && n !in FirstNames(ps, k))
            && (forall n :: Allows(ps, k, n) <==> n in m && n !in FirstNames(ps, k)))
  {
    hide ByName, Slots;
    var m := ByName(ps);
    assert !Has(ps, VarPositional) && !Has(ps, VarKeyword);
    forall p | p in ps ensures m[p.name] == p {
      UniqueByName(ps, p);
    }
    assert forall n :: Named(ps, n) <==> n in m;
    FilledIsPart(ps, k);
    if k <= |Slots(ps)| {
      assert FilledBy(ps, k) == Slots(ps)[..k];
      forall p | p in ps ensures p in FilledBy(ps, k) <==> p.name in FirstNames(ps, k) {
        if p.name in FirstNames(ps, k) {
          var q :| q in FilledBy(ps, k) && q.name == p.name;
          assert m[q.name] == q;
        }
      }
    }
  }

  /** A silent verdict is then right for every call, positional arguments included, exactly when positions are kept. */
  lemma SilenceIsRightExactlyWhen(base: seq<Parameter>, head: seq<Parameter>)
    requires AllTakeKeyword(base) && AllTakeKeyword(head)
    requires !ReportsParameterBreak(base, head)
    ensures CoversEveryCall(base, head) <==> KeepsPositions(base, head)
  {
    hide CoversEveryCall, KeepsPositionsAt, ReportsParameterBreak, CoversAt, Slots;
    CoversExactlyWhen(base, head);
    BreakMeans(base, head);
    forall k: nat ensures CoversAt(base, head, k) <==> k <= |Slots(base)| ==> KeepsPositionsAt(base, head, k) {
      CoversKeptPositions(base, head, k);
    }
    assert |Slots(base)| <= Longest(base, head);
  }

  lemma CoversKeptPositions(base: seq<Parameter>, head: seq<Parameter>, k: nat)
    requires AllTakeKeyword(base) && AllTakeKeyword(head)
    requires var b, h := ByName(base), ByName(head); !GainsRequired(b, h) && !LosesName(b, h) && !LosesDefault(b, h)
    ensures CoversAt(base, head, k) <==> k <= |Slots(base)| ==> KeepsPositionsAt(base, head, k)
  {
    hide Shape, Needed, Allows, ByName, FirstNames, Slots, AllTakeKeyword;
    NamedShape(base, k);
    NamedShape(head, k);
  }

  function NamesOf(ps: seq<Parameter>): (r: seq<string>)
    ensures |r| == |ps| && forall k | 0 <= k < |r| :: r[k] == ps[k].name
  {
    seq(|ps|, k requires 0 <= k < |ps| => ps[k].name)
  }

  /**
    * The head keeps the positions of the base and adds only behind them, keeps `*args` and `**kwargs`, and what took a
    * keyword still does; where surplus arguments are swallowed, no position or keyword is new to them.
    */
  ghost predicate KeepsOrder(base: seq<Parameter>, head: seq<Parameter>) {
    && NamesOf(Slots(base)) <= NamesOf(Slots(head))
    && (Has(base, VarPositional) ==> Has(head, VarPositional) && |Slots(base)| == |Slots(head)|)
    && (Has(base, VarKeyword) ==> Has(head, VarKeyword))
    && forall p, q | p in base && q in head && p.name == q.name && IsAddressable(p) && IsAddressable(q) ::
         (TakesKeyword(p) ==> TakesKeyword(q)) && (Has(base, VarKeyword) && TakesKeyword(q) ==> TakesKeyword(p))
  }

  /** Whatever the kinds, a silent verdict is right when the head keeps the order of the base. */
  lemma SilenceCoversEveryCall(base: seq<Parameter>, head: seq<Parameter>)
    requires DistinctNames(base) && DistinctNames(head) && KeepsOrder(base, head)
    requires !ReportsParameterBreak(base, head)
    ensures CoversEveryCall(base, head)
  {
    hide DistinctNames, KeepsOrder, ReportsParameterBreak, CoversEveryCall, CoversAt;
    BreakMeans(base, head);
    CoversExactlyWhen(base, head);
    forall k: nat ensures CoversAt(base, head, k) {
      OrderCoversAt(base, head, k);
    }
  }

  lemma SameName(ps: seq<Parameter>, p: Parameter, q: Parameter)
    requires DistinctNames(ps) && p in ps && q in ps && p.name == q.name
    ensures p == q
  {
  }

  ghost predicate SameNames(xs: seq<Parameter>, ys: seq<Parameter>) {
    |xs| == |ys| && forall i | 0 <= i < |xs| :: xs[i].name == ys[i].name
  }

  lemma Counterpart(xs: seq<Parameter>, ys: seq<Parameter>, p: Parameter) returns (q: Parameter)
    requires SameNames(xs, ys) && p in xs
    ensures q in ys && q.name == p.name
  {
    var i :| 0 <= i < |xs| && xs[i] == p;
    q := ys[i];
  }

  lemma SlotNames(xs: seq<Parameter>, ys: seq<Parameter>)
    requires NamesOf(xs) <= NamesOf(ys)
    ensures |xs| <= |ys| && SameNames(xs, ys[..|xs|])
  {
    assert |NamesOf(xs)| == |xs| <= |NamesOf(ys)|;
    forall i | 0 <= i < |xs| ensures xs[i].name == ys[i].name {
      assert NamesOf(xs)[i] == NamesOf(ys)[i];
    }
  }

  /** What surplus arguments cannot upset: `k` positional arguments fill parameters of the same names on both sides. */
  lemma SameNamesFilled(base: seq<Parameter>, head: seq<Parameter>, k: nat)
    requires KeepsOrder(base, head) && Shape(base, k)
    ensures SameNames(FilledBy(base, k), FilledBy(head, k))
  {
    hide Slots, Has, NamesOf;
    SlotNames(Slots(base), Slots(head));
  }

  lemma OrderCoversAt(base: seq<Parameter>, head: seq<Parameter>, k: nat)
    requires DistinctNames(base) && DistinctNames(head) && KeepsOrder(base, head)
    requires var b, h := ByName(base), ByName(head); !GainsRequired(b, h) && !LosesName(b, h) && !LosesDefault(b, h)
    ensures CoversAt(base, head, k)
  {
    hide Slots, Has, ByName, DistinctNames, FilledBy, KeepsOrder, Needed, Allows, Shape, GainsRequired, LosesName,
         LosesDefault;
    if Shape(base, k) {
      ShapeIsKept(base, head, k);
      NoMoreNeeded(base, head, k);
      forall n | Allows(base, k, n) ensures Allows(head, k, n) {
        StillAllowed(base, head, k, n);
      }
    }
  }

  /** A parameter the head requires was required, and is filled if it was. */
  lemma RequiredBefore(base: seq<Parameter>, head: seq<Parameter>, k: nat, q: Parameter) returns (p: Parameter)
    requires DistinctNames(head) && KeepsOrder(base, head) && Shape(base, k)
    requires q in head && IsAddressable(q) && !q.hasDefault
    requires var b, h := ByName(base), ByName(head); !GainsRequired(b, h) && !LosesDefault(b, h)
    ensures p in base && p.name == q.name && IsAddressable(p) && !p.hasDefault
    ensures p in FilledBy(base, k) ==> q in FilledBy(head, k)
  {
    hide ByName, FilledBy, KeepsOrder, Shape, DistinctNames;
    UniqueByName(head, q);
    p := ByName(base)[q.name];
    SameNamesFilled(base, head, k);
    FilledIsPart(head, k);
    if p in FilledBy(base, k) {
      var r := Counterpart(FilledBy(base, k), FilledBy(head, k), p);
      SameName(head, q, r);
    }
  }

  lemma ShapeIsKept(base: seq<Parameter>, head: seq<Parameter>, k: nat)
    requires DistinctNames(head) && KeepsOrder(base, head) && Shape(base, k)
    requires var b, h := ByName(base), ByName(head); !GainsRequired(b, h) && !LosesDefault(b, h)
    ensures Shape(head, k)
  {
    hide Slots, Has, NamesOf, ByName, FilledBy, DistinctNames, GainsRequired, LosesDefault, KeepsOrder;
    PlacesAreKept(base, head, k);
    forall q | q in head && q.kind == PositionalOnly && !q.hasDefault ensures q in FilledBy(head, k) {
      var p := RequiredBefore(base, head, k, q);
      KeywordIsKept(base, head, p, q);
    }
  }

  lemma PlacesAreKept(base: seq<Parameter>, head: seq<Parameter>, k: nat)
    requires KeepsOrder(base, head) && (k <= |Slots(base)| || Has(base, VarPositional))
    ensures k <= |Slots(head)| || Has(head, VarPositional)
  {
    hide Slots, Has, NamesOf;
    SlotNames(Slots(base), Slots(head));
  }

  lemma KeywordsAreKept(base: seq<Parameter>, head: seq<Parameter>)
    requires KeepsOrder(base, head)
    ensures Has(base, VarKeyword) ==> Has(head, VarKeyword)
  {
    hide Slots, NamesOf, Has;
  }

  lemma KeywordIsKept(base: seq<Parameter>, head: seq<Parameter>, p: Parameter, q: Parameter)
    requires KeepsOrder(base, head) && p in base && q in head && p.name == q.name && IsAddressable(p)
      && IsAddressable(q)
    ensures TakesKeyword(p) ==> TakesKeyword(q)
    ensures Has(base, VarKeyword) && TakesKeyword(q) ==> TakesKeyword(p)
  {
    hide Slots, NamesOf;
  }

  lemma NoMoreNeeded(base: seq<Parameter>, head: seq<Parameter>, k: nat)
    requires DistinctNames(head) && KeepsOrder(base, head) && Shape(base, k)
    requires var b, h := ByName(base), ByName(head); !GainsRequired(b, h) && !LosesDefault(b, h)
    ensures Needed(head, k) <= Needed(base, k)
  {
    hide Slots, Has, ByName, FilledBy, DistinctNames, KeepsOrder, GainsRequired, LosesDefault;
    forall n | n in Needed(head, k) ensures n in Needed(base, k) {
      var q :| q in head && TakesKeyword(q) && !q.hasDefault && q !in FilledBy(head, k) && q.name == n;
      var p := RequiredBefore(base, head, k, q);
    }
  }

  lemma StillAllowed(base: seq<Parameter>, head: seq<Parameter>, k: nat, n: string)
    requires DistinctNames(base) && DistinctNames(head) && KeepsOrder(base, head) && Shape(base, k)
    requires !LosesName(ByName(base), ByName(head)) && Allows(base, k, n)
    ensures Allows(head, k, n)
  {
    hide Slots, Has, ByName, FilledBy, DistinctNames, Shape, KeepsOrder;
    KeywordsAreKept(base, head);
    SameNamesFilled(base, head, k);
    FilledIsPart(base, k);
    FilledIsPart(head, k);
    if Named(base, n) {
      var p :| p in base && TakesKeyword(p) && p.name == n;
      assert n in ByName(base) && n in ByName(head);
      UniqueByName(base, p);
      KeywordIsKept(base, head, p, ByName(head)[n]);
    }
    forall q | q in FilledBy(head, k) && TakesKeyword(q) ensures q.name != n {
      var p := Counterpart(FilledBy(head, k), FilledBy(base, k), q);
      KeywordIsKept(base, head, p, q);
      if Named(base, n) {
        var r :| r in base && TakesKeyword(r) && r.name == n;
        if r.name == p.name {
          SameName(base, p, r);
        }
      }
    }
  }

  /** Kinds are not compared: turning a parameter keyword-only is silent and breaks its positional callers. */
  lemma KeywordOnlyTurnIsMissed()
    ensures var base, head := [Plain("a", PositionalOrKeyword, false)], [Plain("a", KeywordOnly, false)];
      !ReportsParameterBreak(base, head) && !CoversEveryCall(base, head)
  {
    hide CoversEveryCall, ReportsParameterBreak;
    var base, head := [Plain("a", PositionalOrKeyword, false)], [Plain("a", KeywordOnly, false)];
    assert base[0] in base && head[0] in head;
    BreakMeans(base, head);
    UniqueByName(base, base[0]);
    UniqueByName(head, head[0]);
    assert Slots(base) == base && Slots(head) == [] by {
      assert base[1..] == [] && head[1..] == [];
    }
    assert !KeepsPositionsAt(base, head, 1);
    SilenceIsRightExactlyWhen(base, head);
  }

  /** Turning it positional-only is silent too and breaks its keyword callers. */
  lemma PositionalOnlyTurnIsMissed()
    ensures var base, head := [Plain("a", PositionalOrKeyword, false)], [Plain("a", PositionalOnly, false)];
      !ReportsParameterBreak(base, head) && !CoversEveryCall(base, head)
  {
    hide CoversEveryCall, ReportsParameterBreak;
    var base, head := [Plain("a", PositionalOrKeyword, false)], [Plain("a", PositionalOnly, false)];
    assert base[0] in base && head[0] in head;
    BreakMeans(base, head);
    UniqueByName(base, base[0]);
    UniqueByName(head, head[0]);
    assert FilledBy(base, 0) == [] && FilledBy(head, 0) == [];
    assert Shape(base, 0) && !Shape(head, 0);
    assert !CoversAt(base, head, 0);
    CoversExactlyWhen(base, head);
  }

  /** Renaming a positional-only parameter is reported and breaks no call. */
  lemma PositionalOnlyRenameIsFalseAlarm()
    ensures var base, head := [Plain("a", PositionalOnly, false)], [Plain("b", PositionalOnly, false)];
      ReportsParameterBreak(base, head) && CoversEveryCall(base, head)
  {
    hide CoversEveryCall, ReportsParameterBreak;
    var base, head := [Plain("a", PositionalOnly, false)], [Plain("b", PositionalOnly, false)];
    assert base[0] in base && head[0] in head;
    BreakMeans(base, head);
    UniqueByName(base, base[0]);
    assert Slots(base) == base && Slots(head) == head by {
      assert base[1..] == [] && head[1..] == [];
    }
    forall k: nat ensures CoversAt(base, head, k) {
      assert FilledBy(base, k) == if k == 0 then [] else base;
      assert FilledBy(head, k) == if k == 0 then [] else head;
    }
    CoversExactlyWhen(base, head);
  }

  // ----- Order does not matter

  /** The same parameters in another order give the same parameter characteristics. */
  lemma OrderDoesNotMatter(base: seq<Parameter>, head: seq<Parameter>, base': seq<Parameter>, head': seq<Parameter>)
    requires DistinctNames(base) && DistinctNames(head) && DistinctNames(base') && DistinctNames(head')
    requires multiset(base) == multiset(base') && multiset(head) == multiset(head')
    ensures ParameterChanges(base, head) == ParameterChanges(base', head')
  {
    hide ByName, SortedNames, Added, Kept;
    SameDictionary(base, base');
    SameDictionary(head, head');
    var b, h := ByName(base), ByName(head);
    SameSortedNames(head, head', Absent(b));
    SameSortedNames(base, base', Absent(h));
    SameSortedNames(base, base', Present(h));
  }

  lemma SameMembers<T>(xs: seq<T>, ys: seq<T>)
    requires multiset(xs) == multiset(ys)
    ensures forall x :: x in xs <==> x in ys
  {
    assert forall x :: x in xs <==> x in multiset(xs);
    assert forall x :: x in ys <==> x in multiset(ys);
  }

  lemma SameDictionary(ps: seq<Parameter>, qs: seq<Parameter>)
    requires DistinctNames(ps) && DistinctNames(qs) && multiset(ps) == multiset(qs)
    ensures ByName(ps) == ByName(qs)
  {
    hide ByName;
    SameMembers(ps, qs);
    var m, n := ByName(ps), ByName(qs);
    forall k | k in m ensures k in n && m[k] == n[k] {
      UniqueByName(qs, m[k]);
    }
    forall k | k in n ensures k in m {
      UniqueByName(ps, n[k]);
    }
  }

  lemma {:induction false} NamesAreDistinct(ps: seq<Parameter>, keep: string -> bool)
    ensures forall n | n in Names(ps, keep) :: multiset(Names(ps, keep))[n] == 1
  {
    if ps != [] {
      NamesAreDistinct(ps[..|ps| - 1], keep);
    }
  }

  lemma SameSortedNames(ps: seq<Parameter>, qs: seq<Parameter>, keep: string -> bool)
    requires ByName(ps) == ByName(qs)
    ensures SortedNames(ps, keep) == SortedNames(qs, keep)
  {
    hide ByName, Sort, StringLe;
    var xs, ys := Names(ps, keep), Names(qs, keep);
    NamesAreDistinct(ps, keep);
    NamesAreDistinct(qs, keep);
    assert multiset(xs) == multiset(ys) by {
      forall n ensures multiset(xs)[n] == multiset(ys)[n] {
        assert n in xs <==> n in multiset(xs);
        assert n in ys <==> n in multiset(ys);
      }
    }
    StringLeIsTotalPreorder();
    forall x, y | x in xs && y in xs && StringLe(x, y) && StringLe(y, x) ensures x == y {
      StringLeAntisymmetric(x, y);
    }
    SortIgnoresInputOrder(xs, ys, StringLe);
  }
}
