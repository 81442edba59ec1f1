/** Running a campaign again with the same inputs: when it is a fixed point. */
module CampaignRerun {
  import opened Wrappers
  import opened Ordering
  import opened CampaignDomain
  import opened CampaignStates
  import opened CampaignEvaluation
  import opened CampaignRun
  import opened CampaignSafety

  // ----- The same inputs, later

  /** The second answer is the first one, or the same pull request reported as updated rather than opened. */
  ghost predicate SameAnswer(a: Attempt<PullRequest>, b: Attempt<PullRequest>) {
    b == a || (a.Returned? && a.value.status == Opened && b == Returned(a.value.(status := Updated)))
  }

  ghost predicate SamePublisher(p: Option<Publisher>, q: Option<Publisher>) {
    && (p.Some? <==> q.Some?)
    && (p.Some? ==> forall plan, patch, draft :: SameAnswer(p.value(plan, patch, draft), q.value(plan, patch, draft)))
  }

  function FreshnessAt(input: RunInput, e: Entry): Freshness {
    AssessFreshness(e.accessLost, e.lastDiscoveryAt, input.now, input.window)
  }

  /** Only the clock and the publisher may differ, and no repository's evidence ages out in between. */
  ghost predicate SameButLater(first: RunInput, second: RunInput) {
    && second == first.(now := second.now, publish := second.publish)
    && (forall e | e in first.entries :: FreshnessAt(first, e) == FreshnessAt(second, e))
    && SamePublisher(first.publish, second.publish)
  }

  // ----- One repository, twice

  lemma PublishingAgain(first: RunInput, second: RunInput, v: Evaluation)
    requires SameButLater(first, second)
    ensures Normal(PublishUnder(second, At(v, second.now)).evaluation.record)
         == Normal(PublishUnder(first, v).evaluation.record)
    ensures PublishUnder(second, At(v, second.now)).evaluation.classification
         == PublishUnder(first, v).evaluation.classification
  {
    hide BoundReasons, DecisionText, DeriveRepoState, FreshnessAt, DecisionFor, SameAnswer, Because, ApplyPublication,
         PublicationFailed, WritesToGithub;
    var again := At(v, second.now);
    if v.prPlan.Some? {
      SameDecision(first, second, v);
      var decision := DecisionFor(first.policy, first.approved, v);
      var text := "publication policy: " + DecisionText(decision.notice);
      BecauseAgain(v.record, second.now, text);
      if first.publish.Some? {
        var plan, patch, draft := v.prPlan.value, v.patch, IsDraft(decision);
        var a, b := first.publish.value(plan, patch, draft), second.publish.value(plan, patch, draft);
        assert SameAnswer(a, b);
        SameAnswerSameRecord(Because(v.record, text), second.now, a, b);
        if a.Raised? {
          FailureAgain(Because(v.record, text), second.now, first.engine.scrub(a.error));
        }
      }
    }
  }

  lemma SameDecision(first: RunInput, second: RunInput, v: Evaluation)
    requires SameButLater(first, second) && v.prPlan.Some?
    ensures DecisionFor(second.policy, second.approved, At(v, second.now))
         == DecisionFor(first.policy, first.approved, v)
  {
    hide SamePublisher, FreshnessAt, DecidePublication, Approved;
  }

  lemma BecauseAgain(r: Record, later: int, text: string)
    ensures Because(r.(evaluatedAt := Some(later)), text) == Because(r, text).(evaluatedAt := Some(later))
    ensures Normal(Because(r, text).(evaluatedAt := Some(later))) == Normal(Because(r, text))
  {
    hide BoundReasons;
  }

  lemma FailureAgain(r: Record, later: int, error: string)
    ensures Normal(PublicationFailed(r.(evaluatedAt := Some(later)), error)) == Normal(PublicationFailed(r, error))
  {
    hide BoundReasons;
  }

  lemma SameAnswerSameRecord(r: Record, later: int, a: Attempt<PullRequest>, b: Attempt<PullRequest>)
    requires SameAnswer(a, b)
    ensures a.Raised? <==> b.Raised?
    ensures a.Raised? ==> a == b
    ensures a.Returned? ==>
      Normal(ApplyPublication(r.(evaluatedAt := Some(later)), b.value)) == Normal(ApplyPublication(r, a.value))
  {
    hide Told, DeriveRepoState;
    if a.Returned? {
      ToldAgain(r, later, a.value.reason.GetOr(""));
      if a != b {
        OpenedIsUpdated(PublishedFacts(r, a.value));
      }
    }
  }

  lemma ToldAgain(r: Record, later: int, reason: string)
    ensures Told(r.(evaluatedAt := Some(later)), reason) == Told(r, reason).(evaluatedAt := Some(later))
  {
    hide BoundReasons;
  }

  lemma EvaluatingAgain(first: RunInput, second: RunInput, e: Entry)
    requires SameButLater(first, second) && FreshnessAt(first, e) == FreshnessAt(second, e)
    ensures EvaluateEntry(second, e) == At(EvaluateEntry(first, e), second.now)
  {
    hide Evaluate, SamePublisher;
    ClockShowsOnlyInFreshness(first.engine, first.policy, first.window, first.now, second.now, e);
  }

  function HadPast(previous: Option<Campaign>, e: Entry): bool { WasEverAffected(WithPast(previous, e)) }

  predicate IsAffectedNow(input: RunInput, previous: Option<Campaign>, e: Entry) {
    EvaluationFor(input, previous, e).classification.orgClass == OrgClass.Affected
  }

  predicate HasPastAfter(input: RunInput, previous: Option<Campaign>, e: Entry) {
    HadPast(previous, e) || IsAffectedNow(input, previous, e)
  }

  /** A second look at one repository agrees with the first exactly when its history does, or does not matter. */
  lemma OneAgain(first: RunInput, second: RunInput, previous: Option<Campaign>, past: Option<Campaign>, e: Entry)
    requires SameButLater(first, second) && FreshnessAt(first, e) == FreshnessAt(second, e)
    ensures Normal(FinalRecord(second, past, e)) == Normal(FinalRecord(first, previous, e))
      <==> IsAffectedNow(first, previous, e) || HadPast(previous, e) == HadPast(past, e)
    ensures OutcomeFor(second, past, e).evaluation.classification
         == OutcomeFor(first, previous, e).evaluation.classification
  {
    hide EvaluateEntry, PublishUnder, WithPast, IsHonest, FreshnessAt, SamePublisher;
    var x, y := WithPast(previous, e), WithPast(past, e);
    PastKeepsName(previous, e);
    PastKeepsName(past, e);
    assert y == x.(previous := y.previous);
    var v, w := EvaluateEntry(first, x), EvaluateEntry(first, y);
    assert FreshnessAt(first, y) == FreshnessAt(second, y) by { FreshnessIgnoresPast(first, second, e, past); }
    EvaluatingAgain(first, second, y);
    SameEvaluation(first, x, y);
    FinalIsHonest(first, previous, e);
    FinalIsHonest(second, past, e);
    ShowsPast(first, previous, e);
    ShowsPast(second, past, e);
    if v == w {
      PublishingAgain(first, second, v);
    }
  }

  lemma FreshnessIgnoresPast(first: RunInput, second: RunInput, e: Entry, past: Option<Campaign>)
    requires FreshnessAt(first, e) == FreshnessAt(second, e)
    ensures FreshnessAt(first, WithPast(past, e)) == FreshnessAt(second, WithPast(past, e))
  {
  }

  lemma SameEvaluation(input: RunInput, x: Entry, y: Entry)
    requires y == x.(previous := y.previous)
    ensures SameButForPast(x, y.previous, EvaluateEntry(input, x), EvaluateEntry(input, y))
  {
    hide Evaluate, SameButForPast;
    HistoryShowsOnlyWhenUnaffected(input.engine, input.policy, input.window, input.now, x, y.previous);
  }

  lemma ShowsPast(input: RunInput, previous: Option<Campaign>, e: Entry)
    ensures FinalRecord(input, previous, e).everAffected <==> HasPastAfter(input, previous, e)
    ensures OutcomeFor(input, previous, e).evaluation.classification == EvaluationFor(input, previous, e).classification
  {
    hide EvaluationFor, PublishUnder, WithPast;
    FinalIsHonest(input, previous, e);
  }

  // ----- The whole run, twice

  lemma {:induction false} KeptAgain(first: RunInput, second: RunInput, entries: seq<Entry>)
    requires first.producer == second.producer
    ensures Kept(first, entries) == Kept(second, entries)
    ensures forall e | e in Kept(first, entries) :: e in entries
    decreases |entries|
  {
    if entries != [] {
      KeptAgain(first, second, entries[..|entries| - 1]);
    }
  }

  lemma BaseIsInEntries(input: RunInput, e: Entry)
    requires e in Base(input)
    ensures e in input.entries
  {
    hide Sort, Kept;
    KeptAgain(input, input, input.entries);
    SortIsPermutation(Kept(input, input.entries), EntryLe);
    assert e in multiset(Base(input));
  }

  lemma SameBase(first: RunInput, second: RunInput)
    requires SameButLater(first, second)
    ensures Base(first) == Base(second)
  {
    hide Sort, SamePublisher, FreshnessAt;
    KeptAgain(first, second, first.entries);
  }

  lemma RecordsAscend(input: RunInput, previous: Option<Campaign>)
    requires Analyzes(input.policy)
    ensures Ascending(Run(input, previous).campaign.records, RecordLe)
  {
    hide Run, Sort, StringLe, FinalRecord;
    StringLeIsTotalPreorder();
    SortIsAscending(Kept(input, input.entries), EntryLe);
    RecordsByEntry(input, previous);
    var records := Run(input, previous).campaign.records;
    forall i, j | 0 <= i < j < |records| ensures RecordLe(records[i], records[j]) {
      NameOfFinal(input, previous, Base(input)[i]);
      NameOfFinal(input, previous, Base(input)[j]);
      assert EntryLe(Base(input)[i], Base(input)[j]);
    }
  }

  lemma NameOfFinal(input: RunInput, previous: Option<Campaign>, e: Entry)
    ensures FinalRecord(input, previous, e).repository == e.fullName
  {
    hide EvaluationFor, PublishUnder, WithPast;
    FinalIsHonest(input, previous, e);
  }

  lemma SignatureOfAscending(records: seq<Record>)
    requires Ascending(records, RecordLe)
    ensures Signature(records) == NormalAll(records)
  {
    hide RecordLe;
    SortFixesAscending(records, RecordLe);
  }

  predicate SameNormals(one: seq<Record>, two: seq<Record>) {
    |one| == |two| && forall k | 0 <= k < |one| :: Normal(two[k]) == Normal(one[k])
  }

  lemma SameNormalsSameSignature(one: Campaign, records: seq<Record>)
    requires Ascending(one.records, RecordLe) && Ascending(records, RecordLe)
    requires one.state == DeriveCampaignState(StatesOf(one.records))
    ensures IsSame(one, records, DeriveCampaignState(StatesOf(records))) <==> SameNormals(one.records, records)
  {
    hide RecordLe, DeriveCampaignState, Signature, Normal;
    SignatureOfAscending(one.records);
    SignatureOfAscending(records);
    if SameNormals(one.records, records) {
      assert NormalAll(one.records) == NormalAll(records);
      forall k | 0 <= k < |records| ensures one.records[k].state == records[k].state {
        NormalKeepsState(one.records[k], records[k]);
      }
      assert StatesOf(one.records) == StatesOf(records);
    } else {
      assert |one.records| == |records| ==>
        exists k :: 0 <= k < |records| && NormalAll(one.records)[k] != NormalAll(records)[k];
    }
  }

  lemma NormalKeepsState(r: Record, s: Record)
    requires Normal(r) == Normal(s)
    ensures r.state == s.state && RiskOf(r) == RiskOf(s) && r.orgClass == s.orgClass && r.repository == s.repository
  {
  }

  /** The place of the first entry of that name. */
  function FirstOf(base: seq<Entry>, name: string): (k: nat)
    requires exists e | e in base :: e.fullName == name
    ensures k < |base| && base[k].fullName == name
    ensures forall i | 0 <= i < k :: base[i].fullName != name
  {
    if base[0].fullName == name then 0
    else
      assert base == [base[0]] + base[1..];
      1 + FirstOf(base[1..], name)
  }

  lemma {:induction false} RecordForIsFirst(base: seq<Entry>, records: seq<Record>, name: string)
    requires |records| == |base| && forall k | 0 <= k < |base| :: records[k].repository == base[k].fullName
    requires exists e | e in base :: e.fullName == name
    ensures RecordFor(records, name) == Some(records[FirstOf(base, name)])
    decreases |base|
  {
    if base[0].fullName != name {
      assert base == [base[0]] + base[1..];
      RecordForIsFirst(base[1..], records[1..], name);
    }
  }

  lemma PastOfRerun(input: RunInput, previous: Option<Campaign>, e: Entry)
    requires Analyzes(input.policy) && e in Base(input)
    ensures HadPast(Some(Run(input, previous).campaign), e)
      <==> HasPastAfter(input, previous, Base(input)[FirstOf(Base(input), e.fullName)])
  {
    hide Run, Base, FinalRecord, HasPastAfter;
    var base, records := Base(input), Run(input, previous).campaign.records;
    RecordsByEntry(input, previous);
    forall k | 0 <= k < |base| ensures records[k].repository == base[k].fullName {
      NameOfFinal(input, previous, base[k]);
    }
    RecordForIsFirst(base, records, e.fullName);
    ShowsPast(input, previous, base[FirstOf(base, e.fullName)]);
  }

  /**
    * After the first run, the entry reads the history of the first entry of its name. It agrees with its own unless the
    * two differ on having been affected, and that only matters while the entry is not affected itself.
    */
  ghost predicate AgreesWithFirst(input: RunInput, previous: Option<Campaign>, e: Entry)
    requires e in Base(input)
  {
    || IsAffectedNow(input, previous, e)
    || (HadPast(previous, e) <==> HasPastAfter(input, previous, Base(input)[FirstOf(Base(input), e.fullName)]))
  }

  /**
    * From any previous campaign, running twice with the same inputs reports no change the second time exactly when
    * every entry agrees on its history with the first entry of its name.
    */
  lemma RerunIsFixedExactlyWhen(first: RunInput, second: RunInput, previous: Option<Campaign>)
    requires Analyzes(first.policy) && SameButLater(first, second)
    ensures !Run(second, Some(Run(first, previous).campaign)).changed
      <==> forall e | e in Base(first) :: AgreesWithFirst(first, previous, e)
  {
    hide SameButLater, Base, FinalRecord, IsSame, HadPast, HasPastAfter, IsAffectedNow, RecordLe, Outcomes,
         BuildBlastRadius, DeriveCampaignState, UnresolvedRisks, DecisionsOf, PublicationsOf, CallsOf, SameNormals;
    var one := Run(first, previous).campaign;
    var two := Run(second, Some(one)).campaign;
    SecondAnalyzes(first, second);
    RecordsAscend(first, previous);
    RecordsAscend(second, Some(one));
    SameNormalsSameSignature(one, two.records);
    NormalsByEntry(first, second, previous);
  }

  lemma SecondAnalyzes(first: RunInput, second: RunInput)
    requires SameButLater(first, second)
    ensures Analyzes(first.policy) <==> Analyzes(second.policy)
  {
  }

  lemma NormalsByEntry(first: RunInput, second: RunInput, previous: Option<Campaign>)
    requires Analyzes(first.policy) && SameButLater(first, second)
    ensures var one := Run(first, previous).campaign;
      SameNormals(one.records, Run(second, Some(one)).campaign.records)
      <==> forall e | e in Base(first) :: AgreesWithFirst(first, previous, e)
  {
    hide SameButLater, Base, FinalRecord, HadPast, HasPastAfter, IsAffectedNow, Run, Normal;
    var one := Run(first, previous).campaign;
    var records := Run(second, Some(one)).campaign.records;
    SecondAnalyzes(first, second);
    RecordsByEntry(first, previous);
    RecordsByEntry(second, Some(one));
    SameBase(first, second);
    var base := Base(first);
    forall k | 0 <= k < |base|
      ensures Normal(records[k]) == Normal(one.records[k]) <==> AgreesWithFirst(first, previous, base[k]) {
      assert base[k] in base;
      SameFreshness(first, second, base[k]);
      OneAgain(first, second, previous, Some(one), base[k]);
      PastOfRerun(first, previous, base[k]);
    }
    if SameNormals(one.records, records) {
      forall e | e in base ensures AgreesWithFirst(first, previous, e) {
        var k :| 0 <= k < |base| && base[k] == e;
      }
    }
  }

  lemma SameFreshness(first: RunInput, second: RunInput, e: Entry)
    requires SameButLater(first, second) && e in Base(first)
    ensures FreshnessAt(first, e) == FreshnessAt(second, e)
  {
    hide Base, SamePublisher, FreshnessAt;
    BaseIsInEntries(first, e);
  }

  ghost predicate DistinctNames(base: seq<Entry>) {
    forall i, j | 0 <= i < j < |base| :: base[i].fullName != base[j].fullName
  }

  /**
    * With one entry for each repository a re-run is a fixed point: no change is reported, and the campaign is the same
    * in everything but the times of evaluation and whether a pull request reads as opened or updated.
    */
  lemma RerunIsAFixedPoint(first: RunInput, second: RunInput, previous: Option<Campaign>)
    requires Analyzes(first.policy) && SameButLater(first, second) && DistinctNames(Base(first))
    ensures var one := Run(first, previous).campaign;
      var again := Run(second, Some(one));
      && !again.changed
      && SameNormals(one.records, again.campaign.records)
      && again.campaign == one.(records := again.campaign.records)
  {
    hide SameButLater, Base, FinalRecord, HadPast, IsAffectedNow, Run, Normal;
    var one := Run(first, previous).campaign;
    forall e | e in Base(first) ensures AgreesWithFirst(first, previous, e) {
      var k :| 0 <= k < |Base(first)| && Base(first)[k] == e;
      assert FirstOf(Base(first), e.fullName) == k;
    }
    RerunIsFixedExactlyWhen(first, second, previous);
    NormalsByEntry(first, second, previous);
    SameCampaign(first, second, previous);
  }

  lemma SameCampaign(first: RunInput, second: RunInput, previous: Option<Campaign>)
    requires Analyzes(first.policy) && SameButLater(first, second)
    requires !Run(second, Some(Run(first, previous).campaign)).changed
    requires SameNormals(Run(first, previous).campaign.records,
                         Run(second, Some(Run(first, previous).campaign)).campaign.records)
    ensures var one := Run(first, previous).campaign;
      var two := Run(second, Some(one)).campaign;
      two == one.(records := two.records)
  {
    hide Base, FinalRecord, HadPast, IsAffectedNow, Normal, Outcomes, UnresolvedRisks, BuildBlastRadius,
         DeriveCampaignState, SamePublisher, FreshnessAt, DecisionsOf, PublicationsOf, CallsOf, Signature;
    var one := Run(first, previous).campaign;
    var two := Run(second, Some(one)).campaign;
    SameClassifications(first, second, previous, Some(one));
    RecordsAscend(first, previous);
    RecordsAscend(second, Some(one));
    SameRisks(one.records, two.records);
  }

  lemma SameClassifications(first: RunInput, second: RunInput, previous: Option<Campaign>, past: Option<Campaign>)
    requires SameButLater(first, second)
    ensures ClassificationsOf(EvaluationsOf(Outcomes(first, previous)))
         == ClassificationsOf(EvaluationsOf(Outcomes(second, past)))
  {
    hide Base, OutcomeFor, FinalRecord, HadPast, IsAffectedNow, Outcomes, SameButLater;
    SameBase(first, second);
    OutcomesByEntry(first, previous);
    OutcomesByEntry(second, past);
    forall k | 0 <= k < |Base(first)|
      ensures Outcomes(first, previous)[k].evaluation.classification
           == Outcomes(second, past)[k].evaluation.classification {
      SameFreshness(first, second, Base(first)[k]);
      OneAgain(first, second, previous, past, Base(first)[k]);
    }
  }

  lemma SameRisks(one: seq<Record>, two: seq<Record>)
    requires SameNormals(one, two) && Ascending(one, RecordLe) && Ascending(two, RecordLe)
    ensures UnresolvedRisks(one) == UnresolvedRisks(two)
  {
    hide RecordLe, Normal, OpenRisks, CountUnknown;
    SortFixesAscending(one, RecordLe);
    SortFixesAscending(two, RecordLe);
    SameOpenRisks(one, two);
  }

  lemma {:induction false} SameOpenRisks(one: seq<Record>, two: seq<Record>)
    requires SameNormals(one, two)
    ensures OpenRisks(one) == OpenRisks(two) && CountUnknown(one) == CountUnknown(two)
    decreases |one|
  {
    hide Normal, RiskOf, IsBlocking;
    if one != [] {
      NormalKeepsState(one[0], two[0]);
      SameOpenRisks(one[1..], two[1..]);
    }
  }

  // ----- Two entries for one repository

  /** An engine that finds a repository affected exactly when its inventory reads "uses". */
  function Reader(): Engine {
    Engine((inventory: string, root: Option<string>) => Returned(Seen(inventory == "uses")),
           (root: string, name: string, sha: Option<string>) => Raised(""),
           (rows: seq<string>, name: string) => Returned([]),
           (impact: Impact, inventory: string) => Raised(""),
           (plan: Plan, root: string) => Raised(""),
           (plan: Plan, patch: Option<Patch>, impact: Impact, root: string, sha: string, more: seq<string>) =>
             Raised(""),
           (plan: Plan, patch: Option<Patch>, bundle: Bundle, impact: Impact, name: string, sha: string) => Raised(""),
           (text: string) => text, "")
  }

  function Seen(uses: bool): Impact {
    Impact(if uses then ImpactStatus.Affected else ImpactStatus.Unaffected, "", 0, 0, 0, None, false)
  }

  function Reading(inventory: string): Entry {
    Entry("r", false, Some(0), None, None, Some(inventory), [], false, None, [], None, None)
  }

  function Twice(): RunInput {
    RunInput("w", Change("c", "", None, None, None, ""), [Reading("uses"), Reading("")], 0,
             Policy(DetectOnly, false, ManualApproval), 1, Reader(), None, None, {})
  }

  lemma ReadingIsAffected(inventory: string)
    ensures IsAffectedNow(Twice(), None, Reading(inventory)) <==> inventory == "uses"
  {
    hide BoundReasons, Text;
    var e, input := Reading(inventory), Twice();
    var impact := Seen(inventory == "uses");
    assert FindImpact(input.engine, e) == Returned((Some(impact), Some(inventory)));
    ClassifyMeans("r", Fresh, Some(impact));
  }

  /**
    * Listed twice, once affected and once not, a repository drifts: the second entry takes over the first one's
    * history.
    */
  lemma DuplicateNamesDrift()
    ensures Run(Twice(), Some(Run(Twice(), None).campaign)).changed
  {
    hide IsAffectedNow, Run, HadPast, Reader;
    var input, uses, plain := Twice(), Reading("uses"), Reading("");
    ReadingIsAffected("uses");
    ReadingIsAffected("");
    BaseOfTwice();
    assert plain in Base(input);
    assert Base(input)[FirstOf(Base(input), "r")] == uses;
    assert !HadPast(None, plain) by { NoPast(plain); }
    assert !AgreesWithFirst(input, None, plain);
    assert SameButLater(input, input);
    RerunIsFixedExactlyWhen(input, input, None);
  }

  lemma NoPast(e: Entry)
    requires e.previous.None?
    ensures !HadPast(None, e)
  {
  }

  lemma BaseOfTwice()
    ensures Base(Twice()) == [Reading("uses"), Reading("")]
  {
    hide Reader, StringLe;
    var input, a, b := Twice(), Reading("uses"), Reading("");
    StringLeTotal("r", "r");
    assert [a, b][..1] == [a] && [a][..0] == [];
    assert Kept(input, [a]) == [a];
    assert Kept(input, [a, b]) == [a, b];
    assert [a, b][1..] == [b] && [b][1..] == [];
    assert Sort([b], EntryLe) == [b];
    assert EntryLe(a, b);
    assert Sort([a, b], EntryLe) == Insert(a, [b], EntryLe);
  }
}
