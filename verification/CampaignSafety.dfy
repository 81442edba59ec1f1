/** What every single run guarantees: isolation, honesty of the aggregate, and only allowed publications. */
module CampaignSafety {
  import opened Wrappers
  import opened Ordering
  import opened CampaignDomain
  import opened CampaignStates
  import opened CampaignEvaluation
  import opened CampaignRun

  // ----- A run is one independent outcome for each entry in scope

  /** The entries in scope, by name. */
  function Base(input: RunInput): seq<Entry> { Sort(Kept(input, input.entries), EntryLe) }

  function EvaluationFor(input: RunInput, previous: Option<Campaign>, e: Entry): Evaluation {
    EvaluateEntry(input, WithPast(previous, e))
  }

  function OutcomeFor(input: RunInput, previous: Option<Campaign>, e: Entry): Outcome {
    PublishUnder(input, EvaluationFor(input, previous, e))
  }

  function FinalRecord(input: RunInput, previous: Option<Campaign>, e: Entry): Record {
    OutcomeFor(input, previous, e).evaluation.record
  }

  lemma PastKeepsName(previous: Option<Campaign>, e: Entry)
    ensures WithPast(previous, e).fullName == e.fullName
    ensures WithPast(previous, e) == e.(previous := WithPast(previous, e).previous)
  {
  }

  lemma OutcomesByEntry(input: RunInput, previous: Option<Campaign>)
    ensures |Outcomes(input, previous)| == |Base(input)|
    ensures forall k | 0 <= k < |Base(input)| ::
      Outcomes(input, previous)[k] == OutcomeFor(input, previous, Base(input)[k])
  {
    hide WithPast, EvaluateEntry, PublishUnder, StringLe, Kept;
    var kept := Kept(input, input.entries);
    forall a, b | a in kept && b in kept ensures EntryLe(Past(previous)(a), Past(previous)(b)) == EntryLe(a, b) {
      PastKeepsName(previous, a);
      PastKeepsName(previous, b);
    }
    SortOfMapped(Past(previous), kept, EntryLe, EntryLe);
  }

  lemma RecordsByEntry(input: RunInput, previous: Option<Campaign>)
    requires Analyzes(input.policy)
    ensures var records := Run(input, previous).campaign.records;
      && |records| == |Base(input)|
      && forall k | 0 <= k < |records| :: records[k] == FinalRecord(input, previous, Base(input)[k])
  {
    hide OutcomeFor, Outcomes, BuildBlastRadius, DeriveCampaignState, UnresolvedRisks, IsSame, DecisionsOf,
         PublicationsOf, CallsOf, Base;
    OutcomesByEntry(input, previous);
  }

  /**
    * A repository's record depends on its own entry, its own last record and the run's settings, and on no other
    * entry, whatever the others do or raise.
    */
  lemma RecordsAreIsolated(input: RunInput, others: seq<Entry>, previous: Option<Campaign>, past: Option<Campaign>,
                           k: nat, m: nat)
    requires Analyzes(input.policy)
    requires k < |Base(input)| && m < |Base(input.(entries := others))|
    requires Base(input)[k] == Base(input.(entries := others))[m]
    requires WithPast(previous, Base(input)[k]) == WithPast(past, Base(input)[k])
    ensures |Run(input, previous).campaign.records| == |Base(input)|
    ensures |Run(input.(entries := others), past).campaign.records| == |Base(input.(entries := others))|
    ensures Run(input, previous).campaign.records[k] == Run(input.(entries := others), past).campaign.records[m]
  {
    hide Run, Base, WithPast, Evaluate, PublishOne;
    RecordsByEntry(input, previous);
    RecordsByEntry(input.(entries := others), past);
  }

  // ----- Publishing cannot make a record look better than its evidence

  ghost predicate SameStanding(v: Evaluation, w: Evaluation) {
    var r, s := v.record, w.record;
    && v.classification == w.classification
    && r.repository == s.repository && r.orgClass == s.orgClass && r.freshness == s.freshness
    && r.everAffected == s.everAffected && r.evaluatedAt == s.evaluatedAt
    && (IsDone(r.state) <==> IsDone(s.state)) && (r.state == RepoState.Resolved <==> s.state == RepoState.Resolved)
  }

  lemma PublishingKeepsStanding(input: RunInput, e: Entry, v: Evaluation)
    requires IsHonest(input.policy, input.now, e, v)
    ensures SameStanding(v, PublishUnder(input, v).evaluation)
    ensures v.prPlan.None? ==> PublishUnder(input, v).evaluation == v
  {
    hide BoundReasons, DecisionText, DeriveRepoState, DecisionFor;
    if v.prPlan.Some? && WritesToGithub(DecisionFor(input.policy, input.approved, v)) && input.publish.Some? {
      var decision := DecisionFor(input.policy, input.approved, v);
      var answer := input.publish.value(v.prPlan.value, v.patch, IsDraft(decision));
      if answer.Returned? {
        var noted := Because(v.record, "publication policy: " + DecisionText(decision.notice));
        DoneOnlyByFreshEvidence(PublishedFacts(noted, answer.value));
      }
    }
  }

  lemma FinalIsHonest(input: RunInput, previous: Option<Campaign>, e: Entry)
    ensures var v := EvaluationFor(input, previous, e);
      && IsHonest(input.policy, input.now, WithPast(previous, e), v)
      && SameStanding(v, OutcomeFor(input, previous, e).evaluation)
      && FinalRecord(input, previous, e).repository == e.fullName
      && (v.prPlan.None? ==> OutcomeFor(input, previous, e).evaluation == v)
  {
    hide WithPast, Evaluate, PublishUnder;
    PastKeepsName(previous, e);
    EvaluationIsHonest(input.engine, input.policy, input.window, input.now, WithPast(previous, e));
    PublishingKeepsStanding(input, WithPast(previous, e), EvaluationFor(input, previous, e));
  }

  // ----- Resolved means safe

  /**
    * For every list of entries and every pattern of failures, a run ends resolved exactly when the organization's blast
    * radius is safe.
    */
  lemma ResolvedExactlyWhenSafe(input: RunInput, previous: Option<Campaign>)
    ensures var c := Run(input, previous).campaign; c.state == CampaignState.Resolved <==> IsSafe(c.blast)
  {
    hide OutcomeFor, Outcomes, BuildBlastRadius, DeriveCampaignState, UnresolvedRisks, IsSame, DecisionsOf,
         PublicationsOf, CallsOf, IsSafe, IsHonest, SameStanding, EvaluationFor, Base;
    if Analyzes(input.policy) {
      var outcomes := Outcomes(input, previous);
      var evaluations := EvaluationsOf(outcomes);
      var cs, records := ClassificationsOf(evaluations), RecordsOf(evaluations);
      OutcomesByEntry(input, previous);
      forall k | 0 <= k < |records|
        ensures IsDone(records[k].state) <==> cs[k].orgClass == OrgClass.NotAffected {
        StandingOfOutcome(input, previous, Base(input)[k]);
      }
      SafeExactlyWhenAllUnaffected(cs);
      ResolvedExactlyWhenAllDone(records);
      AllDoneIsAllUnaffected(records, cs);
    } else {
      SafeExactlyWhenAllUnaffected([]);
    }
  }

  lemma StandingOfOutcome(input: RunInput, previous: Option<Campaign>, e: Entry)
    ensures var v := OutcomeFor(input, previous, e).evaluation;
      IsDone(v.record.state) <==> v.classification.orgClass == OrgClass.NotAffected
  {
    hide EvaluationFor, PublishUnder, WithPast;
    FinalIsHonest(input, previous, e);
  }

  lemma ResolvedExactlyWhenAllDone(records: seq<Record>)
    ensures DeriveCampaignState(StatesOf(records)) == CampaignState.Resolved
      <==> records != [] && forall k | 0 <= k < |records| :: IsDone(records[k].state)
  {
    hide IsDone, IsBlocking, IsInFlight, IsSystemBlocked;
    var states := StatesOf(records);
    if records != [] {
      assert states[0] in states;
      assert forall k | 0 <= k < |records| :: states[k] in states;
    }
  }

  lemma AllDoneIsAllUnaffected(records: seq<Record>, cs: seq<Classification>)
    requires |records| == |cs|
    requires forall k | 0 <= k < |records| :: IsDone(records[k].state) <==> cs[k].orgClass == OrgClass.NotAffected
    ensures (forall k | 0 <= k < |records| :: IsDone(records[k].state))
      <==> forall c | c in cs :: c.orgClass == OrgClass.NotAffected
  {
    hide IsDone;
    forall k | 0 <= k < |cs| ensures cs[k] in cs {
    }
  }

  // ----- Every call to the publisher is allowed

  lemma {:induction false} CallsCameFrom(outcomes: seq<Outcome>, call: Call)
    requires call in CallsOf(outcomes)
    ensures exists k :: 0 <= k < |outcomes| && outcomes[k].call == Some(call)
    decreases |outcomes|
  {
    var n := |outcomes| - 1;
    if call in CallsOf(outcomes[..n]) {
      CallsCameFrom(outcomes[..n], call);
      var k :| 0 <= k < n && outcomes[..n][k].call == Some(call);
      assert outcomes[k].call == Some(call);
    }
  }

  /**
    * In every run, whatever the entries: a pull request is only ever asked for under the watch mode that opens them,
    * for an affected repository whose outcome is verified, or partly verified with the workspace's opt-in and then as a
    * draft; never without approval where approval is required, and not at all while watching is off.
    */
  lemma EveryCallIsAllowed(input: RunInput, previous: Option<Campaign>, call: Call)
    requires call in Run(input, previous).calls
    ensures input.policy.watchMode == MigrateAndOpenPr
    ensures exists e :: e in Base(input) && AllowedCall(input, previous, e, call)
  {
    hide OutcomeFor, Outcomes, BuildBlastRadius, DeriveCampaignState, UnresolvedRisks, IsSame, DecisionsOf,
         PublicationsOf, CallsOf, IsHonest, EvaluationFor, AllowedCall, Base;
    CallsCameFrom(Outcomes(input, previous), call);
    var k :| 0 <= k < |Outcomes(input, previous)| && Outcomes(input, previous)[k].call == Some(call);
    OutcomesByEntry(input, previous);
    var e := Base(input)[k];
    CallIsAllowed(input, previous, e, call);
    assert e in Base(input);
  }

  ghost predicate AllowedCall(input: RunInput, previous: Option<Campaign>, e: Entry, call: Call) {
    var v := EvaluationFor(input, previous, e);
    && v.classification.orgClass == OrgClass.Affected && v.prPlan == Some(call.plan) && v.patch == call.patch
    && (input.policy.publication == ManualApproval ==> e.fullName in input.approved)
    && v.bundle.Some?
    && match v.bundle.value.outcome {
         case Verified => call.draft <==> input.policy.publication == DraftOnly
         case PartiallyVerified => input.policy.allowPartiallyVerified && call.draft
         case _ => false
       }
  }

  lemma CallIsAllowed(input: RunInput, previous: Option<Campaign>, e: Entry, call: Call)
    requires OutcomeFor(input, previous, e).call == Some(call)
    ensures MayPublish(input.policy) && AllowedCall(input, previous, e, call)
  {
    hide PublishOne, EvaluationFor, WithPast;
    FinalIsHonest(input, previous, e);
    PastKeepsName(previous, e);
    PublishedExactlyWhen(input.policy, input.publish, input.approved, input.engine.scrub, input.now,
                         WithPast(previous, e), EvaluationFor(input, previous, e));
  }
}
