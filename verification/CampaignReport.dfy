/** What the result of a run says, in terms of the repositories evaluated: scope, blast radius, risks, publications. */
module CampaignReport {
  import opened Wrappers
  import opened Ordering
  import opened Conservation
  import opened Selection
  import opened CampaignDomain
  import opened CampaignStates
  import opened CampaignEvaluation
  import opened CampaignEvidence
  import opened CampaignRun
  import opened CampaignSafety

  // ----- The blast radius

  function HasClass(org: OrgClass): Classification -> bool { (c: Classification) => c.orgClass == org }

  function NameOf(): Classification -> string { (c: Classification) => c.repository }

  function ReasonOf(): Classification -> Option<UnknownReason> { (c: Classification) => c.unknownReason }

  ghost predicate ByName(cs: seq<Classification>) {
    forall i, j | 0 <= i < j < |cs| :: ComesFirst(cs[i].repository, cs[j].repository)
  }

  /**
    * For the classifications in order of names: each of the three lists names exactly those of its class, a reason is
    * kept under each name that has one, and a name is relevant unless it is known unaffected and matches nothing.
    */
  ghost predicate Reports(b: BlastRadius, ordered: seq<Classification>) {
    && b.totalEnrolled == |ordered| == |b.affected| + |b.notAffected| + |b.unknown|
    && Selected(ordered, HasClass(OrgClass.Affected), NameOf(), b.affected)
    && Selected(ordered, HasClass(OrgClass.NotAffected), NameOf(), b.notAffected)
    && Selected(ordered, HasClass(OrgClass.Unknown), NameOf(), b.unknown)
    && HoldsLast(ordered, NameOf(), ReasonOf(), b.unknownReasons)
    && exists names: set<string> :: |names| == b.potentiallyRelevant && AreRelevant(ordered, names)
  }

  ghost predicate AreRelevant(cs: seq<Classification>, names: set<string>) {
    forall n :: n in names <==> exists c | c in cs ::
      c.repository == n && (c.orgClass != OrgClass.NotAffected || c.hasMatch)
  }

  lemma {:induction false} NamesAreSelected(cs: seq<Classification>, org: OrgClass)
    ensures Selected(cs, HasClass(org), NameOf(), NamesOf(cs, org))
    decreases |cs|
  {
    hide Selected;
    if cs == [] {
      NoneSelected(HasClass(org), NameOf());
    } else {
      NamesAreSelected(cs[1..], org);
      SelectedWithFirst(cs[0], cs[1..], HasClass(org), NameOf(), NamesOf(cs[1..], org));
      assert cs == [cs[0]] + cs[1..];
    }
  }

  lemma {:induction false} ReasonsAreHeld(cs: seq<Classification>)
    ensures HoldsLast(cs, NameOf(), ReasonOf(), ReasonsOf(cs))
    decreases |cs|
  {
    hide HoldsLast;
    if cs == [] {
      NothingHeld(NameOf(), ReasonOf());
    } else {
      var front, last := cs[..|cs| - 1], cs[|cs| - 1];
      ReasonsAreHeld(front);
      OneMoreHeld(front, NameOf(), ReasonOf(), ReasonsOf(front), last);
      assert cs == front + [last];
    }
  }

  lemma {:induction false} ClassesCover(cs: seq<Classification>)
    ensures |NamesOf(cs, OrgClass.Affected)| + |NamesOf(cs, OrgClass.NotAffected)| + |NamesOf(cs, OrgClass.Unknown)|
         == |cs|
  {
    if cs != [] {
      ClassesCover(cs[1..]);
    }
  }

  lemma ClassificationLeIsTotalPreorder()
    ensures TotalPreorder(ClassificationLe)
  {
    hide StringLe;
    StringLeIsTotalPreorder();
  }

  /** For every list of classifications: the blast radius reports them, arranged by name. */
  lemma BlastRadiusReports(cs: seq<Classification>)
    ensures exists ordered ::
      multiset(ordered) == multiset(cs) && ByName(ordered) && Reports(BuildBlastRadius(cs), ordered)
  {
    hide Selected, HoldsLast, Sort, NamesOf, ReasonsOf, ComesFirst, StringLe;
    var ordered := Sort(cs, ClassificationLe);
    SortIsPermutation(cs, ClassificationLe);
    ClassificationLeIsTotalPreorder();
    SortIsAscending(cs, ClassificationLe);
    forall i, j | 0 <= i < j < |ordered| ensures ComesFirst(ordered[i].repository, ordered[j].repository) {
      assert ClassificationLe(ordered[i], ordered[j]);
      StringLeMeans(ordered[i].repository, ordered[j].repository);
    }
    OrderedReports(cs, ordered);
  }

  lemma OrderedReports(cs: seq<Classification>, ordered: seq<Classification>)
    requires ordered == Sort(cs, ClassificationLe)
    ensures Reports(BuildBlastRadius(cs), ordered)
  {
    hide Selected, HoldsLast, Sort, NamesOf, ReasonsOf;
    NamesAreSelected(ordered, OrgClass.Affected);
    NamesAreSelected(ordered, OrgClass.NotAffected);
    NamesAreSelected(ordered, OrgClass.Unknown);
    ReasonsAreHeld(ordered);
    ClassesCover(ordered);
    var names := set c | c in ordered && (c.orgClass != OrgClass.NotAffected || c.hasMatch) :: c.repository;
    assert AreRelevant(ordered, names);
  }

  // ----- Scope

  function NotProducedBy(producer: Option<string>): Entry -> bool { (e: Entry) => producer != Some(e.fullName) }

  function Itself(): Entry -> Entry { (e: Entry) => e }

  /** The entries of a run, arranged by name: all that are given but the producer's own. */
  ghost predicate IsScope(input: RunInput, base: seq<Entry>) {
    && (forall i, j | 0 <= i < j < |base| :: ComesFirst(base[i].fullName, base[j].fullName))
    && exists kept :: Selected(input.entries, NotProducedBy(input.producer), Itself(), kept)
                      && multiset(kept) == multiset(base)
  }

  lemma {:induction false} KeptAreSelected(input: RunInput, entries: seq<Entry>)
    ensures Selected(entries, NotProducedBy(input.producer), Itself(), Kept(input, entries))
    decreases |entries|
  {
    hide Selected;
    if entries == [] {
      NoneSelected(NotProducedBy(input.producer), Itself());
    } else {
      var front, last := entries[..|entries| - 1], entries[|entries| - 1];
      KeptAreSelected(input, front);
      SelectedWithLast(front, NotProducedBy(input.producer), Itself(), Kept(input, front), last);
      assert entries == front + [last];
    }
  }

  lemma EntryLeIsTotalPreorder()
    ensures TotalPreorder(EntryLe)
  {
    hide StringLe;
    StringLeIsTotalPreorder();
  }

  lemma BaseIsScope(input: RunInput)
    ensures IsScope(input, Base(input))
  {
    hide Selected, Sort, Kept, ComesFirst, StringLe;
    var kept, base := Kept(input, input.entries), Base(input);
    KeptAreSelected(input, input.entries);
    SortIsPermutation(kept, EntryLe);
    EntryLeIsTotalPreorder();
    SortIsAscending(kept, EntryLe);
    forall i, j | 0 <= i < j < |base| ensures ComesFirst(base[i].fullName, base[j].fullName) {
      assert EntryLe(base[i], base[j]);
      StringLeMeans(base[i].fullName, base[j].fullName);
    }
  }

  // ----- Risks

  function IsOpenIssue(): Record -> bool {
    (r: Record) =>
      r.state !in {RepoState.NotAffected, RepoState.Resolved, RepoState.MigrationPlanned, RepoState.PatchGenerated,
                   RepoState.Verifying, RepoState.Verified, RepoState.PrOpened}
  }

  /** The first of everything a record says for itself, what a human should do before its error before its reasons. */
  function AsRisk(): Record -> Risk {
    (r: Record) =>
      var error := if r.error.Some? && r.error.value != "" then [r.error.value] else [];
      var said := r.humanActions + error + r.reasons;
      Open(r.repository, r.state, if said == [] then None else Some(said[0]))
  }

  lemma RiskMeans(r: Record)
    ensures RiskOf(r) == AsRisk()(r)
  {
  }

  /** One risk for each record that is neither done nor on its way, by name; then how many could not be classified. */
  ghost predicate ReportsRisks(records: seq<Record>, risks: seq<Risk>) {
    exists open: seq<Risk>, rest: seq<Risk> ::
      && risks == open + rest && Selected(records, IsOpenIssue(), AsRisk(), open)
      && |rest| <= 1 && (rest == [] <==> forall r | r in records :: r.orgClass != OrgClass.Unknown)
      && (rest != [] ==>
            rest[0].Unclassified? && rest[0].count == |set k | 0 <= k < |records|
              && records[k].orgClass == OrgClass.Unknown|)
  }

  lemma OpenIssuesBlock(r: Record)
    ensures IsOpenIssue()(r) <==> IsBlocking(r.state)
  {
    match r.state
    case NotAffected => case Impacted => case MigrationPlanned => case PatchGenerated => case Verifying =>
    case Verified => case PartiallyVerified => case HumanRequired => case Failed => case PrOpened => case Resolved =>
    case Stale => case Unknown => case AccessLost => case Unverified =>
  }

  lemma {:induction false} RisksAreSelected(records: seq<Record>)
    ensures Selected(records, IsOpenIssue(), AsRisk(), OpenRisks(records))
    decreases |records|
  {
    hide Selected;
    if records == [] {
      NoneSelected(IsOpenIssue(), AsRisk());
    } else {
      RisksAreSelected(records[1..]);
      OpenIssuesBlock(records[0]);
      RiskMeans(records[0]);
      SelectedWithFirst(records[0], records[1..], IsOpenIssue(), AsRisk(), OpenRisks(records[1..]));
      assert records == [records[0]] + records[1..];
    }
  }

  lemma {:induction false} CountOfRearranged(xs: seq<Record>, ys: seq<Record>)
    requires multiset(xs) == multiset(ys)
    ensures CountUnknown(xs) == CountUnknown(ys)
    decreases |xs|
  {
    assert |multiset(xs)| == |xs| && |multiset(ys)| == |ys|;
    if xs != [] {
      var k := PlaceOf(ys, xs, 0);
      Removed(ys, k);
      MultisetOfTail(xs);
      CountOfRearranged(xs[1..], ys[..k] + ys[k + 1..]);
      CountWithout(ys, k);
    }
  }

  lemma {:induction false} CountWithout(ys: seq<Record>, k: nat)
    requires k < |ys|
    ensures CountUnknown(ys)
         == CountUnknown(ys[..k] + ys[k + 1..]) + if ys[k].orgClass == OrgClass.Unknown then 1 else 0
    decreases k
  {
    if k == 0 {
      assert ys[..0] + ys[1..] == ys[1..];
    } else {
      CountWithout(ys[1..], k - 1);
      assert (ys[..k] + ys[k + 1..])[1..] == ys[1..][..k - 1] + ys[1..][k..];
    }
  }

  ghost function UnknownPlaces(records: seq<Record>): set<int> {
    set k | 0 <= k < |records| && records[k].orgClass == OrgClass.Unknown
  }

  lemma {:induction false} CountIsPlaces(records: seq<Record>)
    ensures CountUnknown(records) == |UnknownPlaces(records)|
    decreases |records|
  {
    if records == [] {
      assert UnknownPlaces(records) == {};
    } else {
      var front, n := records[..|records| - 1], |records| - 1;
      hide UnknownPlaces;
      CountIsPlaces(front);
      CountWithout(records, n);
      assert records[..n] + records[n + 1..] == front;
      assert records == front + [records[n]];
      OneMorePlace(front, records[n]);
    }
  }

  lemma OneMorePlace(front: seq<Record>, r: Record)
    ensures |UnknownPlaces(front + [r])| == |UnknownPlaces(front)| + if r.orgClass == OrgClass.Unknown then 1 else 0
  {
    var all, n := front + [r], |front|;
    assert all[n] == r && n !in UnknownPlaces(front);
    forall k ensures k in UnknownPlaces(all) <==> k in UnknownPlaces(front) || (k == n && n in UnknownPlaces(all)) {
      if 0 <= k < n {
        assert all[k] == front[k];
      }
    }
    if n in UnknownPlaces(all) {
      assert UnknownPlaces(all) == UnknownPlaces(front) + {n};
    } else {
      assert UnknownPlaces(all) == UnknownPlaces(front);
    }
  }

  lemma RisksReported(records: seq<Record>)
    requires Ascending(records, RecordLe)
    ensures ReportsRisks(records, UnresolvedRisks(records))
  {
    hide Selected, OpenRisks, CountUnknown;
    SortFixesAscending(records, RecordLe);
    RisksAreSelected(records);
    CountIsPlaces(records);
    var count := CountUnknown(records);
    var rest := if count > 0 then [Unclassified(count)] else [];
    assert count == 0 <==> forall r | r in records :: r.orgClass != OrgClass.Unknown by { NoPlaces(records); }
    assert UnresolvedRisks(records) == OpenRisks(records) + rest;
  }

  lemma NoPlaces(records: seq<Record>)
    ensures |UnknownPlaces(records)| == 0 <==> forall r | r in records :: r.orgClass != OrgClass.Unknown
  {
    if r :| r in records && r.orgClass == OrgClass.Unknown {
      var k :| 0 <= k < |records| && records[k] == r;
      assert k in UnknownPlaces(records);
    }
    if k :| k in UnknownPlaces(records) {
      assert records[k] in records;
    }
  }

  // ----- Publication

  /** What the workspace's policy makes of a plan: nothing, waiting for approval, a draft, or a full pull request. */
  ghost predicate Decides(policy: Policy, approved: bool, eligibility: Eligibility, d: Decision) {
    var watched := policy.watchMode == MigrateAndOpenPr;
    var open := watched && eligibility in {AutoOpen, OpenWithOperatorApproval};
    var waits := policy.publication == ManualApproval && !approved;
    var partial := eligibility == OpenWithOperatorApproval;
    && (d.action == NoAction <==> !open)
    && (d.action == AwaitApproval <==> open && waits)
    && (d.action == PublishDraft <==> open && !waits && (policy.publication == DraftOnly || partial))
    && (d.action == Publish <==> open && !waits && policy.publication != DraftOnly && !partial)
    && (!watched ==> d.notice == WatchModeIs(policy.watchMode))
    && (watched && eligibility == PlanOnly ==> d.notice == ReportOnly)
    && (watched && eligibility == NotEligible ==> d.notice == RequirementNotMet)
    && (open && waits ==> d.notice == NeedsApproval)
    && (open && policy.publication == DraftOnly ==> d.notice == DraftsOnly)
    && (open && policy.publication == Automatic ==> d.notice == if partial then PartialDraft else FullyAutomatic)
    && (open && policy.publication == ManualApproval && approved ==>
          d.notice == if partial then ApprovedPartial else ApprovedFull)
  }

  lemma DecisionMeans(policy: Policy, approved: set<string>, v: Evaluation)
    requires v.prPlan.Some?
    ensures Decides(policy, v.record.repository in approved, v.prPlan.value.eligibility,
                    DecisionFor(policy, approved, v))
  {
    match v.prPlan.value.eligibility
    case AutoOpen => case OpenWithOperatorApproval => case PlanOnly => case NotEligible =>
  }

  /** A pull request that is open counts for a verified change; one that could not be changed needs a human. */
  ghost predicate StateAfter(outcome: VerificationOutcome, pr: PullRequest, s: RepoState) {
    var open := pr.status in {Opened, Updated} && pr.number.Some? && outcome in {
      VerificationOutcome.Verified, VerificationOutcome.PartiallyVerified};
    var stuck := pr.status == NoOpUnchanged && pr.number.Some? && outcome !in {
      VerificationOutcome.Failed, RegressionDetected};
    && (open ==> s == RepoState.PrOpened)
    && (stuck ==> s == RepoState.HumanRequired)
    && (!open && !stuck ==> s == StateByOutcome(outcome))
  }

  ghost predicate HasPlannedState(v: Evaluation) {
    v.prPlan.Some? ==>
      && v.bundle.Some? && v.record.verificationOutcome == Some(v.bundle.value.outcome)
      && v.record.freshness == Fresh && v.record.orgClass == OrgClass.Affected
      && v.record.state == StateByOutcome(v.bundle.value.outcome)
  }

  lemma StateAfterPublishing(r: Record, outcome: VerificationOutcome, pr: PullRequest)
    requires r.freshness == Fresh && r.orgClass == OrgClass.Affected && r.verificationOutcome == Some(outcome)
    ensures StateAfter(outcome, pr, DeriveRepoState(PublishedFacts(r, pr)))
  {
    match outcome
    case Verified => case PartiallyVerified => case Unverified => case Failed => case RegressionDetected =>
    case HumanRequired =>
  }

  /** What the publisher's answer, if it was asked, leaves in the record; only reasons are added otherwise. */
  ghost predicate Leaves(before: Record, after: Record, outcome: VerificationOutcome, scrub: string -> string,
                         answer: Option<Attempt<PullRequest>>) {
    match answer
    case None => after == before.(reasons := after.reasons)
    case Some(Raised(error)) =>
      after == before.(state := RepoState.Failed, error := Some(scrub(error)), reasons := after.reasons)
    case Some(Returned(pr)) =>
      && after == before.(state := after.state, prStatus := Some(pr.status), prNumber := pr.number, prUrl := pr.url,
                          reasons := after.reasons)
      && StateAfter(outcome, pr, after.state)
  }

  /** The reasons after publishing: those before, the policy's, and what the publisher said, within the bounds. */
  ghost predicate Tells(before: Record, after: Record, notice: DecisionNotice, answer: Option<Attempt<PullRequest>>) {
    var noted := BoundReasons(before.reasons + ["publication policy: " + DecisionText(notice)]);
    match answer
    case None => after.reasons == noted
    case Some(Raised(_)) => after.reasons == BoundReasons(noted + ["publication raised an error"])
    case Some(Returned(pr)) =>
      after.reasons == BoundReasons(if pr.reason.Some?
                                    && pr.reason.value != "" then noted + ["publication: " + pr.reason.value]
                                    else noted)
  }

  /** The publisher's answer to the call of an outcome. */
  ghost function AnswerTo(input: RunInput, o: Outcome): Option<Attempt<PullRequest>> {
    if o.call.Some? && input.publish.Some? then
      Some(input.publish.value(o.call.value.plan, o.call.value.patch, o.call.value.draft))
    else None
  }

  ghost predicate PublishedAs(input: RunInput, v: Evaluation, o: Outcome) {
    if v.prPlan.None? then o == Outcome(v, None, None, None)
    else
      && o.decision.Some? && v.bundle.Some?
      && Decides(input.policy, v.record.repository in input.approved, v.prPlan.value.eligibility, o.decision.value)
      && (o.call.Some? <==> input.publish.Some? && o.decision.value.action in {Publish, PublishDraft})
      && (o.call.Some? ==> o.call.value == Call(v.prPlan.value, v.patch, o.decision.value.action == PublishDraft))
      && o.pr == (if AnswerTo(input, o).Some?
                  && AnswerTo(input, o).value.Returned? then Some(AnswerTo(input, o).value.value)
                  else None)
      && o.evaluation == v.(record := o.evaluation.record)
      && Leaves(v.record, o.evaluation.record, v.bundle.value.outcome, input.engine.scrub, AnswerTo(input, o))
      && Tells(v.record, o.evaluation.record, o.decision.value.notice, AnswerTo(input, o))
  }

  lemma OutcomeIsPublished(input: RunInput, v: Evaluation)
    requires HasPlannedState(v)
    ensures PublishedAs(input, v, PublishUnder(input, v))
  {
    hide DecisionText, BoundReasons, DeriveRepoState, DecisionFor, Decides, StateAfter;
    if v.prPlan.Some? {
      DecisionMeans(input.policy, input.approved, v);
      var o, decision := PublishUnder(input, v), DecisionFor(input.policy, input.approved, v);
      var answer := AnswerTo(input, o);
      if answer.Some? && answer.value.Returned? {
        var noted := Because(v.record, "publication policy: " + DecisionText(decision.notice));
        StateAfterPublishing(noted, v.bundle.value.outcome, answer.value.value);
      }
    }
  }

  // ----- The whole run

  function OutcomeName(): Outcome -> string { (o: Outcome) => o.evaluation.record.repository }

  function OutcomeDecision(): Outcome -> Option<Decision> { (o: Outcome) => o.decision }

  function OutcomePr(): Outcome -> Option<PullRequest> { (o: Outcome) => o.pr }

  function HasCall(): Outcome -> bool { (o: Outcome) => o.call.Some? }

  function CallOf(): Outcome -> Call { (o: Outcome) => if o.call.Some? then o.call.value
                                      else Call(NoPlan(), None, false) }

  function NoPlan(): PrPlan { PrPlan(NotEligible, "", "") }

  /** Decisions and pull requests are kept by name, and the calls in the order they were made. */
  ghost predicate ReportsOutcomes(outcomes: seq<Outcome>, result: RunResult) {
    && result.evaluations == EvaluationsOf(outcomes)
    && HoldsLast(outcomes, OutcomeName(), OutcomeDecision(), result.decisions)
    && HoldsLast(outcomes, OutcomeName(), OutcomePr(), result.publications)
    && Selected(outcomes, HasCall(), CallOf(), result.calls)
  }

  lemma {:induction false} OutcomesAreReported(outcomes: seq<Outcome>)
    ensures HoldsLast(outcomes, OutcomeName(), OutcomeDecision(), DecisionsOf(outcomes))
    ensures HoldsLast(outcomes, OutcomeName(), OutcomePr(), PublicationsOf(outcomes))
    ensures Selected(outcomes, HasCall(), CallOf(), CallsOf(outcomes))
    decreases |outcomes|
  {
    hide HoldsLast, Selected;
    if outcomes == [] {
      NothingHeld(OutcomeName(), OutcomeDecision());
      NothingHeld(OutcomeName(), OutcomePr());
      NoneSelected(HasCall(), CallOf());
    } else {
      var front, last := outcomes[..|outcomes| - 1], outcomes[|outcomes| - 1];
      OutcomesAreReported(front);
      OneMoreHeld(front, OutcomeName(), OutcomeDecision(), DecisionsOf(front), last);
      OneMoreHeld(front, OutcomeName(), OutcomePr(), PublicationsOf(front), last);
      SelectedWithLast(front, HasCall(), CallOf(), CallsOf(front), last);
      assert outcomes == front + [last];
    }
  }

  ghost predicate IsSettled(s: RepoState) { s in {RepoState.NotAffected, RepoState.Resolved} }

  ghost predicate IsUnderWay(s: RepoState) {
    s in {RepoState.MigrationPlanned, RepoState.PatchGenerated, RepoState.Verifying, RepoState.Verified,
          RepoState.PrOpened}
  }

  ghost predicate IsHalted(s: RepoState) { s in {RepoState.Failed, RepoState.AccessLost} }

  /** What the campaign's state says about the states of its repositories. */
  ghost predicate SumsUp(states: seq<RepoState>, c: CampaignState) {
    && c != Analyzing && (c == CampaignState.Detected <==> states == [])
    && (c == CampaignState.Resolved <==> states != [] && forall s | s in states :: IsSettled(s))
    && (c == PartiallyResolved <==> RepoState.Resolved in states && exists s | s in states :: !IsSettled(s))
    && (c == Migrating <==>
          && RepoState.Resolved !in states && (exists s | s in states :: IsUnderWay(s))
          && forall s | s in states :: IsSettled(s) || IsUnderWay(s))
    && (c == Blocked <==>
          && RepoState.Resolved !in states && (exists s | s in states :: IsHalted(s))
          && forall s | s in states :: IsHalted(s) || s == RepoState.NotAffected)
  }

  function RepoStates(records: seq<Record>): (r: seq<RepoState>)
    ensures |r| == |records| && forall k | 0 <= k < |r| :: r[k] == records[k].state
  {
    seq(|records|, k requires 0 <= k < |records| => records[k].state)
  }

  lemma FamiliesAre(s: RepoState)
    ensures IsDone(s) <==> IsSettled(s)
    ensures IsInFlight(s) <==> IsUnderWay(s)
    ensures IsBlocking(s) <==> !IsSettled(s) && !IsUnderWay(s)
    ensures IsSystemBlocked(s) <==> IsHalted(s)
    ensures IsHalted(s) ==> IsBlocking(s)
    ensures IsSettled(s) <==> s == RepoState.NotAffected || s == RepoState.Resolved
  {
    match s
    case NotAffected => case Impacted => case MigrationPlanned => case PatchGenerated => case Verifying =>
    case Verified => case PartiallyVerified => case HumanRequired => case Failed => case PrOpened => case Resolved =>
    case Stale => case Unknown => case AccessLost => case Unverified =>
  }

  lemma StateSumsUp(records: seq<Record>)
    ensures SumsUp(RepoStates(records), DeriveCampaignState(StatesOf(records)))
  {
    hide IsDone, IsInFlight, IsBlocking, IsSystemBlocked, IsSettled, IsUnderWay, IsHalted, DeriveCampaignState;
    var states, plain := StatesOf(records), RepoStates(records);
    if records == [] {
      assert DeriveCampaignState(states) == CampaignState.Detected by { NoStates(); }
    } else {
      assert states[0] in states;
      CampaignStateMeans(states);
      SameStates(states, plain);
      forall s ensures IsDone(s) == IsSettled(s) && IsInFlight(s) == IsUnderWay(s) && IsSystemBlocked(s) == IsHalted(s)
               ensures IsBlocking(s) == (!IsSettled(s) && !IsUnderWay(s)) && (IsHalted(s) ==> IsBlocking(s))
               ensures IsSettled(s) <==> s == RepoState.NotAffected || s == RepoState.Resolved
      {
        FamiliesAre(s);
      }
    }
  }

  lemma SameStates(states: seq<Option<RepoState>>, plain: seq<RepoState>)
    requires |states| == |plain| && forall k | 0 <= k < |plain| :: states[k] == Some(plain[k])
    ensures forall s :: s in plain <==> Some(s) in states
    ensures forall o | o in states :: o.Some? && o.value in plain
  {
    forall o | o in states ensures o.Some? && o.value in plain {
      var k :| 0 <= k < |states| && states[k] == o;
    }
    forall s | s in plain ensures Some(s) in states {
      var k :| 0 <= k < |plain| && plain[k] == s;
    }
  }

  lemma NoStates()
    ensures DeriveCampaignState([]) == CampaignState.Detected
  {
  }

  /** Who and what the campaign is about; it keeps the time at which it was first discovered. */
  ghost predicate Identifies(input: RunInput, previous: Option<Campaign>, c: Campaign) {
    && c.id == CampaignId(input.workspaceKey, input.change.fingerprint, 1) && c.engineVersion == 1
    && c.workspaceKey == input.workspaceKey && c.changeFingerprint == input.change.fingerprint
    && c.dependencyLabel == input.change.dependencyLabel && c.providerKey == input.change.providerKey
    && c.oldVersion == input.change.oldVersion && c.newVersion == input.change.newVersion
    && c.compatibility == Some(input.change.compatibility) && c.producerRepository == input.producer
    && (c.origin == Internal <==> input.producer.Some?)
    && (previous.Some? ==> c.discoveredAt == previous.value.discoveredAt)
    && (previous.None? ==> c.discoveredAt == input.now)
  }

  /** The records tell the same, but for the time of evaluation and whether a pull request was opened or updated. */
  ghost predicate TellsTheSame(r: Record, s: Record) {
    && s == r.(evaluatedAt := s.evaluatedAt, prStatus := s.prStatus)
    && (r.prStatus == s.prStatus
        || (r.prStatus in {Some(Opened), Some(Updated)} && s.prStatus in {Some(Opened), Some(Updated)}))
  }

  ghost predicate TellTheSame(rs: seq<Record>, ss: seq<Record>) {
    |rs| == |ss| && forall k | 0 <= k < |rs| :: TellsTheSame(rs[k], ss[k])
  }

  lemma SameSignature(rs: seq<Record>, ss: seq<Record>)
    ensures NormalAll(rs) == NormalAll(ss) <==> TellTheSame(rs, ss)
  {
    forall r: Record, s: Record ensures Normal(r) == Normal(s) <==> TellsTheSame(r, s) {
      NormalIsTheSame(r, s);
    }
    if NormalAll(rs) == NormalAll(ss) {
      assert forall k | 0 <= k < |rs| :: NormalAll(rs)[k] == NormalAll(ss)[k];
    }
  }

  lemma NormalIsTheSame(r: Record, s: Record)
    ensures Normal(r) == Normal(s) <==> TellsTheSame(r, s)
  {
  }

  /** A first run is a change; later, a different state is, or records that do not tell the same. */
  ghost predicate CountsChange(previous: Option<Campaign>, result: RunResult) {
    && (result.changed <==>
          || previous.None? || previous.value.state != result.campaign.state
          || !TellTheSame(Sort(previous.value.records, RecordLe), result.campaign.records))
    && result.campaign.version
       == if previous.None? then 1 else previous.value.version + if result.changed then 1 else 0
  }

  ghost predicate ReportsExcluded(input: RunInput, result: RunResult) {
    forall n :: n in result.excluded <==> Some(n) == input.producer && exists e :: e in input.entries && e.fullName == n
  }

  /** The evaluation of each repository, with its last record, and what publishing made of it. */
  ghost predicate EvaluatesEach(input: RunInput, previous: Option<Campaign>, base: seq<Entry>, outcomes: seq<Outcome>) {
    && |outcomes| == |base|
    && forall k | 0 <= k < |base| :: EvaluatesOne(input, previous, base[k], outcomes[k])
  }

  ghost predicate EvaluatesOne(input: RunInput, previous: Option<Campaign>, e: Entry, o: Outcome) {
    exists v: Evaluation, past: Option<Record> ::
      && IsLastRecord(previous, e, past)
      && Shows(input.engine, input.policy, e.(previous := past), v)
      && (v.record.everAffected <==> (past.Some? && past.value.everAffected) || v.record.orgClass == OrgClass.Affected)
      && v.record.repository == v.classification.repository == e.fullName && v.record.evaluatedAt == Some(input.now)
      && v.record.orgClass == v.classification.orgClass
      && PublishedAs(input, v, o)
  }

  /** The record an earlier run left for the repository, or else the one the entry brings. */
  ghost predicate IsLastRecord(previous: Option<Campaign>, e: Entry, past: Option<Record>) {
    if previous.Some? && exists r :: r in previous.value.records && r.repository == e.fullName then
      past.Some? && past.value in previous.value.records && past.value.repository == e.fullName
    else past == e.previous
  }

  lemma PastIsLastRecord(previous: Option<Campaign>, e: Entry)
    ensures IsLastRecord(previous, e, WithPast(previous, e).previous)
  {
  }

  lemma OneIsEvaluated(input: RunInput, previous: Option<Campaign>, e: Entry)
    ensures EvaluatesOne(input, previous, e, OutcomeFor(input, previous, e))
  {
    hide WithPast, Evaluate, PublishOne, PublishedAs, IsLastRecord, Shows;
    PastKeepsName(previous, e);
    PastIsLastRecord(previous, e);
    var x := WithPast(previous, e);
    var v := EvaluationFor(input, previous, e);
    EvaluationShows(input.engine, input.policy, input.window, input.now, x);
    EvaluationIsHonest(input.engine, input.policy, input.window, input.now, x);
    ShownHasPlannedState(input.engine, input.policy, x, v);
    OutcomeIsPublished(input, v);
  }

  lemma ShownHasPlannedState(engine: Engine, policy: Policy, e: Entry, v: Evaluation)
    requires Shows(engine, policy, e, v)
    ensures HasPlannedState(v)
  {
    hide IsWork, WorkRaises, Supplies, RaisesOnEvidence, ShowsImpact, IsWorkCommit;
  }

  /**
    * Everything a run that looks at anything reports: which repositories it covers, what each evaluation and
    * publication leaves, and that blast radius, state, risks, version and identity of the campaign are those of these
    * records.
    */
  lemma RunMeans(input: RunInput, previous: Option<Campaign>)
    requires Analyzes(input.policy)
    ensures var result := Run(input, previous);
      && IsScope(input, Base(input)) && ReportsExcluded(input, result)
      && EvaluatesEach(input, previous, Base(input), Outcomes(input, previous))
      && ReportsOutcomes(Outcomes(input, previous), result)
      && result.campaign.records == RecordsOf(result.evaluations)
      && ByName(ClassificationsOf(result.evaluations))
      && Reports(result.campaign.blast, ClassificationsOf(result.evaluations))
      && SumsUp(RepoStates(result.campaign.records), result.campaign.state)
      && ReportsRisks(result.campaign.records, result.campaign.unresolvedRisks)
      && Identifies(input, previous, result.campaign) && CountsChange(previous, result)
  {
    hide Outcomes, IsScope, EvaluatesOne, HoldsLast, Selected, ByName, Reports, SumsUp, ReportsRisks, Base, OutcomeFor,
         BuildBlastRadius, DeriveCampaignState, UnresolvedRisks, DecisionsOf, PublicationsOf, CallsOf, Sort,
           TellTheSame;
    var outcomes, base := Outcomes(input, previous), Base(input);
    BaseIsScope(input);
    OutcomesByEntry(input, previous);
    forall k | 0 <= k < |base| ensures EvaluatesOne(input, previous, base[k], outcomes[k]) {
      OneIsEvaluated(input, previous, base[k]);
    }
    OutcomesAreReported(outcomes);
    var evaluations := EvaluationsOf(outcomes);
    var records := RecordsOf(evaluations);
    NamesAscend(input, previous);
    SortFixesAscending(ClassificationsOf(evaluations), ClassificationLe);
    OrderedReports(ClassificationsOf(evaluations), ClassificationsOf(evaluations));
    StateSumsUp(records);
    RisksReported(records);
    SortFixesAscending(records, RecordLe);
    if previous.Some? {
      SameSignature(Sort(previous.value.records, RecordLe), records);
    }
  }

  lemma NamesAscend(input: RunInput, previous: Option<Campaign>)
    ensures var evaluations := EvaluationsOf(Outcomes(input, previous));
      && Ascending(RecordsOf(evaluations), RecordLe)
      && Ascending(ClassificationsOf(evaluations), ClassificationLe)
      && ByName(ClassificationsOf(evaluations))
  {
    hide Outcomes, Base, StringLe, ComesFirst, OutcomeFor, IsHonest;
    var outcomes, base := Outcomes(input, previous), Base(input);
    var evaluations := EvaluationsOf(outcomes);
    OutcomesByEntry(input, previous);
    BaseAscends(input);
    forall k | 0 <= k < |base|
      ensures evaluations[k].record.repository == base[k].fullName == evaluations[k].classification.repository {
      NamedAlike(input, previous, base[k]);
    }
    forall i, j | 0 <= i < j < |base| ensures ComesFirst(base[i].fullName, base[j].fullName) {
      assert EntryLe(base[i], base[j]);
      StringLeMeans(base[i].fullName, base[j].fullName);
    }
    forall i, j | 0 <= i < j < |base|
      ensures RecordLe(RecordsOf(evaluations)[i], RecordsOf(evaluations)[j])
      ensures ClassificationLe(ClassificationsOf(evaluations)[i], ClassificationsOf(evaluations)[j]) {
      assert EntryLe(base[i], base[j]);
    }
  }

  lemma BaseAscends(input: RunInput)
    ensures Ascending(Base(input), EntryLe)
  {
    hide Sort;
    EntryLeIsTotalPreorder();
    SortIsAscending(Kept(input, input.entries), EntryLe);
  }

  lemma NamedAlike(input: RunInput, previous: Option<Campaign>, e: Entry)
    ensures var v := OutcomeFor(input, previous, e).evaluation;
      v.record.repository == e.fullName == v.classification.repository
  {
    hide EvaluationFor, PublishUnder, WithPast;
    FinalIsHonest(input, previous, e);
    PastKeepsName(previous, e);
  }

  /** A run with watching off looks at nothing and says so; a campaign that exists keeps its version. */
  lemma OffRunMeans(input: RunInput, previous: Option<Campaign>)
    requires input.policy.watchMode == Off
    ensures var result := Run(input, previous);
      && ReportsExcluded(input, result) && Identifies(input, previous, result.campaign)
      && result.evaluations == [] && result.campaign.records == [] && result.calls == []
      && result.decisions == map[] && result.publications == map[]
      && result.campaign.blast == BlastRadius(0, 0, [], [], [], map[])
      && result.campaign.state == CampaignState.Detected && result.campaign.unresolvedRisks == [WatchOff]
      && (result.changed <==> previous.None?)
      && (previous.Some? ==> result.campaign.version == previous.value.version)
      && (previous.None? ==> result.campaign.version == 1)
  {
  }
}
