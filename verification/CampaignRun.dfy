/** One campaign run: scope, evaluate each repository, publish each under the policy, aggregate. */
module CampaignRun {
  import opened Wrappers
  import opened Ordering
  import opened CampaignDomain
  import opened CampaignStates
  import opened CampaignEvaluation

  // ----- Blast radius

  predicate ClassificationLe(a: Classification, b: Classification) { StringLe(a.repository, b.repository) }

  function NamesOf(cs: seq<Classification>, org: OrgClass): seq<string> {
    if cs == [] then [] else (if cs[0].orgClass == org then [cs[0].repository] else []) + NamesOf(cs[1..], org)
  }

  function ReasonsOf(cs: seq<Classification>): map<string, UnknownReason> {
    if cs == [] then map[]
    else
      var front, last := ReasonsOf(cs[..|cs| - 1]), cs[|cs| - 1];
      if last.unknownReason.Some? then front[last.repository := last.unknownReason.value] else front
  }

  function BuildBlastRadius(classifications: seq<Classification>): BlastRadius {
    var ordered := Sort(classifications, ClassificationLe);
    var relevant := set c | c in ordered && (c.orgClass != OrgClass.NotAffected || c.hasMatch) :: c.repository;
    BlastRadius(|ordered|, |relevant|, NamesOf(ordered, OrgClass.Affected), NamesOf(ordered, OrgClass.NotAffected),
                NamesOf(ordered, OrgClass.Unknown), ReasonsOf(ordered))
  }

  lemma {:induction false} NoNamesMeansNone(cs: seq<Classification>, org: OrgClass)
    ensures NamesOf(cs, org) == [] <==> forall c | c in cs :: c.orgClass != org
  {
    if cs != [] {
      NoNamesMeansNone(cs[1..], org);
      assert cs == [cs[0]] + cs[1..];
    }
  }

  /** Safe means: some repository is enrolled, and every one is positively known to be unaffected. */
  lemma SafeExactlyWhenAllUnaffected(cs: seq<Classification>)
    ensures IsSafe(BuildBlastRadius(cs)) <==> cs != [] && forall c | c in cs :: c.orgClass == OrgClass.NotAffected
  {
    hide Sort, ClassificationLe, ReasonsOf, NamesOf;
    var ordered := Sort(cs, ClassificationLe);
    SortIsPermutation(cs, ClassificationLe);
    NoNamesMeansNone(ordered, OrgClass.Affected);
    NoNamesMeansNone(ordered, OrgClass.Unknown);
    forall c ensures c in cs <==> c in ordered {
      assert c in multiset(cs) <==> c in multiset(ordered);
    }
  }

  // ----- Publication policy

  datatype Action = NoAction | Publish | PublishDraft | AwaitApproval

  datatype DecisionNotice =
    | WatchModeIs(mode: WatchMode) | ReportOnly | RequirementNotMet | NeedsApproval | DraftsOnly | PartialDraft
    | FullyAutomatic | ApprovedPartial | ApprovedFull

  datatype Decision = Decision(action: Action, notice: DecisionNotice)

  predicate WritesToGithub(d: Decision) { d.action == Publish || d.action == PublishDraft }

  predicate IsDraft(d: Decision) { d.action == PublishDraft }

  function WatchModeText(m: WatchMode): string {
    match m
    case Off => "off"
    case DetectOnly => "detect_only"
    case Migrate => "migrate"
    case MigrateAndOpenPr => "migrate_and_open_pr"
  }

  function DecisionText(n: DecisionNotice): string {
    match n
    case WatchModeIs(mode) => "watch mode is " + WatchModeText(mode) + ": no PR is opened"
    case ReportOnly => "human-required migration: report only, never an automatic PR"
    case RequirementNotMet => "verification did not meet the workspace requirement"
    case NeedsApproval => "workspace requires manual approval before a PR is opened"
    case DraftsOnly => "workspace publishes draft PRs only"
    case PartialDraft => "partially verified: opened as a draft even under automatic publication"
    case FullyAutomatic => "verified migration; workspace allows automatic publication"
    case ApprovedPartial => "approved by a human; partially verified, so a draft"
    case ApprovedFull => "approved by a human"
  }

  function DecidePublication(policy: Policy, eligibility: Eligibility): Decision {
    if !MayPublish(policy) then Decision(NoAction, WatchModeIs(policy.watchMode))
    else if eligibility == PlanOnly then Decision(NoAction, ReportOnly)
    else if eligibility == NotEligible then Decision(NoAction, RequirementNotMet)
    else if policy.publication == ManualApproval then Decision(AwaitApproval, NeedsApproval)
    else if policy.publication == DraftOnly then Decision(PublishDraft, DraftsOnly)
    else if eligibility == OpenWithOperatorApproval then Decision(PublishDraft, PartialDraft)
    else Decision(Publish, FullyAutomatic)
  }

  /** A human's approval turns waiting into publishing, and changes nothing else. */
  function Approved(d: Decision, eligibility: Eligibility): Decision {
    if d.action != AwaitApproval then d
    else if eligibility == OpenWithOperatorApproval then Decision(PublishDraft, ApprovedPartial)
    else Decision(Publish, ApprovedFull)
  }

  // ----- Publishing one repository

  datatype PullRequest = PullRequest(number: Option<int>, url: Option<string>, status: PrStatus, reason: Option<string>)

  type Publisher = (PrPlan, Option<Patch>, bool) -> Attempt<PullRequest>

  datatype Call = Call(plan: PrPlan, patch: Option<Patch>, draft: bool)

  datatype Outcome = Outcome(evaluation: Evaluation, decision: Option<Decision>, call: Option<Call>,
                             pr: Option<PullRequest>)

  function Because(r: Record, text: string): Record { r.(reasons := BoundReasons(r.reasons + [text])) }

  function PublishedFacts(r: Record, pr: PullRequest): RepoFacts {
    RepoFacts(r.freshness, r.orgClass, r.everAffected, r.migrationStatus, r.migrationStrategyAvailable,
              r.patchFingerprint.Some?, r.verificationOutcome, Some(pr.status), pr.number, false)
  }

  function Told(r: Record, reason: string): Record {
    if reason != "" then Because(r, "publication: " + reason) else r.(reasons := BoundReasons(r.reasons))
  }

  function ApplyPublication(r: Record, pr: PullRequest): Record {
    Told(r, pr.reason.GetOr("")).(state := DeriveRepoState(PublishedFacts(r, pr)), prStatus := Some(pr.status),
                                  prNumber := pr.number, prUrl := pr.url)
  }

  function PublicationFailed(r: Record, error: string): Record {
    Because(r, "publication raised an error").(state := RepoState.Failed, error := Some(error))
  }

  function DecisionFor(policy: Policy, approved: set<string>, v: Evaluation): Decision
    requires v.prPlan.Some?
  {
    var decision := DecidePublication(policy, v.prPlan.value.eligibility);
    if v.record.repository in approved then Approved(decision, v.prPlan.value.eligibility) else decision
  }

  function PublishOne(policy: Policy, publish: Option<Publisher>, approved: set<string>, scrub: string -> string,
                      v: Evaluation)
    : Outcome
  {
    if v.prPlan.None? then Outcome(v, None, None, None)
    else
      var decision := DecisionFor(policy, approved, v);
      var noted := v.(record := Because(v.record, "publication policy: " + DecisionText(decision.notice)));
      if !WritesToGithub(decision) || publish.None? then Outcome(noted, Some(decision), None, None)
      else
        var call := Call(v.prPlan.value, v.patch, IsDraft(decision));
        match publish.value(call.plan, call.patch, call.draft)
        case Raised(error) =>
          Outcome(noted.(record := PublicationFailed(noted.record, scrub(error))), Some(decision), Some(call), None)
        case Returned(pr) =>
          Outcome(noted.(record := ApplyPublication(noted.record, pr)), Some(decision), Some(call), Some(pr))
  }

  /**
    * The publisher is called exactly for a plan whose verification is good enough, under the one watch mode that opens
    * pull requests, and with a human's approval where the workspace asks for one; what is only partly verified is
    * always opened as a draft.
    */
  lemma PublishedExactlyWhen(policy: Policy, publish: Option<Publisher>, approved: set<string>, scrub: string -> string,
                             now: int, e: Entry, v: Evaluation)
    requires IsHonest(policy, now, e, v)
    ensures var call := PublishOne(policy, publish, approved, scrub, v).call;
      && (call.Some? <==>
            && publish.Some? && MayPublish(policy) && v.prPlan.Some?
            && (policy.publication == ManualApproval ==> e.fullName in approved)
            && (v.bundle.value.outcome == VerificationOutcome.Verified
                || (v.bundle.value.outcome == VerificationOutcome.PartiallyVerified && policy.allowPartiallyVerified)))
      && (call.Some? ==>
            && call.value.plan == v.prPlan.value && call.value.patch == v.patch
            && (call.value.draft <==>
                  policy.publication == DraftOnly || v.bundle.value.outcome == VerificationOutcome.PartiallyVerified))
  {
    hide Because, DecisionText, ApplyPublication, PublicationFailed, IsDone;
  }

  // ----- The run

  datatype Change = Change(
    fingerprint: string,
    dependencyLabel: string,
    providerKey: Option<string>,
    oldVersion: Option<string>,
    newVersion: Option<string>,
    compatibility: string)

  datatype RunInput = RunInput(
    workspaceKey: string,
    change: Change,
    entries: seq<Entry>,
    now: int,
    policy: Policy,
    window: int,
    engine: Engine,
    publish: Option<Publisher>,
    producer: Option<string>,
    approved: set<string>)

  datatype RunResult = RunResult(
    campaign: Campaign,
    evaluations: seq<Evaluation>,
    decisions: map<string, Decision>,
    publications: map<string, PullRequest>,
    calls: seq<Call>,
    excluded: set<string>,
    changed: bool)

  predicate EntryLe(a: Entry, b: Entry) { StringLe(a.fullName, b.fullName) }

  predicate RecordLe(a: Record, b: Record) { StringLe(a.repository, b.repository) }

  predicate IsProducer(input: RunInput, e: Entry) { input.producer == Some(e.fullName) }

  /** The entry with the record an earlier run left for its repository, if any. */
  function WithPast(previous: Option<Campaign>, e: Entry): Entry {
    if previous.None? then e
    else
      var prior := RecordFor(previous.value.records, e.fullName);
      if prior.Some? then e.(previous := prior) else e
  }

  function Kept(input: RunInput, entries: seq<Entry>): seq<Entry> {
    if entries == [] then []
    else
      var last := entries[|entries| - 1];
      Kept(input, entries[..|entries| - 1]) + if IsProducer(input, last) then [] else [last]
  }

  /** Past of a campaign, as a function on entries. */
  function Past(previous: Option<Campaign>): Entry -> Entry { e => WithPast(previous, e) }

  function EvaluateEntry(input: RunInput, e: Entry): Evaluation {
    Evaluate(input.engine, input.policy, input.window, input.now, e)
  }

  function EvaluateEach(input: RunInput, entries: seq<Entry>): (r: seq<Evaluation>)
    ensures |r| == |entries| && forall i | 0 <= i < |r| :: r[i] == EvaluateEntry(input, entries[i])
  {
    seq(|entries|, i requires 0 <= i < |entries| => EvaluateEntry(input, entries[i]))
  }

  function EvaluateAll(input: RunInput, scoped: seq<Entry>): seq<Evaluation> {
    EvaluateEach(input, Sort(scoped, EntryLe))
  }

  function PublishUnder(input: RunInput, v: Evaluation): Outcome {
    PublishOne(input.policy, input.publish, input.approved, input.engine.scrub, v)
  }

  function PublishEach(input: RunInput, vs: seq<Evaluation>): (r: seq<Outcome>)
    ensures |r| == |vs| && forall i | 0 <= i < |r| :: r[i] == PublishUnder(input, vs[i])
  {
    seq(|vs|, i requires 0 <= i < |vs| => PublishUnder(input, vs[i]))
  }

  function DecisionsOf(outcomes: seq<Outcome>): map<string, Decision> {
    if outcomes == [] then map[]
    else
      var front, last := DecisionsOf(outcomes[..|outcomes| - 1]), outcomes[|outcomes| - 1];
      if last.decision.Some? then front[last.evaluation.record.repository := last.decision.value] else front
  }

  function PublicationsOf(outcomes: seq<Outcome>): map<string, PullRequest> {
    if outcomes == [] then map[]
    else
      var front, last := PublicationsOf(outcomes[..|outcomes| - 1]), outcomes[|outcomes| - 1];
      if last.pr.Some? then front[last.evaluation.record.repository := last.pr.value] else front
  }

  function CallsOf(outcomes: seq<Outcome>): seq<Call> {
    if outcomes == [] then []
    else
      var last := outcomes[|outcomes| - 1];
      CallsOf(outcomes[..|outcomes| - 1]) + if last.call.Some? then [last.call.value] else []
  }

  function EvaluationsOf(outcomes: seq<Outcome>): (r: seq<Evaluation>)
    ensures |r| == |outcomes| && forall i | 0 <= i < |r| :: r[i] == outcomes[i].evaluation
  {
    seq(|outcomes|, i requires 0 <= i < |outcomes| => outcomes[i].evaluation)
  }

  function RecordsOf(vs: seq<Evaluation>): (r: seq<Record>)
    ensures |r| == |vs| && forall i | 0 <= i < |r| :: r[i] == vs[i].record
  {
    seq(|vs|, i requires 0 <= i < |vs| => vs[i].record)
  }

  function ClassificationsOf(vs: seq<Evaluation>): (r: seq<Classification>)
    ensures |r| == |vs| && forall i | 0 <= i < |r| :: r[i] == vs[i].classification
  {
    seq(|vs|, i requires 0 <= i < |vs| => vs[i].classification)
  }

  function StatesOf(records: seq<Record>): (r: seq<Option<RepoState>>)
    ensures |r| == |records| && forall i | 0 <= i < |r| :: r[i] == Some(records[i].state)
  {
    seq(|records|, i requires 0 <= i < |records| => Some(records[i].state))
  }

  method PublishPhase(input: RunInput, evaluations: seq<Evaluation>)
    returns (published: seq<Evaluation>, decisions: map<string, Decision>, publications: map<string, PullRequest>,
             calls: seq<Call>)
    ensures var outcomes := PublishEach(input, evaluations);
      && published == EvaluationsOf(outcomes) && decisions == DecisionsOf(outcomes)
      && publications == PublicationsOf(outcomes) && calls == CallsOf(outcomes)
  {
    hide DecisionText, Because, DecidePublication, Approved, ApplyPublication, PublicationFailed, DecisionsOf,
         PublicationsOf, CallsOf;
    published, decisions, publications, calls := [], map[], map[], [];
    ghost var outcomes := PublishEach(input, evaluations);
    NothingPublished(outcomes);
    for k := 0 to |evaluations|
      invariant published == EvaluationsOf(outcomes[..k]) && decisions == DecisionsOf(outcomes[..k])
      invariant publications == PublicationsOf(outcomes[..k]) && calls == CallsOf(outcomes[..k])
    {
      OneMoreOutcome(outcomes, k);
      var evaluation := evaluations[k];
      if evaluation.prPlan.None? {
        published := published + [evaluation];
        continue;
      }
      PublishingKeepsName(input, evaluation);
      var plan, name := evaluation.prPlan.value, evaluation.record.repository;
      var decision := DecidePublication(input.policy, plan.eligibility);
      if name in input.approved {
        decision := Approved(decision, plan.eligibility);
      }
      decisions := decisions[name := decision];
      var text := "publication policy: " + DecisionText(decision.notice);
      evaluation := evaluation.(record := Because(evaluation.record, text));
      if WritesToGithub(decision) && input.publish.Some? {
        calls := calls + [Call(plan, evaluation.patch, IsDraft(decision))];
        var answer := input.publish.value(plan, evaluation.patch, IsDraft(decision));
        match answer {
          case Raised(error) =>
            evaluation := evaluation.(record := PublicationFailed(evaluation.record, input.engine.scrub(error)));
          case Returned(pr) =>
            publications := publications[name := pr];
            evaluation := evaluation.(record := ApplyPublication(evaluation.record, pr));
        }
      }
      published := published + [evaluation];
    }
    assert outcomes[..|outcomes|] == outcomes;
  }

  lemma NothingPublished(outcomes: seq<Outcome>)
    ensures DecisionsOf(outcomes[..0]) == map[] && PublicationsOf(outcomes[..0]) == map[]
      && CallsOf(outcomes[..0]) == []
  {
  }

  lemma OneMoreOutcome(outcomes: seq<Outcome>, k: nat)
    requires k < |outcomes|
    ensures var o, name := outcomes[k], outcomes[k].evaluation.record.repository;
      && EvaluationsOf(outcomes[..k + 1]) == EvaluationsOf(outcomes[..k]) + [o.evaluation]
      && DecisionsOf(outcomes[..k + 1])
         == (if o.decision.Some? then DecisionsOf(outcomes[..k])[name := o.decision.value]
             else DecisionsOf(outcomes[..k]))
      && PublicationsOf(outcomes[..k + 1])
         == (if o.pr.Some? then PublicationsOf(outcomes[..k])[name := o.pr.value] else PublicationsOf(outcomes[..k]))
      && CallsOf(outcomes[..k + 1]) == CallsOf(outcomes[..k]) + if o.call.Some? then [o.call.value] else []
  {
    assert outcomes[..k + 1][..k] == outcomes[..k];
  }

  lemma PublishingKeepsName(input: RunInput, v: Evaluation)
    ensures PublishUnder(input, v).evaluation.record.repository == v.record.repository
  {
    hide DecisionText, BoundReasons, DeriveRepoState, DecisionFor;
  }

  // ----- What is still open

  function RiskOf(r: Record): Risk {
    Open(r.repository, r.state,
         if r.humanActions != [] then Some(r.humanActions[0])
         else if r.error.GetOr("") != "" then r.error
         else if r.reasons != [] then Some(r.reasons[0]) else None)
  }

  function OpenRisks(records: seq<Record>): seq<Risk> {
    if records == [] then []
    else (if IsBlocking(records[0].state) then [RiskOf(records[0])] else []) + OpenRisks(records[1..])
  }

  function CountUnknown(records: seq<Record>): nat {
    if records == [] then 0 else CountUnknown(records[1..]) + if records[0].orgClass == OrgClass.Unknown then 1 else 0
  }

  function UnresolvedRisks(records: seq<Record>): seq<Risk> {
    OpenRisks(Sort(records, RecordLe))
    + if CountUnknown(records) > 0 then [Unclassified(CountUnknown(records))] else []
  }

  // ----- Has anything changed?

  /** An opened pull request and an updated one are one fact, and the time of evaluation is none. */
  function Normal(r: Record): Record {
    r.(evaluatedAt := None, prStatus := if r.prStatus == Some(Updated) then Some(Opened) else r.prStatus)
  }

  function NormalAll(records: seq<Record>): (r: seq<Record>)
    ensures |r| == |records| && forall i | 0 <= i < |r| :: r[i] == Normal(records[i])
  {
    seq(|records|, i requires 0 <= i < |records| => Normal(records[i]))
  }

  function Signature(records: seq<Record>): seq<Record> { NormalAll(Sort(records, RecordLe)) }

  predicate IsSame(previous: Campaign, records: seq<Record>, state: CampaignState) {
    Signature(previous.records) == Signature(records) && previous.state == state
  }

  function CampaignOf(input: RunInput, previous: Option<Campaign>, state: CampaignState, blast: BlastRadius,
                      records: seq<Record>, risks: seq<Risk>, version: int): Campaign {
    Campaign(CampaignId(input.workspaceKey, input.change.fingerprint, CAMPAIGN_ENGINE_VERSION), input.workspaceKey,
             input.change.fingerprint, input.change.dependencyLabel, input.change.providerKey,
             if input.producer.Some? then Internal else External,
             if previous.Some? then previous.value.discoveredAt else input.now, state, blast, records, risks, version,
             CAMPAIGN_ENGINE_VERSION, input.producer, input.change.oldVersion, input.change.newVersion,
             Some(input.change.compatibility))
  }

  function Excluded(input: RunInput, entries: seq<Entry>): set<string> {
    set e | e in entries && IsProducer(input, e) :: e.fullName
  }

  function Outcomes(input: RunInput, previous: Option<Campaign>): seq<Outcome> {
    PublishEach(input, EvaluateAll(input, Mapped(Past(previous), Kept(input, input.entries))))
  }

  function Run(input: RunInput, previous: Option<Campaign>): RunResult {
    var excluded := Excluded(input, input.entries);
    if !Analyzes(input.policy) then
      var version := if previous.Some? then previous.value.version else 1;
      RunResult(CampaignOf(input, previous, CampaignState.Detected, BuildBlastRadius([]), [], [WatchOff], version),
                [], map[], map[], [], excluded, previous.None?)
    else
      var outcomes := Outcomes(input, previous);
      var evaluations := EvaluationsOf(outcomes);
      var records := RecordsOf(evaluations);
      var blast, state := BuildBlastRadius(ClassificationsOf(evaluations)), DeriveCampaignState(StatesOf(records));
      var same := previous.Some? && IsSame(previous.value, records, state);
      var version := if previous.None? then 1 else if same then previous.value.version else previous.value.version + 1;
      RunResult(CampaignOf(input, previous, state, blast, records, UnresolvedRisks(records), version), evaluations,
                DecisionsOf(outcomes), PublicationsOf(outcomes), CallsOf(outcomes), excluded, !same)
  }

  method RunCampaign(input: RunInput, previous: Option<Campaign>) returns (result: RunResult)
    ensures result == Run(input, previous)
  {
    hide EvaluateEntry, Sort, BuildBlastRadius, DeriveCampaignState, UnresolvedRisks, Signature, PublishUnder, Mapped,
         Kept, Excluded;
    NothingScoped(input, previous);
    var excluded: set<string>, scoped: seq<Entry> := {}, [];
    for k := 0 to |input.entries|
      invariant excluded == Excluded(input, input.entries[..k])
      invariant scoped == Mapped(Past(previous), Kept(input, input.entries[..k]))
    {
      var entry := input.entries[k];
      ScopeGrows(input, previous, k);
      if IsProducer(input, entry) {
        excluded := excluded + {entry.fullName};
        continue;
      }
      scoped := scoped + [WithPast(previous, entry)];
    }
    assert input.entries[..|input.entries|] == input.entries;
    if !Analyzes(input.policy) {
      var version := if previous.Some? then previous.value.version else 1;
      var campaign := CampaignOf(input, previous, CampaignState.Detected, BuildBlastRadius([]), [], [WatchOff],
                                 version);
      return RunResult(campaign, [], map[], map[], [], excluded, previous.None?);
    }
    var evaluations := EvaluateAll(input, scoped);
    var published, decisions, publications, calls := PublishPhase(input, evaluations);
    var records := RecordsOf(published);
    var blast := BuildBlastRadius(ClassificationsOf(published));
    var state := DeriveCampaignState(StatesOf(records));
    var version, changed := 1, true;
    if previous.Some? {
      var same := IsSame(previous.value, records, state);
      changed := !same;
      version := if same then previous.value.version else previous.value.version + 1;
    }
    var campaign := CampaignOf(input, previous, state, blast, records, UnresolvedRisks(records), version);
    result := RunResult(campaign, published, decisions, publications, calls, excluded, changed);
  }

  lemma NothingScoped(input: RunInput, previous: Option<Campaign>)
    ensures Excluded(input, input.entries[..0]) == {}
    ensures Mapped(Past(previous), Kept(input, input.entries[..0])) == []
  {
  }

  lemma ScopeGrows(input: RunInput, previous: Option<Campaign>, k: nat)
    requires k < |input.entries|
    ensures var entry, entries := input.entries[k], input.entries;
      && Excluded(input, entries[..k + 1])
         == Excluded(input, entries[..k]) + (if IsProducer(input, entry) then {entry.fullName} else {})
      && Mapped(Past(previous), Kept(input, entries[..k + 1]))
         == Mapped(Past(previous), Kept(input, entries[..k]))
            + if IsProducer(input, entry) then [] else [WithPast(previous, entry)]
  {
    hide WithPast, IsProducer;
    var entry, entries := input.entries[k], input.entries;
    assert entries[..k + 1] == entries[..k] + [entry];
    assert entries[..k + 1][..k] == entries[..k];
    MappedOfOneMore(Past(previous), Kept(input, entries[..k]), entry);
  }
}
