/** One repository against one upstream change: freshness, impact, plan, verification, and the record they leave. */
module CampaignEvaluation {
  import opened Wrappers
  import opened CampaignDomain
  import opened CampaignStates

  // ----- Freshness

  const CLOCK_SKEW_TOLERANCE := 5 * 60

  /** Times are seconds; `window` is the freshness window. */
  function AssessFreshness(accessLost: bool, lastDiscoveryAt: Option<int>, now: int, window: int): Freshness {
    if accessLost then Freshness.AccessLost
    else if lastDiscoveryAt.None? then Freshness.Unknown
    else if lastDiscoveryAt.value - now > CLOCK_SKEW_TOLERANCE then Freshness.Unknown
    else if now - lastDiscoveryAt.value > window then Freshness.Stale
    else Fresh
  }

  /** Evidence is fresh exactly while the clock is within the tolerance before a discovery and the window after it. */
  lemma FreshExactlyInWindow(accessLost: bool, lastDiscoveryAt: Option<int>, now: int, window: int)
    ensures AssessFreshness(accessLost, lastDiscoveryAt, now, window) == Fresh
      <==> && !accessLost && lastDiscoveryAt.Some?
           && lastDiscoveryAt.value - CLOCK_SKEW_TOLERANCE <= now <= lastDiscoveryAt.value + window
  {
  }

  /** Once stale, evidence stays stale until there is a new discovery. */
  lemma StaleStaysStale(lastDiscoveryAt: Option<int>, now: int, later: int, window: int)
    requires now <= later && window > 0
    requires AssessFreshness(false, lastDiscoveryAt, now, window) == Freshness.Stale
    ensures AssessFreshness(false, lastDiscoveryAt, later, window) == Freshness.Stale
  {
  }

  function Age(f: Freshness): nat {
    match f case Unknown => 0 case Fresh => 1 case Stale => 2 case AccessLost => 3
  }

  /**
    * One discovery only ages: not yet credible, then fresh, then stale, and never back; fresh at two times is fresh
    * between.
    */
  lemma FreshnessOnlyAges(lastDiscoveryAt: Option<int>, first: int, between: int, last: int, window: int)
    requires first <= between <= last && window > 0
    ensures var at := (now: int) => AssessFreshness(false, lastDiscoveryAt, now, window);
      && Age(at(first)) <= Age(at(between)) <= Age(at(last))
      && (at(first) == Fresh && at(last) == Fresh ==> at(between) == Fresh)
      && (at(first) == Freshness.Stale ==> at(between) == at(last) == Freshness.Stale)
  {
    FreshExactlyInWindow(false, lastDiscoveryAt, between, window);
    if AssessFreshness(false, lastDiscoveryAt, first, window) == Freshness.Stale {
      StaleStaysStale(lastDiscoveryAt, first, between, window);
      StaleStaysStale(lastDiscoveryAt, between, last, window);
    }
  }

  // ----- What the caller supplies, and what the engine answers

  datatype Entry = Entry(
    fullName: string,
    accessLost: bool,
    lastDiscoveryAt: Option<int>,
    lastDiscoveryCommit: Option<string>,
    root: Option<string>,
    inventory: Option<string>,
    registryRows: seq<string>,
    useRegistry: bool,
    commitSha: Option<string>,
    extraPaths: seq<string>,
    previous: Option<Record>,
    evidenceError: Option<string>)

  datatype Impact = Impact(
    status: ImpactStatus,
    reason: string,
    directCount: nat,
    potentialCount: nat,
    transitiveCount: nat,
    commitSha: Option<string>,
    hasMatches: bool)

  datatype Plan = Plan(status: MigrationStatus, automaticSteps: nat, unresolved: seq<string>, fingerprint: string)

  datatype Patch = Patch(isCandidate: bool, fingerprint: string)

  datatype Bundle = Bundle(
    outcome: VerificationOutcome,
    outcomeReasons: seq<string>,
    fingerprint: string,
    residualRisk: string,
    sandboxRan: bool)

  datatype PrPlan = PrPlan(eligibility: Eligibility, repository: string, body: string)

  /** The analysis, planning, patching and verification of one change; each call may raise. */
  datatype Engine = Engine(
    analyzeInventory: (string, Option<string>) -> Attempt<Impact>,
    analyzeRepository: (string, string, Option<string>) -> Attempt<(Impact, string)>,
    registryImpact: (seq<string>, string) -> Attempt<seq<Impact>>,
    plan: (Impact, string) -> Attempt<Plan>,
    patch: (Plan, string) -> Attempt<Patch>,
    verify: (Plan, Option<Patch>, Impact, string, string, seq<string>) -> Attempt<Bundle>,
    prBody: (Plan, Option<Patch>, Bundle, Impact, string, string) -> Attempt<string>,
    scrub: string -> string,
    compatibility: string)

  datatype WatchMode = Off | DetectOnly | Migrate | MigrateAndOpenPr

  datatype PublicationMode = Automatic | DraftOnly | ManualApproval

  datatype Policy = Policy(watchMode: WatchMode, allowPartiallyVerified: bool, publication: PublicationMode)

  predicate Analyzes(p: Policy) { p.watchMode != Off }

  predicate Migrates(p: Policy) { p.watchMode == Migrate || p.watchMode == MigrateAndOpenPr }

  predicate MayPublish(p: Policy) { p.watchMode == MigrateAndOpenPr }

  /** A verification outcome and an opt-in decide what may be opened. */
  function DetermineEligibility(outcome: VerificationOutcome, allowPartiallyVerified: bool): Eligibility {
    match outcome
    case Verified => AutoOpen
    case PartiallyVerified => if allowPartiallyVerified then OpenWithOperatorApproval else NotEligible
    case HumanRequired => PlanOnly
    case _ => NotEligible
  }

  /** `a or b`, where an empty text counts as missing. */
  function Or(a: Option<string>, b: Option<string>): Option<string> { if a.Some? && a.value != "" then a else b }

  // ----- Classification

  datatype Notice =
    | AccessWasLost | DiscoveryTooOld | NeverDiscovered | NoInventory | EvidenceMissing | EvidenceUnresolved
    | EvaluationFailed | EvaluationIsolated | PolicyDetectsOnly | NoCheckout

  function Text(n: Notice): string {
    match n
    case AccessWasLost => "repository access was lost; cannot claim it is unaffected"
    case DiscoveryTooOld => "dependency discovery is older than the freshness window; rediscovery required"
    case NeverDiscovered => "no successful dependency discovery exists for this repository"
    case NoInventory => "no dependency inventory was available"
    case EvidenceMissing => "evidence could not be obtained"
    case EvidenceUnresolved => "evidence could not be obtained; this repository is unresolved, not unaffected"
    case EvaluationFailed => "evaluation failed"
    case EvaluationIsolated => "evaluation raised an error; this repository is isolated and unresolved"
    case PolicyDetectsOnly => "watch policy is detect_only: no migration is generated"
    case NoCheckout =>
      "no repository checkout was available; a migration cannot be generated from registry evidence alone"
  }

  datatype Classification = Classification(
    repository: string,
    orgClass: OrgClass,
    unknownReason: Option<UnknownReason>,
    reason: string,
    hasMatch: bool)

  function Classify(name: string, freshness: Freshness, impact: Option<Impact>): Classification {
    match freshness
    case AccessLost => Classification(name, OrgClass.Unknown, Some(UnknownReason.AccessLost), Text(AccessWasLost),
                                      false)
    case Stale => Classification(name, OrgClass.Unknown, Some(StaleDiscovery), Text(DiscoveryTooOld), false)
    case Unknown => Classification(name, OrgClass.Unknown, Some(NoDiscovery), Text(NeverDiscovered), false)
    case Fresh =>
      match impact
      case None => Classification(name, OrgClass.Unknown, Some(NoDiscovery), Text(NoInventory), false)
      case Some(i) =>
        match i.status
        case Affected => Classification(name, OrgClass.Affected, None, i.reason, i.hasMatches)
        case Uncertain => Classification(name, OrgClass.Unknown, Some(InsufficientEvidence), i.reason, i.hasMatches)
        case Unaffected => Classification(name, OrgClass.NotAffected, None, i.reason, i.hasMatches)
  }

  // ----- Evaluation

  datatype Evaluation = Evaluation(
    record: Record,
    classification: Classification,
    patch: Option<Patch>,
    bundle: Option<Bundle>,
    prPlan: Option<PrPlan>)

  function WithoutPlan(record: Record, c: Classification): Evaluation { Evaluation(record, c, None, None, None) }

  function BaseRecord(e: Entry, freshness: Freshness, c: Classification, now: int): Record {
    Record(e.fullName, RepoState.Unknown, c.orgClass, freshness, c.unknownReason, None, 0, 0, 0, "none", None, false,
           NotApplicable, None, None, Or(e.commitSha, e.lastDiscoveryCommit), None, None, None, None, None, None, None,
           e.previous.Some? && e.previous.value.everAffected, BoundReasons([c.reason]), [], None, Some(now))
  }

  /** The evidence at hand, best first; the inventory comes along when there is one. */
  function FindImpact(engine: Engine, e: Entry): Attempt<(Option<Impact>, Option<string>)> {
    if e.root.Some? && e.inventory.Some? then
      var impact :- engine.analyzeInventory(e.inventory.value, e.root);
      Returned((Some(impact), e.inventory))
    else if e.root.Some? then
      var found :- engine.analyzeRepository(e.root.value, e.fullName, Or(e.commitSha, e.lastDiscoveryCommit));
      Returned((Some(found.0), Some(found.1)))
    else if e.inventory.Some? then
      var impact :- engine.analyzeInventory(e.inventory.value, None);
      Returned((Some(impact), e.inventory))
    else if e.registryRows != [] || e.useRegistry then
      var impacts :- engine.registryImpact(e.registryRows, e.fullName);
      Returned((if impacts == [] then None else Some(impacts[0]), None))
    else Returned((None, None))
  }

  function Severity(engine: Engine, i: Impact): string {
    if i.directCount > 0 then engine.compatibility else if i.potentialCount > 0 then "potentially_breaking" else "none"
  }

  function WithImpact(engine: Engine, r: Record, i: Impact): Record {
    r.(impactStatus := Some(i.status), directConsumers := i.directCount, potentialConsumers := i.potentialCount,
       transitiveConsumers := i.transitiveCount, severity := Severity(engine, i),
       baseCommitSha := Or(i.commitSha, r.baseCommitSha))
  }

  /** The record of a classified repository for which nothing is planned. */
  function ClassifiedRecord(engine: Engine, e: Entry, freshness: Freshness, now: int, impact: Option<Impact>): Record {
    var c := Classify(e.fullName, freshness, impact);
    var base := BaseRecord(e, freshness, c, now);
    var seen := if impact.Some? then WithImpact(engine, base, impact.value) else base;
    var ever := seen.everAffected || c.orgClass == OrgClass.Affected;
    seen.(everAffected := ever, state := DeriveRepoState(Unplanned(freshness, c.orgClass, ever)))
  }

  function HumanActions(p: Plan): seq<string> {
    Bounded(seq(|p.unresolved|, i requires 0 <= i < |p.unresolved| => Bounded(p.unresolved[i], 300)), 10)
  }

  function PlannedFacts(freshness: Freshness, plan: Plan, patch: Option<Patch>, bundle: Bundle): RepoFacts {
    RepoFacts(freshness, OrgClass.Affected, true, Some(plan.status), plan.automaticSteps > 0,
              patch.Some? && patch.value.isCandidate, Some(bundle.outcome), None, None, false)
  }

  function PlannedRecord(r: Record, plan: Plan, patch: Option<Patch>, bundle: Bundle, readiness: Eligibility): Record {
    r.(state := DeriveRepoState(PlannedFacts(r.freshness, plan, patch, bundle)), migrationStatus := Some(plan.status),
       migrationStrategyAvailable := plan.automaticSteps > 0,
       verificationFeasibility := if bundle.sandboxRan then Sandbox else StaticOnly,
       verificationOutcome := Some(bundle.outcome), publicationReadiness := Some(readiness),
       planFingerprint := Some(plan.fingerprint),
       patchFingerprint := if patch.Some? then Some(patch.value.fingerprint) else None,
       bundleFingerprint := Some(bundle.fingerprint), residualRisk := Some(bundle.residualRisk),
       reasons := BoundReasons(r.reasons + bundle.outcomeReasons), humanActions := HumanActions(plan))
  }

  /** Planning, patching and verifying an affected repository; `sha` is the commit all of it is about. */
  function PlanAndVerify(engine: Engine, e: Entry, impact: Impact, inventory: string, root: string, sha: string)
    : Attempt<(Plan, Option<Patch>, Bundle, string)>
  {
    var plan :- engine.plan(impact, inventory);
    var patch :- if plan.automaticSteps > 0 then MakePatch(engine, plan, root) else Returned(None);
    var bundle :- engine.verify(plan, patch, impact, root, sha, e.extraPaths);
    var body :- engine.prBody(plan, patch, bundle, impact, e.fullName, sha);
    Returned((plan, patch, bundle, body))
  }

  function Planned(policy: Policy, e: Entry, c: Classification, r: Record, work: (Plan, Option<Patch>, Bundle, string))
    : Evaluation
  {
    var (plan, patch, bundle, body) := work;
    var eligibility := DetermineEligibility(bundle.outcome, policy.allowPartiallyVerified);
    Evaluation(PlannedRecord(r, plan, patch, bundle, eligibility), c, patch, Some(bundle),
               Some(PrPlan(eligibility, e.fullName, body)))
  }

  function MakePatch(engine: Engine, plan: Plan, root: string): Attempt<Option<Patch>> {
    var patch :- engine.patch(plan, root);
    Returned(Some(patch))
  }

  /** The evaluation proper; evidence that is not fresh is not looked at. */
  function Inspect(engine: Engine, policy: Policy, freshness: Freshness, now: int, e: Entry): Attempt<Evaluation> {
    if freshness != Fresh then
      Returned(WithoutPlan(ClassifiedRecord(engine, e, freshness, now, None), Classify(e.fullName, freshness, None)))
    else
      var found :- FindImpact(engine, e);
      var c := Classify(e.fullName, freshness, found.0);
      var record := ClassifiedRecord(engine, e, freshness, now, found.0);
      if c.orgClass != OrgClass.Affected then Returned(WithoutPlan(record, c))
      else if !Migrates(policy) || e.root.None? || found.1.None? then
        Returned(WithoutPlan(record.(reasons := BoundReasons(record.reasons + [WhyNotMigrated(policy)])), c))
      else
        var sha := record.baseCommitSha.GetOr("");
        var work :- PlanAndVerify(engine, e, found.0.value, found.1.value, e.root.value, sha);
        Returned(Planned(policy, e, c, record, work))
  }

  function WhyNotMigrated(policy: Policy): string {
    Text(if !Migrates(policy) then PolicyDetectsOnly else NoCheckout)
  }

  function FailedEvaluation(e: Entry, freshness: Freshness, now: int, classified: Notice, error: string, reason: Notice)
    : Evaluation
  {
    var c := Classification(e.fullName, OrgClass.Unknown, None, Text(classified), false);
    WithoutPlan(
      BaseRecord(e, freshness, c, now)
        .(state := RepoState.Failed, error := Some(error), reasons := BoundReasons([Text(reason)])),
      c)
  }

  function Evaluate(engine: Engine, policy: Policy, window: int, now: int, e: Entry): Evaluation {
    var freshness := AssessFreshness(e.accessLost, e.lastDiscoveryAt, now, window);
    if e.evidenceError.Some? && freshness == Fresh then
      FailedEvaluation(e, freshness, now, EvidenceMissing, engine.scrub(e.evidenceError.value), EvidenceUnresolved)
    else
      match Inspect(engine, policy, freshness, now, e)
      case Returned(evaluation) => evaluation
      case Raised(error) =>
        FailedEvaluation(e, freshness, now, EvaluationFailed, engine.scrub(error), EvaluationIsolated)
  }

  predicate WasEverAffected(e: Entry) { e.previous.Some? && e.previous.value.everAffected }

  // ----- What every evaluation keeps

  ghost predicate IsHonest(policy: Policy, now: int, e: Entry, v: Evaluation) {
    var r, c := v.record, v.classification;
    && r.repository == c.repository == e.fullName && r.orgClass == c.orgClass && r.evaluatedAt == Some(now)
    && (IsDone(r.state) <==> c.orgClass == OrgClass.NotAffected)
    && (c.orgClass != OrgClass.Unknown ==> r.freshness == Fresh)
    && (r.state == RepoState.Resolved <==> c.orgClass == OrgClass.NotAffected && WasEverAffected(e))
    && (r.everAffected <==> WasEverAffected(e) || c.orgClass == OrgClass.Affected)
    && (v.prPlan.Some? ==>
          && c.orgClass == OrgClass.Affected && Migrates(policy) && v.bundle.Some?
          && r.verificationOutcome == Some(v.bundle.value.outcome)
          && v.prPlan.value.eligibility == DetermineEligibility(v.bundle.value.outcome, policy.allowPartiallyVerified))
  }

  lemma ClassifiedIsHonest(engine: Engine, policy: Policy, e: Entry, freshness: Freshness, now: int,
                           impact: Option<Impact>)
    ensures IsHonest(policy, now, e,
                     WithoutPlan(ClassifiedRecord(engine, e, freshness, now, impact),
                                 Classify(e.fullName, freshness, impact)))
  {
    hide Text, BoundReasons, Or, Severity, DeriveRepoState, Classify;
    ClassifyMeans(e.fullName, freshness, impact);
    var c := Classify(e.fullName, freshness, impact);
    var ever := WasEverAffected(e) || c.orgClass == OrgClass.Affected;
    DoneOnlyByFreshEvidence(Unplanned(freshness, c.orgClass, ever));
  }

  lemma PlannedIsHonest(policy: Policy, now: int, e: Entry, c: Classification, r: Record,
                        work: (Plan, Option<Patch>, Bundle, string))
    requires IsHonest(policy, now, e, WithoutPlan(r, c)) && c.orgClass == OrgClass.Affected && Migrates(policy)
    ensures IsHonest(policy, now, e, Planned(policy, e, c, r, work))
  {
    hide Text, BoundReasons, DeriveRepoState, DetermineEligibility;
    DoneOnlyByFreshEvidence(PlannedFacts(r.freshness, work.0, work.1, work.2));
  }

  lemma InspectionIsHonest(engine: Engine, policy: Policy, freshness: Freshness, now: int, e: Entry)
    requires Inspect(engine, policy, freshness, now, e).Returned?
    ensures IsHonest(policy, now, e, Inspect(engine, policy, freshness, now, e).value)
  {
    hide Text, BoundReasons, FindImpact, Or, WhyNotMigrated, PlanAndVerify, Planned, ClassifiedRecord, Classify;
    if freshness != Fresh {
      ClassifiedIsHonest(engine, policy, e, freshness, now, None);
    } else {
      var found := FindImpact(engine, e).value;
      var c, record := Classify(e.fullName, freshness, found.0), ClassifiedRecord(engine, e, freshness, now, found.0);
      ClassifiedIsHonest(engine, policy, e, freshness, now, found.0);
      if c.orgClass == OrgClass.Affected && Migrates(policy) && e.root.Some? && found.1.Some? {
        ClassifyMeans(e.fullName, freshness, found.0);
        var sha := record.baseCommitSha.GetOr("");
        var work := PlanAndVerify(engine, e, found.0.value, found.1.value, e.root.value, sha).value;
        PlannedIsHonest(policy, now, e, c, record, work);
      }
    }
  }

  /** Only fresh evidence settles a repository either way, and only an impact that says so makes it affected. */
  lemma ClassifyMeans(name: string, freshness: Freshness, impact: Option<Impact>)
    ensures var c := Classify(name, freshness, impact);
      && c.repository == name
      && (c.orgClass == OrgClass.Affected <==>
            freshness == Fresh && impact.Some? && impact.value.status == ImpactStatus.Affected)
      && (c.orgClass == OrgClass.NotAffected <==>
            freshness == Fresh && impact.Some? && impact.value.status == ImpactStatus.Unaffected)
  {
    hide Text;
  }

  /**
    * Whatever raises, every evaluation leaves a record that cannot be mistaken for a safe one: its state is done only
    * on a fresh `not affected` classification, resolved only if an earlier record had it affected, and a plan to
    * publish exists only for an affected repository, with the eligibility its verification outcome allows.
    */
  lemma EvaluationIsHonest(engine: Engine, policy: Policy, window: int, now: int, e: Entry)
    ensures IsHonest(policy, now, e, Evaluate(engine, policy, window, now, e))
  {
    hide Text, BoundReasons, Inspect, AssessFreshness, Or;
    var freshness := AssessFreshness(e.accessLost, e.lastDiscoveryAt, now, window);
    if Inspect(engine, policy, freshness, now, e).Returned? {
      InspectionIsHonest(engine, policy, freshness, now, e);
    }
  }

  // ----- What an evaluation depends on

  function At(v: Evaluation, now: int): Evaluation { v.(record := v.record.(evaluatedAt := Some(now))) }

  lemma InspectionAtAnotherTime(engine: Engine, policy: Policy, freshness: Freshness, now: int, later: int, e: Entry)
    ensures var v, w := Inspect(engine, policy, freshness, now, e), Inspect(engine, policy, freshness, later, e);
      w == if v.Returned? then Returned(At(v.value, later)) else v
  {
    hide Text, BoundReasons, FindImpact, Or, WhyNotMigrated, PlanAndVerify, ClassifiedRecord, Classify, HumanActions,
         DeriveRepoState, DetermineEligibility;
    ClassifiedAtAnotherTime(engine, e, freshness, now, later, None);
    if freshness == Fresh && FindImpact(engine, e).Returned? {
      var found := FindImpact(engine, e).value;
      ClassifiedAtAnotherTime(engine, e, freshness, now, later, found.0);
    }
  }

  lemma ClassifiedAtAnotherTime(engine: Engine, e: Entry, freshness: Freshness, now: int, later: int,
                                impact: Option<Impact>)
    ensures ClassifiedRecord(engine, e, freshness, later, impact)
         == ClassifiedRecord(engine, e, freshness, now, impact).(evaluatedAt := Some(later))
  {
    hide Text, BoundReasons, Or, Severity, DeriveRepoState, Classify;
  }

  /** The clock shows in a record only through its freshness and its timestamp. */
  lemma ClockShowsOnlyInFreshness(engine: Engine, policy: Policy, window: int, now: int, later: int, e: Entry)
    requires AssessFreshness(e.accessLost, e.lastDiscoveryAt, now, window)
          == AssessFreshness(e.accessLost, e.lastDiscoveryAt, later, window)
    ensures Evaluate(engine, policy, window, later, e) == At(Evaluate(engine, policy, window, now, e), later)
  {
    hide Text, BoundReasons, Inspect, AssessFreshness, Or;
    InspectionAtAnotherTime(engine, policy, AssessFreshness(e.accessLost, e.lastDiscoveryAt, now, window), now, later,
                            e);
  }

  lemma ClassifiedWithAnotherPast(engine: Engine, e: Entry, freshness: Freshness, now: int, impact: Option<Impact>,
                                  past: Option<Record>)
    ensures var other := e.(previous := past);
      Classify(e.fullName, freshness, impact).orgClass == OrgClass.Affected
        || WasEverAffected(e) == WasEverAffected(other) ==>
        ClassifiedRecord(engine, e, freshness, now, impact) == ClassifiedRecord(engine, other, freshness, now, impact)
  {
    hide Text, BoundReasons, Or, Severity, DeriveRepoState, Classify;
  }

  lemma SearchIgnoresPast(engine: Engine, e: Entry, past: Option<Record>)
    ensures FindImpact(engine, e) == FindImpact(engine, e.(previous := past))
  {
    hide Or;
  }

  lemma PlanningIgnoresPast(engine: Engine, e: Entry, past: Option<Record>, impact: Impact, inventory: string,
                            root: string, sha: string)
    ensures PlanAndVerify(engine, e, impact, inventory, root, sha)
         == PlanAndVerify(engine, e.(previous := past), impact, inventory, root, sha)
  {
    hide MakePatch;
  }

  lemma InspectionWithAnotherPast(engine: Engine, policy: Policy, freshness: Freshness, now: int, e: Entry,
                                  past: Option<Record>)
    ensures var v := Inspect(engine, policy, freshness, now, e);
      var w := Inspect(engine, policy, freshness, now, e.(previous := past));
      && (v.Raised? ==> w == v)
      && (v.Returned? ==> w.Returned? && SameButForPast(e, past, v.value, w.value))
  {
    hide Text, BoundReasons, FindImpact, Or, WhyNotMigrated, PlanAndVerify, ClassifiedRecord, Classify, PlannedRecord;
    var other := e.(previous := past);
    SearchIgnoresPast(engine, e, past);
    ClassifiedWithAnotherPast(engine, e, freshness, now, None, past);
    if freshness == Fresh && FindImpact(engine, e).Returned? {
      var found := FindImpact(engine, e).value;
      ClassifiedWithAnotherPast(engine, e, freshness, now, found.0, past);
      if Classify(e.fullName, freshness, found.0).orgClass == OrgClass.Affected {
        ClassifyMeans(e.fullName, freshness, found.0);
        if e.root.Some? && found.1.Some? {
          var sha := ClassifiedRecord(engine, e, freshness, now, found.0).baseCommitSha.GetOr("");
          PlanningIgnoresPast(engine, e, past, found.0.value, found.1.value, e.root.value, sha);
        }
      }
    }
  }

  ghost predicate SameButForPast(e: Entry, past: Option<Record>, v: Evaluation, w: Evaluation) {
    && v.classification == w.classification && v.prPlan == w.prPlan && v.patch == w.patch
    && (v.classification.orgClass == OrgClass.Affected
        || WasEverAffected(e) == WasEverAffected(e.(previous := past)) ==>
          v == w)
  }

  /**
    * History enters an evaluation only through the question whether an earlier record had the repository affected,
    * and an affected repository does not even depend on that.
    */
  lemma HistoryShowsOnlyWhenUnaffected(engine: Engine, policy: Policy, window: int, now: int, e: Entry,
                                       past: Option<Record>)
    ensures SameButForPast(e, past, Evaluate(engine, policy, window, now, e),
                           Evaluate(engine, policy, window, now, e.(previous := past)))
  {
    hide Text, BoundReasons, Inspect, AssessFreshness, Or;
    InspectionWithAnotherPast(engine, policy, AssessFreshness(e.accessLost, e.lastDiscoveryAt, now, window), now, e,
                              past);
  }

  /** What planning and verifying this affected repository gives, or raises. */
  function WorkFor(engine: Engine, e: Entry, now: int, impact: Impact, inventory: string, root: string)
    : Attempt<(Plan, Option<Patch>, Bundle, string)>
  {
    PlanAndVerify(engine, e, impact, inventory, root,
                  ClassifiedRecord(engine, e, Fresh, now, Some(impact)).baseCommitSha.GetOr(""))
  }

  /** Nothing is planned for the repository, or all of planning, patching, verifying and describing goes through. */
  predicate WorkGoesThrough(engine: Engine, policy: Policy, e: Entry, now: int, impact: Impact,
                            inventory: Option<string>) {
    !Migrates(policy) || e.root.None? || inventory.None?
      || WorkFor(engine, e, now, impact, inventory.value, e.root.value).Returned?
  }

  /**
    * A repository found affected is recorded as having been affected exactly if it was recorded so before, or the work
    * that follows the finding does not raise. When it raises, the failed record keeps the old flag, and a later clean
    * evaluation reads as never affected rather than resolved.
    */
  lemma AffectedIsRememberedExactlyWhen(engine: Engine, policy: Policy, window: int, now: int, e: Entry, impact: Impact,
                                        inventory: Option<string>)
    requires AssessFreshness(e.accessLost, e.lastDiscoveryAt, now, window) == Fresh && e.evidenceError.None?
    requires FindImpact(engine, e) == Returned((Some(impact), inventory)) && impact.status == ImpactStatus.Affected
    ensures var r := Evaluate(engine, policy, window, now, e).record;
      && (r.everAffected <==> WasEverAffected(e) || WorkGoesThrough(engine, policy, e, now, impact, inventory))
      && (r.orgClass == OrgClass.Affected <==> WorkGoesThrough(engine, policy, e, now, impact, inventory))
      && (!WorkGoesThrough(engine, policy, e, now, impact, inventory) ==> r.state == RepoState.Failed)
  {
    hide Text, BoundReasons, Or, ClassifiedRecord, PlanAndVerify, Classify, AssessFreshness, FindImpact, Planned,
         WhyNotMigrated;
    ClassifyMeans(e.fullName, Fresh, Some(impact));
    EvaluationIsHonest(engine, policy, window, now, e);
    var v := Evaluate(engine, policy, window, now, e);
    var inspected := Inspect(engine, policy, Fresh, now, e);
    assert inspected.Returned? <==> WorkGoesThrough(engine, policy, e, now, impact, inventory);
    assert inspected.Returned?
      ==> v == inspected.value && v.classification == Classify(e.fullName, Fresh, Some(impact)) by {
      if inspected.Returned? && Migrates(policy) && e.root.Some? && inventory.Some? {
        PlannedKeepsClass(engine, policy, e, now, impact, inventory.value);
      }
    }
  }

  /** So a repository whose planning raises after it was found affected leaves no trace of having been affected. */
  lemma RaisingPlanForgetsAffected(engine: Engine, policy: Policy, window: int, now: int, e: Entry, impact: Impact,
                                   text: string)
    requires AssessFreshness(e.accessLost, e.lastDiscoveryAt, now, window) == Fresh && e.evidenceError.None?
    requires e.root.Some? && e.inventory.Some? && Migrates(policy)
    requires engine.analyzeInventory(e.inventory.value, e.root) == Returned(impact)
      && impact.status == ImpactStatus.Affected
    requires engine.plan(impact, e.inventory.value) == Raised(text)
    ensures var r := Evaluate(engine, policy, window, now, e).record;
      r.state == RepoState.Failed && r.orgClass == OrgClass.Unknown && r.everAffected == WasEverAffected(e)
  {
    hide Evaluate, AssessFreshness, ClassifiedRecord, MakePatch;
    assert FindImpact(engine, e) == Returned((Some(impact), e.inventory));
    assert WorkFor(engine, e, now, impact, e.inventory.value, e.root.value).Raised?;
    AffectedIsRememberedExactlyWhen(engine, policy, window, now, e, impact, e.inventory);
    EvaluationIsHonest(engine, policy, window, now, e);
  }

  lemma PlannedKeepsClass(engine: Engine, policy: Policy, e: Entry, now: int, impact: Impact, inventory: string)
    requires e.root.Some? && WorkFor(engine, e, now, impact, inventory, e.root.value).Returned?
    ensures var c := Classify(e.fullName, Fresh, Some(impact));
      var r := ClassifiedRecord(engine, e, Fresh, now, Some(impact));
      Planned(policy, e, c, r, WorkFor(engine, e, now, impact, inventory, e.root.value).value).classification == c
  {
    hide PlannedRecord, WorkFor, ClassifiedRecord, Classify;
  }
}
