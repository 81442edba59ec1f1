/** What the record of one evaluation shows of the evidence and the work behind it, whichever engine call raises. */
module CampaignEvidence {
  import opened Wrappers
  import opened CampaignDomain
  import opened CampaignStates
  import opened CampaignEvaluation

  /** The commit the caller names, or else the one of the last discovery. */
  ghost predicate IsCommit(e: Entry, sha: Option<string>) {
    sha == if e.commitSha.Some? && e.commitSha.value != "" then e.commitSha else e.lastDiscoveryCommit
  }

  /** The best evidence at hand gives this impact, or none; an inventory comes with all but registry evidence. */
  ghost predicate Supplies(engine: Engine, e: Entry, i: Option<Impact>, inventory: Option<string>) {
    match (e.root, e.inventory)
    case (Some(root), Some(text)) =>
      i.Some? && engine.analyzeInventory(text, Some(root)) == Returned(i.value) && inventory == Some(text)
    case (Some(root), None) =>
      i.Some? && inventory.Some? && exists sha ::
        IsCommit(e, sha) && engine.analyzeRepository(root, e.fullName, sha) == Returned((i.value, inventory.value))
    case (None, Some(text)) =>
      i.Some? && engine.analyzeInventory(text, None) == Returned(i.value) && inventory == Some(text)
    case (None, None) =>
      inventory.None?
      && if e.registryRows == [] && !e.useRegistry then i.None?
         else
           var found := engine.registryImpact(e.registryRows, e.fullName);
           found.Returned? && i == if found.value == [] then None else Some(found.value[0])
  }

  /** The same evidence raises. */
  ghost predicate RaisesOnEvidence(engine: Engine, e: Entry, text: string) {
    match (e.root, e.inventory)
    case (Some(root), Some(inventory)) => engine.analyzeInventory(inventory, Some(root)) == Raised(text)
    case (Some(root), None) =>
      exists sha :: IsCommit(e, sha) && engine.analyzeRepository(root, e.fullName, sha) == Raised(text)
    case (None, Some(inventory)) => engine.analyzeInventory(inventory, None) == Raised(text)
    case (None, None) =>
      (e.registryRows != [] || e.useRegistry) && engine.registryImpact(e.registryRows, e.fullName) == Raised(text)
  }

  lemma FindImpactMeans(engine: Engine, e: Entry)
    ensures match FindImpact(engine, e)
            case Returned(found) => Supplies(engine, e, found.0, found.1)
            case Raised(text) => RaisesOnEvidence(engine, e, text)
  {
    assert IsCommit(e, Or(e.commitSha, e.lastDiscoveryCommit));
  }

  /** The plan, patch, verification and description made for an affected repository, one after the other. */
  ghost predicate IsWork(engine: Engine, e: Entry, i: Impact, inventory: string, root: string, sha: string,
                         plan: Plan, patch: Option<Patch>, bundle: Bundle, body: string) {
    && engine.plan(i, inventory) == Returned(plan)
    && (patch.Some? <==> plan.automaticSteps > 0) && (patch.Some? ==> engine.patch(plan, root) == Returned(patch.value))
    && engine.verify(plan, patch, i, root, sha, e.extraPaths) == Returned(bundle)
    && engine.prBody(plan, patch, bundle, i, e.fullName, sha) == Returned(body)
  }

  /** Some step of that work raises, all before it having gone through. */
  ghost predicate WorkRaises(engine: Engine, e: Entry, i: Impact, inventory: string, root: string, sha: string,
                             text: string) {
    || engine.plan(i, inventory) == Raised(text)
    || (exists plan :: engine.plan(i, inventory) == Returned(plan) && plan.automaticSteps > 0
                       && engine.patch(plan, root) == Raised(text))
    || (exists plan, patch ::
          engine.plan(i, inventory) == Returned(plan) && RaisesAfterPatch(engine, e, i, root, sha, plan, patch, text))
  }

  ghost predicate RaisesAfterPatch(engine: Engine, e: Entry, i: Impact, root: string, sha: string, plan: Plan,
                                   patch: Option<Patch>, text: string) {
    var verified := engine.verify(plan, patch, i, root, sha, e.extraPaths);
    && (patch.Some? <==> plan.automaticSteps > 0) && (patch.Some? ==> engine.patch(plan, root) == Returned(patch.value))
    && if verified.Raised? then verified == Raised(text)
       else engine.prBody(plan, patch, verified.value, i, e.fullName, sha) == Raised(text)
  }

  lemma WorkMeans(engine: Engine, e: Entry, i: Impact, inventory: string, root: string, sha: string)
    ensures match PlanAndVerify(engine, e, i, inventory, root, sha)
            case Returned(w) => IsWork(engine, e, i, inventory, root, sha, w.0, w.1, w.2, w.3)
            case Raised(text) => WorkRaises(engine, e, i, inventory, root, sha, text)
  {
    var planned := engine.plan(i, inventory);
    if planned.Returned? {
      var plan := planned.value;
      var patched := if plan.automaticSteps > 0 then MakePatch(engine, plan, root) else Returned(None);
      if patched.Returned? {
        var verified := engine.verify(plan, patched.value, i, root, sha, e.extraPaths);
        var all := PlanAndVerify(engine, e, i, inventory, root, sha);
        assert all.Raised? ==> RaisesAfterPatch(engine, e, i, root, sha, plan, patched.value, all.error);
      }
    }
  }

  // ----- The record

  /** A repository that could not be settled: unknown, failed, with the error, and nothing to publish. */
  ghost predicate FailedWith(v: Evaluation, error: string) {
    && v.record.state == RepoState.Failed && v.record.error == Some(error)
    && v.record.orgClass == v.classification.orgClass == OrgClass.Unknown && v.record.impactStatus.None?
    && v.patch.None? && v.bundle.None? && v.prPlan.None?
  }

  ghost predicate NothingPlanned(v: Evaluation) {
    && v.patch.None? && v.bundle.None? && v.prPlan.None? && v.record.error.None? && v.record.migrationStatus.None?
    && v.record.planFingerprint.None? && v.record.verificationOutcome.None? && v.record.humanActions == []
  }

  /** Evidence that is not fresh is not looked at: the state says why. */
  ghost predicate ShowsNoEvidence(v: Evaluation) {
    var r := v.record;
    && NothingPlanned(v) && r.orgClass == OrgClass.Unknown && r.impactStatus.None?
    && (r.freshness == Freshness.AccessLost ==>
          r.state == RepoState.AccessLost && r.unknownReason == Some(UnknownReason.AccessLost))
    && (r.freshness == Freshness.Stale ==> r.state == RepoState.Stale && r.unknownReason == Some(StaleDiscovery))
    && (r.freshness == Freshness.Unknown ==> r.state == RepoState.Unknown && r.unknownReason == Some(NoDiscovery))
  }

  /** The counts, severity and commit of the impact. */
  ghost predicate ShowsImpact(engine: Engine, e: Entry, i: Impact, r: Record) {
    && r.impactStatus == Some(i.status) && r.directConsumers == i.directCount
    && r.potentialConsumers == i.potentialCount && r.transitiveConsumers == i.transitiveCount
    && r.severity == (if i.directCount > 0 then engine.compatibility
                      else if i.potentialCount > 0 then "potentially_breaking" else "none")
    && (i.commitSha.Some? && i.commitSha.value != "" ==> r.baseCommitSha == i.commitSha)
    && (i.commitSha.None? || i.commitSha.value == "" ==> IsCommit(e, r.baseCommitSha))
  }

  /** The state an affected repository has by its verification alone, before any pull request. */
  ghost function StateByOutcome(outcome: VerificationOutcome): RepoState {
    match outcome
    case Verified => RepoState.Verified
    case PartiallyVerified => RepoState.PartiallyVerified
    case Unverified => RepoState.Unverified
    case Failed => RepoState.Failed
    case RegressionDetected => RepoState.Failed
    case HumanRequired => RepoState.HumanRequired
  }

  ghost predicate ShowsWork(policy: Policy, e: Entry, v: Evaluation, plan: Plan, patch: Option<Patch>, bundle: Bundle,
                            body: string) {
    var r := v.record;
    && r.state == StateByOutcome(bundle.outcome) && r.orgClass == v.classification.orgClass == OrgClass.Affected
    && r.reasons == BoundReasons(BoundReasons([v.classification.reason]) + bundle.outcomeReasons)
    && v.patch == patch && v.bundle == Some(bundle) && v.prPlan.Some?
    && v.prPlan.value.repository == e.fullName && v.prPlan.value.body == body
    && r.publicationReadiness == Some(v.prPlan.value.eligibility)
    && (v.prPlan.value.eligibility == AutoOpen <==> bundle.outcome == VerificationOutcome.Verified)
    && (v.prPlan.value.eligibility == OpenWithOperatorApproval <==>
          bundle.outcome == VerificationOutcome.PartiallyVerified && policy.allowPartiallyVerified)
    && (v.prPlan.value.eligibility == PlanOnly <==> bundle.outcome == VerificationOutcome.HumanRequired)
    && r.migrationStatus == Some(plan.status) && (r.migrationStrategyAvailable <==> plan.automaticSteps > 0)
    && r.planFingerprint == Some(plan.fingerprint) && r.bundleFingerprint == Some(bundle.fingerprint)
    && r.patchFingerprint == (if patch.Some? then Some(patch.value.fingerprint) else None)
    && r.verificationOutcome == Some(bundle.outcome) && r.residualRisk == Some(bundle.residualRisk)
    && (r.verificationFeasibility == Sandbox <==> bundle.sandboxRan) && r.error.None?
    && (r.verificationFeasibility == StaticOnly <==> !bundle.sandboxRan)
    && |r.humanActions| <= 10 && (|plan.unresolved| <= 10 ==> |r.humanActions| == |plan.unresolved|)
    && forall k | 0 <= k < |r.humanActions| ::
         k < |plan.unresolved| && |r.humanActions[k]| <= 300 && r.humanActions[k] <= plan.unresolved[k]
         && (|plan.unresolved[k]| <= 300 ==> r.humanActions[k] == plan.unresolved[k])
  }

  /** What a classification that is not affected, or an affected one without any work, leaves. */
  ghost predicate ShowsClass(engine: Engine, policy: Policy, e: Entry, i: Impact, v: Evaluation) {
    var r := v.record;
    && NothingPlanned(v) && ShowsImpact(engine, e, i, r)
    && v.classification.hasMatch == i.hasMatches && v.classification.reason == i.reason
    && (i.status != ImpactStatus.Affected ==> r.reasons == BoundReasons([i.reason]))
    && (i.status == ImpactStatus.Affected ==>
          r.reasons == BoundReasons(BoundReasons([i.reason]) + [Text(
            if policy.watchMode in {Migrate, MigrateAndOpenPr} then NoCheckout else PolicyDetectsOnly)]))
    && match i.status
       case Affected => r.orgClass == OrgClass.Affected && r.state == RepoState.Impacted && r.unknownReason.None?
       case Uncertain =>
         r.orgClass == OrgClass.Unknown && r.state == RepoState.Unknown && r.unknownReason == Some(InsufficientEvidence)
       case Unaffected => r.orgClass == OrgClass.NotAffected && r.unknownReason.None?
  }

  ghost predicate ShowsEvidence(engine: Engine, policy: Policy, e: Entry, i: Option<Impact>, inventory: Option<string>,
                                v: Evaluation) {
    var r := v.record;
    if i.None? then
      && NothingPlanned(v) && r.orgClass == OrgClass.Unknown && r.state == RepoState.Unknown && r.impactStatus.None?
      && r.unknownReason == Some(NoDiscovery)
    else if i.value.status != ImpactStatus.Affected || policy.watchMode !in {Migrate, MigrateAndOpenPr}
            || e.root.None? || inventory.None? then ShowsClass(engine, policy, e, i.value, v)
    else ShowsMigration(engine, policy, e, i.value, inventory.value, e.root.value, v)
  }

  /** An affected repository to migrate: either all of the work shows, or its error does. */
  ghost predicate ShowsMigration(engine: Engine, policy: Policy, e: Entry, i: Impact, inventory: string, root: string,
                                 v: Evaluation) {
    exists sha :: IsWorkCommit(e, i, sha) &&
      (|| (exists plan, patch, bundle, body :: IsWork(engine, e, i, inventory, root, sha, plan, patch, bundle, body)
             && v.classification.reason == i.reason && v.classification.hasMatch == i.hasMatches
             && ShowsWork(policy, e, v, plan, patch, bundle, body) && ShowsImpact(engine, e, i, v.record))
       || (exists text :: WorkRaises(engine, e, i, inventory, root, sha, text) && FailedWith(v, engine.scrub(text))))
  }

  /** The commit all of the work is about, or an empty text. */
  ghost predicate IsWorkCommit(e: Entry, i: Impact, sha: string) {
    if i.commitSha.Some? && i.commitSha.value != "" then sha == i.commitSha.value
    else exists known :: IsCommit(e, known) && sha == if known.Some? then known.value else ""
  }

  /**
    * Whichever call raises: stale or lost evidence is not looked at, evidence that could not be had or that raises
    * leaves a failure, and otherwise the record shows the impact found by the best evidence and the work done for it.
    */
  ghost predicate Shows(engine: Engine, policy: Policy, e: Entry, v: Evaluation) {
    if v.record.freshness != Fresh then ShowsNoEvidence(v)
    else if e.evidenceError.Some? then FailedWith(v, engine.scrub(e.evidenceError.value))
    else
      || (exists text :: RaisesOnEvidence(engine, e, text) && FailedWith(v, engine.scrub(text)))
      || (exists i, inventory :: Supplies(engine, e, i, inventory) && ShowsEvidence(engine, policy, e, i, inventory, v))
  }

  lemma HumanActionsMean(p: Plan)
    ensures var h := HumanActions(p);
      && |h| <= 10 && (|p.unresolved| <= 10 ==> |h| == |p.unresolved|)
      && forall k | 0 <= k < |h| ::
           k < |p.unresolved| && |h[k]| <= 300 && h[k] <= p.unresolved[k]
           && (|p.unresolved[k]| <= 300 ==> h[k] == p.unresolved[k])
  {
  }

  lemma ImpactShows(engine: Engine, policy: Policy, now: int, e: Entry, i: Impact)
    ensures ShowsImpact(engine, e, i, ClassifiedRecord(engine, e, Fresh, now, Some(i)))
  {
    hide Text, BoundReasons, DeriveRepoState, Classify;
  }

  lemma ClassShows(engine: Engine, policy: Policy, now: int, e: Entry, i: Impact, reasons: seq<string>)
    requires var before := ClassifiedRecord(engine, e, Fresh, now, Some(i)).reasons;
      reasons == if i.status == ImpactStatus.Affected then BoundReasons(before + [WhyNotMigrated(policy)]) else before
    ensures var r := ClassifiedRecord(engine, e, Fresh, now, Some(i));
      ShowsClass(engine, policy, e, i, WithoutPlan(r.(reasons := reasons), Classify(e.fullName, Fresh, Some(i))))
  {
    hide Text, BoundReasons;
    ImpactShows(engine, policy, now, e, i);
  }

  lemma PlannedState(plan: Plan, patch: Option<Patch>, bundle: Bundle)
    ensures DeriveRepoState(PlannedFacts(Fresh, plan, patch, bundle)) == StateByOutcome(bundle.outcome)
  {
    match bundle.outcome
    case Verified => case PartiallyVerified => case Unverified => case Failed => case RegressionDetected =>
    case HumanRequired =>
  }

  lemma PlannedShows(engine: Engine, policy: Policy, now: int, e: Entry, i: Impact,
                     work: (Plan, Option<Patch>, Bundle, string))
    requires i.status == ImpactStatus.Affected
    ensures var c, r := Classify(e.fullName, Fresh, Some(i)), ClassifiedRecord(engine, e, Fresh, now, Some(i));
      var v := CampaignEvaluation.Planned(policy, e, c, r, work);
      && ShowsWork(policy, e, v, work.0, work.1, work.2, work.3) && ShowsImpact(engine, e, i, v.record)
      && v.record.freshness == r.freshness && v.classification.reason == i.reason
      && v.classification.hasMatch == i.hasMatches
  {
    hide Text, BoundReasons, DeriveRepoState, HumanActions;
    PlannedState(work.0, work.1, work.2);
    ImpactShows(engine, policy, now, e, i);
    HumanActionsMean(work.0);
  }

  lemma MigrationShows(engine: Engine, policy: Policy, now: int, e: Entry, i: Impact, inventory: string, root: string,
                       v: Evaluation)
    requires i.status == ImpactStatus.Affected && e.root == Some(root)
    requires var c, r := Classify(e.fullName, Fresh, Some(i)), ClassifiedRecord(engine, e, Fresh, now, Some(i));
      match PlanAndVerify(engine, e, i, inventory, root, r.baseCommitSha.GetOr(""))
      case Returned(work) => v == CampaignEvaluation.Planned(policy, e, c, r, work)
      case Raised(text) => v == FailedEvaluation(e, Fresh, now, EvaluationFailed, engine.scrub(text),
                                                 EvaluationIsolated)
    ensures ShowsMigration(engine, policy, e, i, inventory, root, v) && v.record.freshness == Fresh
  {
    hide Text, BoundReasons, CampaignEvaluation.Planned, PlanAndVerify, ClassifiedRecord, Classify, IsWork, WorkRaises,
         ShowsWork;
    var r := ClassifiedRecord(engine, e, Fresh, now, Some(i));
    var sha := r.baseCommitSha.GetOr("");
    ImpactShows(engine, policy, now, e, i);
    assert IsWorkCommit(e, i, sha);
    WorkMeans(engine, e, i, inventory, root, sha);
    match PlanAndVerify(engine, e, i, inventory, root, sha) {
      case Returned(work) =>
        ClassifiedIsFresh(engine, e, now);
        PlannedShows(engine, policy, now, e, i, work);
      case Raised(text) => assert FailedWith(v, engine.scrub(text));
    }
  }

  /** What an evaluation leaves, for every entry and whatever the engine answers. */
  lemma EvaluationShows(engine: Engine, policy: Policy, window: int, now: int, e: Entry)
    ensures var v := Evaluate(engine, policy, window, now, e);
      && Shows(engine, policy, e, v)
      && v.record.repository == v.classification.repository == e.fullName && v.record.evaluatedAt == Some(now)
      && (v.record.freshness == Fresh <==>
            && !e.accessLost && e.lastDiscoveryAt.Some?
            && e.lastDiscoveryAt.value - 5 * 60 <= now <= e.lastDiscoveryAt.value + window)
  {
    hide Text, BoundReasons, FindImpact, Inspect, ShowsEvidence, Supplies, RaisesOnEvidence;
    FreshExactlyInWindow(e.accessLost, e.lastDiscoveryAt, now, window);
    EvaluationIsHonest(engine, policy, window, now, e);
    var freshness := AssessFreshness(e.accessLost, e.lastDiscoveryAt, now, window);
    if freshness != Fresh {
      StaleShows(engine, policy, freshness, now, e);
    } else if e.evidenceError.None? {
      FreshShows(engine, policy, now, e);
    }
  }

  lemma StaleShows(engine: Engine, policy: Policy, freshness: Freshness, now: int, e: Entry)
    requires freshness != Fresh
    ensures var inspected := Inspect(engine, policy, freshness, now, e);
      inspected.Returned? && inspected.value.record.freshness == freshness && ShowsNoEvidence(inspected.value)
  {
    hide Text, BoundReasons;
  }

  lemma FreshShows(engine: Engine, policy: Policy, now: int, e: Entry)
    requires e.evidenceError.None?
    ensures var v := Evaluated(engine, policy, now, e);
      v.record.freshness == Fresh && Shows(engine, policy, e, v)
  {
    hide Text, BoundReasons, FindImpact, ShowsMigration, ShowsClass, Supplies, RaisesOnEvidence, ClassifiedRecord,
         CampaignEvaluation.Planned, PlanAndVerify, WhyNotMigrated, Classify;
    FindImpactMeans(engine, e);
    ClassifiedIsFresh(engine, e, now);
    if FindImpact(engine, e).Returned? {
      var found := FindImpact(engine, e).value;
      if found.0.None? {
        NoImpactShows(engine, e, now);
      } else {
        var i := found.0.value;
        ClassifyMeans(e.fullName, Fresh, Some(i));
        var r := ClassifiedRecord(engine, e, Fresh, now, Some(i));
        ClassShows(engine, policy, now, e, i, if i.status == ImpactStatus.Affected then
                     BoundReasons(r.reasons + [WhyNotMigrated(policy)]) else r.reasons);
        assert r.(reasons := r.reasons) == r;
        if i.status == ImpactStatus.Affected && Migrates(policy) && e.root.Some? && found.1.Some? {
          var v := Evaluated(engine, policy, now, e);
          MigrationShows(engine, policy, now, e, i, found.1.value, e.root.value, v);
        }
      }
    }
  }

  function Evaluated(engine: Engine, policy: Policy, now: int, e: Entry): Evaluation {
    match Inspect(engine, policy, Fresh, now, e)
    case Returned(evaluation) => evaluation
    case Raised(error) => FailedEvaluation(e, Fresh, now, EvaluationFailed, engine.scrub(error), EvaluationIsolated)
  }

  lemma ClassifiedIsFresh(engine: Engine, e: Entry, now: int)
    ensures forall i :: ClassifiedRecord(engine, e, Fresh, now, i).freshness == Fresh
  {
    hide Text, BoundReasons, DeriveRepoState, Classify;
  }

  lemma NoImpactShows(engine: Engine, e: Entry, now: int)
    ensures var c := Classify(e.fullName, Fresh, None);
      var v := WithoutPlan(ClassifiedRecord(engine, e, Fresh, now, None), c);
      && c.orgClass == OrgClass.Unknown && NothingPlanned(v) && v.record.orgClass == OrgClass.Unknown
      && v.record.state == RepoState.Unknown && v.record.impactStatus.None?
         && v.record.unknownReason == Some(NoDiscovery)
  {
    hide Text, BoundReasons;
  }
}
