/** From the facts about one repository to its state, and from all states to the campaign's. */
module CampaignStates {
  import opened Wrappers
  import opened CampaignDomain

  datatype RepoFacts = RepoFacts(
    freshness: Freshness,
    orgClass: OrgClass,
    everAffected: bool,
    migrationStatus: Option<MigrationStatus>,
    hasAutomaticSteps: bool,
    patchGenerated: bool,
    outcome: Option<VerificationOutcome>,
    prStatus: Option<PrStatus>,
    prNumber: Option<int>,
    failed: bool)

  /** The facts of a repository for which nothing was planned. */
  function Unplanned(freshness: Freshness, orgClass: OrgClass, everAffected: bool): RepoFacts {
    RepoFacts(freshness, orgClass, everAffected, None, false, false, None, None, None, false)
  }

  function DeriveRepoState(f: RepoFacts): RepoState {
    if f.failed then RepoState.Failed
    else if f.freshness == Freshness.AccessLost then RepoState.AccessLost
    else if f.freshness == Freshness.Stale then RepoState.Stale
    else if f.freshness == Freshness.Unknown then RepoState.Unknown
    else if f.orgClass == OrgClass.NotAffected then if f.everAffected then RepoState.Resolved else RepoState.NotAffected
    else if f.orgClass == OrgClass.Unknown then RepoState.Unknown
    else if f.outcome == Some(RegressionDetected) || f.outcome == Some(VerificationOutcome.Failed) then RepoState.Failed
    else if f.outcome == Some(VerificationOutcome.HumanRequired) then RepoState.HumanRequired
    else if f.prStatus == Some(NoOpUnchanged) && f.prNumber.Some? then RepoState.HumanRequired
    else if HasOpenPr(f) && (f.outcome == Some(VerificationOutcome.Verified)
                             || f.outcome == Some(VerificationOutcome.PartiallyVerified)) then RepoState.PrOpened
    else if f.outcome == Some(VerificationOutcome.Verified) then RepoState.Verified
    else if f.outcome == Some(VerificationOutcome.PartiallyVerified) then RepoState.PartiallyVerified
    else if f.outcome == Some(VerificationOutcome.Unverified) then RepoState.Unverified
    else if f.migrationStatus == Some(MigrationStatus.HumanRequired) || f.migrationStatus == Some(Unsupported) then
      RepoState.HumanRequired
    else if f.migrationStatus == Some(MigrationStatus.Failed) then RepoState.Failed
    else if f.patchGenerated then RepoState.PatchGenerated
    else if IsPlanned(f) && f.hasAutomaticSteps then RepoState.MigrationPlanned
    else if IsPlanned(f) then RepoState.HumanRequired
    else RepoState.Impacted
  }

  predicate HasOpenPr(f: RepoFacts) { (f.prStatus == Some(Opened) || f.prStatus == Some(Updated)) && f.prNumber.Some? }

  predicate IsPlanned(f: RepoFacts) {
    f.migrationStatus == Some(MigrationStatus.Planned) || f.migrationStatus == Some(MigrationStatus.PatchGenerated)
    || f.migrationStatus == Some(Partial)
  }

  /** Nothing but fresh evidence that the repository is not affected counts as done; a pull request does not. */
  lemma DoneOnlyByFreshEvidence(f: RepoFacts)
    ensures IsDone(DeriveRepoState(f)) <==> !f.failed && f.freshness == Fresh && f.orgClass == OrgClass.NotAffected
    ensures DeriveRepoState(f) == RepoState.Resolved <==>
      !f.failed && f.freshness == Fresh && f.orgClass == OrgClass.NotAffected && f.everAffected
  {
  }

  /** A repository that is not settled: what it failed at, or what is missing to look at it. */
  lemma UnsettledStateMeans(f: RepoFacts)
    ensures f.failed ==> DeriveRepoState(f) == RepoState.Failed
    ensures !f.failed && f.freshness == Freshness.AccessLost ==> DeriveRepoState(f) == RepoState.AccessLost
    ensures !f.failed && f.freshness == Freshness.Stale ==> DeriveRepoState(f) == RepoState.Stale
    ensures !f.failed && f.freshness == Freshness.Unknown ==> DeriveRepoState(f) == RepoState.Unknown
    ensures !f.failed && f.freshness == Fresh && f.orgClass == OrgClass.Unknown ==>
      DeriveRepoState(f) == RepoState.Unknown
  {
  }

  /** A pull request was left as it is although it exists. */
  ghost predicate IsStuck(f: RepoFacts) { f.prStatus == Some(NoOpUnchanged) && f.prNumber.Some? }

  ghost predicate IsOpen(f: RepoFacts) { f.prStatus in {Some(Opened), Some(Updated)} && f.prNumber.Some? }

  ghost predicate NeedsHuman(f: RepoFacts) {
    f.migrationStatus in {Some(MigrationStatus.HumanRequired), Some(Unsupported)}
  }

  ghost predicate HasPlan(f: RepoFacts) {
    f.migrationStatus in {Some(MigrationStatus.Planned), Some(MigrationStatus.PatchGenerated), Some(Partial)}
  }

  /** Nothing was verified, and neither a pull request nor a failed or manual migration stands in the way. */
  ghost predicate IsUntried(f: RepoFacts) {
    f.outcome.None? && !IsStuck(f) && !NeedsHuman(f) && f.migrationStatus != Some(MigrationStatus.Failed)
  }

  /**
    * Every state of a freshly affected repository, both ways, by its verification, its pull request and its migration.
    */
  lemma AffectedStateMeans(f: RepoFacts)
    requires !f.failed && f.freshness == Fresh && f.orgClass == OrgClass.Affected
    ensures var s, o := DeriveRepoState(f), f.outcome;
      && (s == RepoState.PrOpened <==>
            IsOpen(f) && o in {Some(VerificationOutcome.Verified), Some(VerificationOutcome.PartiallyVerified)})
      && (s == RepoState.Verified <==> o == Some(VerificationOutcome.Verified) && !IsOpen(f) && !IsStuck(f))
      && (s == RepoState.PartiallyVerified <==>
            o == Some(VerificationOutcome.PartiallyVerified) && !IsOpen(f) && !IsStuck(f))
      && (s == RepoState.Unverified <==> o == Some(VerificationOutcome.Unverified) && !IsStuck(f))
      && (s == RepoState.Failed <==>
            || o in {Some(RegressionDetected), Some(VerificationOutcome.Failed)}
            || (o.None? && !IsStuck(f) && f.migrationStatus == Some(MigrationStatus.Failed)))
      && (s == RepoState.HumanRequired <==>
            || o == Some(VerificationOutcome.HumanRequired)
            || (IsStuck(f) && o !in {Some(RegressionDetected), Some(VerificationOutcome.Failed)})
            || (o.None? && NeedsHuman(f)) || (IsUntried(f) && !f.patchGenerated && HasPlan(f) && !f.hasAutomaticSteps))
      && (s == RepoState.PatchGenerated <==> IsUntried(f) && f.patchGenerated)
      && (s == RepoState.MigrationPlanned <==>
            IsUntried(f) && !f.patchGenerated && HasPlan(f) && f.hasAutomaticSteps)
      && (s == RepoState.Impacted <==> IsUntried(f) && !f.patchGenerated && !HasPlan(f))
  {
    if f.outcome.Some? {
      match f.outcome.value
      case Verified =>
      case PartiallyVerified =>
      case Unverified =>
      case Failed =>
      case RegressionDetected =>
      case HumanRequired =>
    }
  }

  /** An opened pull request and an updated one are the same fact. */
  lemma OpenedIsUpdated(f: RepoFacts)
    ensures DeriveRepoState(f.(prStatus := Some(Opened))) == DeriveRepoState(f.(prStatus := Some(Updated)))
  {
  }

  /** `None` marks a repository in scope that has not been evaluated yet. */
  function DeriveCampaignState(states: seq<Option<RepoState>>): CampaignState {
    if forall s | s in states :: s.None? then CampaignState.Detected
    else if None in states then Analyzing
    else if forall s | s in states :: IsDone(s.value) then CampaignState.Resolved
    else if Some(RepoState.Resolved) in states then PartiallyResolved
    else if exists s | s in states :: IsBlocking(s.value) then
      if (forall s | s in states :: !IsInFlight(s.value))
         && (forall s | s in states && IsBlocking(s.value) :: IsSystemBlocked(s.value)) then Blocked
      else ActionRequired
    else Migrating
  }

  /** Every state is in exactly one of the three families, so no repository can be rounded away. */
  lemma FamiliesPartitionStates(s: RepoState)
    ensures IsDone(s) || IsInFlight(s) || IsBlocking(s)
    ensures !(IsDone(s) && IsInFlight(s)) && !(IsInFlight(s) && IsBlocking(s)) && !(IsDone(s) && IsBlocking(s))
    ensures IsSystemBlocked(s) ==> IsBlocking(s)
  {
  }

  ghost predicate AllEvaluated(states: seq<Option<RepoState>>) { states != [] && forall s | s in states :: s.Some? }

  /** What each campaign state says about the repositories, for every list of evaluated states. */
  lemma CampaignStateMeans(states: seq<Option<RepoState>>)
    requires AllEvaluated(states)
    ensures var c := DeriveCampaignState(states);
      && (c == CampaignState.Resolved <==> forall s | s in states :: IsDone(s.value))
      && (c == PartiallyResolved <==>
            Some(RepoState.Resolved) in states && exists s | s in states :: !IsDone(s.value))
      && (c == Migrating <==>
            && Some(RepoState.Resolved) !in states
            && (exists s | s in states :: IsInFlight(s.value)) && forall s | s in states :: !IsBlocking(s.value))
      && (c == Blocked <==>
            && Some(RepoState.Resolved) !in states
            && (exists s | s in states :: IsBlocking(s.value))
            && forall s | s in states :: IsSystemBlocked(s.value) || s.value == RepoState.NotAffected)
      && c != CampaignState.Detected && c != Analyzing
  {
    assert states[0] in states;
    forall s | s in states ensures IsDone(s.value) || IsInFlight(s.value) || IsBlocking(s.value) {
      FamiliesPartitionStates(s.value);
    }
  }
}
