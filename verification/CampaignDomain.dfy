/** The vocabulary of compatibility campaigns: states, records, blast radius, campaign. */
module CampaignDomain {
  import opened Wrappers
  import PythonText
  import opened Connectivity

  datatype Freshness = Fresh | Stale | Unknown | AccessLost

  datatype RepoState =
    | NotAffected | Impacted | MigrationPlanned | PatchGenerated | Verifying | Verified
    | PartiallyVerified | HumanRequired | Failed | PrOpened | Resolved | Stale | Unknown | AccessLost | Unverified

  datatype CampaignState = Detected | Analyzing | ActionRequired | Migrating | PartiallyResolved | Resolved | Blocked

  datatype OrgClass = NotAffected | Affected | Unknown

  datatype UnknownReason = StaleDiscovery | NoDiscovery | AccessLost | InsufficientEvidence

  datatype ImpactStatus = Affected | Uncertain | Unaffected

  datatype MigrationStatus = NotRequired | Planned | PatchGenerated | Partial | HumanRequired | Unsupported | Failed

  datatype VerificationOutcome = Verified | PartiallyVerified | Unverified | Failed | RegressionDetected | HumanRequired

  datatype Feasibility = Sandbox | StaticOnly | NotApplicable

  datatype Eligibility = AutoOpen | OpenWithOperatorApproval | PlanOnly | NotEligible

  datatype PrStatus =
    | Planned | DryRun | Publishing | Opened | Updated | NoOpUnchanged | SkippedNotEligible
    | StaleRequiresRegeneration | Failed

  predicate IsInFlight(s: RepoState) {
    s in {RepoState.MigrationPlanned, RepoState.PatchGenerated, RepoState.Verifying, RepoState.Verified,
          RepoState.PrOpened}
  }

  predicate IsBlocking(s: RepoState) {
    s in {RepoState.Impacted, RepoState.HumanRequired, RepoState.Failed, RepoState.PartiallyVerified,
          RepoState.Unverified, RepoState.Stale, RepoState.Unknown, RepoState.AccessLost}
  }

  predicate IsDone(s: RepoState) { s in {RepoState.NotAffected, RepoState.Resolved} }

  predicate IsSystemBlocked(s: RepoState) { s in {RepoState.Failed, RepoState.AccessLost} }

  /** Everything a campaign knows about one repository. */
  datatype Record = Record(
    repository: string,
    state: RepoState,
    orgClass: OrgClass,
    freshness: Freshness,
    unknownReason: Option<UnknownReason>,
    impactStatus: Option<ImpactStatus>,
    directConsumers: nat,
    transitiveConsumers: nat,
    potentialConsumers: nat,
    severity: string,
    migrationStatus: Option<MigrationStatus>,
    migrationStrategyAvailable: bool,
    verificationFeasibility: Feasibility,
    verificationOutcome: Option<VerificationOutcome>,
    publicationReadiness: Option<Eligibility>,
    baseCommitSha: Option<string>,
    planFingerprint: Option<string>,
    patchFingerprint: Option<string>,
    bundleFingerprint: Option<string>,
    prStatus: Option<PrStatus>,
    prNumber: Option<int>,
    prUrl: Option<string>,
    residualRisk: Option<string>,
    everAffected: bool,
    reasons: seq<string>,
    humanActions: seq<string>,
    error: Option<string>,
    evaluatedAt: Option<int>)

  datatype BlastRadius = BlastRadius(
    totalEnrolled: nat,
    potentiallyRelevant: nat,
    affected: seq<string>,
    notAffected: seq<string>,
    unknown: seq<string>,
    unknownReasons: map<string, UnknownReason>)

  /** True only when every enrolled repository is positively known to be unaffected. */
  predicate IsSafe(b: BlastRadius) { b.totalEnrolled > 0 && b.affected == [] && b.unknown == [] }

  /** What a hash of workspace, upstream change and engine version stands for. */
  datatype CampaignId = CampaignId(workspaceKey: string, changeFingerprint: string, engineVersion: nat)

  const CAMPAIGN_ENGINE_VERSION := 1

  datatype Origin = External | Internal

  /** One line of what is still open. */
  datatype Risk =
    | WatchOff
    | Open(repository: string, state: RepoState, detail: Option<string>)
    | Unclassified(count: nat)

  datatype Campaign = Campaign(
    id: CampaignId,
    workspaceKey: string,
    changeFingerprint: string,
    dependencyLabel: string,
    providerKey: Option<string>,
    origin: Origin,
    discoveredAt: int,
    state: CampaignState,
    blast: BlastRadius,
    records: seq<Record>,
    unresolvedRisks: seq<Risk>,
    version: int,
    engineVersion: nat,
    producerRepository: Option<string>,
    oldVersion: Option<string>,
    newVersion: Option<string>,
    compatibility: Option<string>)

  /** The first record of that name. */
  function RecordFor(records: seq<Record>, name: string): (r: Option<Record>)
    ensures r.Some? ==> r.value in records && r.value.repository == name
    ensures r.None? ==> forall x | x in records :: x.repository != name
  {
    if records == [] then None
    else if records[0].repository == name then Some(records[0])
    else RecordFor(records[1..], name)
  }

  // ----- Bounded text

  const MAX_REASON_CHARS := 400
  const MAX_REASONS := 12

  function Bounded<T>(xs: seq<T>, n: nat): seq<T> { if |xs| > n then xs[..n] else xs }

  /** The reasons stripped, cut and without blanks or repetitions, in order of first appearance. */
  function Distinct(reasons: seq<string>): seq<string> {
    if reasons == [] then []
    else
      var seen := Distinct(reasons[..|reasons| - 1]);
      var text := Bounded(PythonText.Strip(reasons[|reasons| - 1]), MAX_REASON_CHARS);
      if text != [] && text !in seen then seen + [text] else seen
  }

  function BoundReasons(reasons: seq<string>): seq<string> { Bounded(Distinct(reasons), MAX_REASONS) }

  function CutText(reason: string): string { Bounded(PythonText.Strip(reason), MAX_REASON_CHARS) }

  /** The reason says something, and none before it says the same. */
  ghost predicate IsNews(reasons: seq<string>, k: nat)
    requires k < |reasons|
  {
    CutText(reasons[k]) != "" && forall j | 0 <= j < k :: CutText(reasons[j]) != CutText(reasons[k])
  }

  ghost predicate AreNews(reasons: seq<string>, at: seq<nat>, texts: seq<string>) {
    && Increasing(at) && (forall k: nat :: k in at <==> k < |reasons| && IsNews(reasons, k))
    && |texts| == |at| && forall i | 0 <= i < |at| :: at[i] < |reasons| && texts[i] == CutText(reasons[at[i]])
  }

  /** What is kept, in order: exactly the texts of the reasons that are news. */
  lemma {:induction false} DistinctAreNews(reasons: seq<string>)
    ensures exists at :: AreNews(reasons, at, Distinct(reasons))
    decreases |reasons|
  {
    hide PythonText.Strip, Bounded, IsNews;
    if reasons == [] {
      assert Distinct(reasons) == [] && AreNews(reasons, [], Distinct(reasons));
    } else {
      var n := |reasons| - 1;
      var front, last := reasons[..n], reasons[n];
      DistinctAreNews(front);
      var at :| AreNews(front, at, Distinct(front));
      assert reasons == front + [last];
      NewsWithLast(front, at, Distinct(front), last);
      var isNew := CutText(last) != "" && CutText(last) !in Distinct(front);
      assert Distinct(reasons) == if isNew then Distinct(front) + [CutText(last)] else Distinct(front);
    }
  }

  lemma NewsWithLast(front: seq<string>, at: seq<nat>, texts: seq<string>, last: string)
    requires AreNews(front, at, texts)
    ensures var more := CutText(last) != "" && CutText(last) !in texts;
      AreNews(front + [last], if more then at + [|front|] else at, if more then texts + [CutText(last)] else texts)
  {
    hide CutText;
    var all, n := front + [last], |front|;
    SaidBefore(front, at, texts, CutText(last));
    var isNew := CutText(last) != "" && CutText(last) !in texts;
    var more := if isNew then at + [n] else at;
    assert forall i | 0 <= i < |at| :: at[i] in at;
    assert forall k | 0 <= k < n :: all[k] == front[k];
    forall k: nat ensures k in more <==> k < |all| && IsNews(all, k) {
      assert k in more <==> k in at || (isNew && k == n);
      if k < n {
        assert IsNews(all, k) <==> IsNews(front, k);
      } else if k == n {
        assert IsNews(all, n) <==> CutText(last) != "" && forall j | 0 <= j < n :: CutText(front[j]) != CutText(last);
      }
    }
  }

  /** A text is kept exactly if some reason so far says it. */
  lemma SaidBefore(reasons: seq<string>, at: seq<nat>, texts: seq<string>, text: string)
    requires AreNews(reasons, at, texts)
    ensures text in texts <==> text != "" && exists j :: 0 <= j < |reasons| && CutText(reasons[j]) == text
  {
    hide CutText;
    if text in texts {
      var i :| 0 <= i < |texts| && texts[i] == text;
      assert at[i] in at;
    }
    if j :| 0 <= j < |reasons| && text != "" && CutText(reasons[j]) == text {
      var k := FirstSaying(reasons, j, text);
      assert k in at;
      var i :| 0 <= i < |at| && at[i] == k;
      assert texts[i] == text;
    }
  }

  lemma {:induction false} FirstSaying(reasons: seq<string>, j: nat, text: string) returns (k: nat)
    requires j < |reasons| && text != "" && CutText(reasons[j]) == text
    ensures k < |reasons| && CutText(reasons[k]) == text && IsNews(reasons, k)
    decreases j
  {
    hide CutText;
    if i: nat :| i < j && CutText(reasons[i]) == text {
      k := FirstSaying(reasons, i, text);
    } else {
      k := j;
    }
  }

  method CollectReasons(reasons: seq<string>) returns (r: seq<string>)
    ensures r == BoundReasons(reasons)
  {
    hide PythonText.Strip;
    var seen: seq<string> := [];
    for k := 0 to |reasons|
      invariant seen == Distinct(reasons[..k])
    {
      assert reasons[..k + 1][..k] == reasons[..k];
      var text := Bounded(PythonText.Strip(reasons[k]), MAX_REASON_CHARS);
      if text != [] && text !in seen {
        seen := seen + [text];
      }
    }
    assert reasons[..|reasons|] == reasons;
    r := Bounded(seen, MAX_REASONS);
  }

  /** The longest beginning of the stripped text that has at most 400 characters. */
  lemma CutTextIsLongest(reason: string)
    ensures var cut, text := CutText(reason), PythonText.Strip(reason);
      cut <= text && |cut| <= 400 && (|cut| < 400 ==> cut == text)
  {
    hide PythonText.Strip;
  }

  /** Reasons stay within their bounds: at most twelve, each non-empty and at most 400 characters, none twice. */
  lemma {:induction false} ReasonsAreBounded(reasons: seq<string>)
    ensures var kept, all := BoundReasons(reasons), Distinct(reasons);
      |kept| <= 12 && kept <= all && (|kept| < 12 ==> kept == all)
    ensures forall t | t in Distinct(reasons) :: 0 < |t| <= 400
    ensures forall i, j | 0 <= i < j < |Distinct(reasons)| :: Distinct(reasons)[i] != Distinct(reasons)[j]
    decreases |reasons|
  {
    hide PythonText.Strip;
    if reasons != [] {
      ReasonsAreBounded(reasons[..|reasons| - 1]);
    }
  }
}
