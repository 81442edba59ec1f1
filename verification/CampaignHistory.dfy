/** Sequences of runs: what accumulates, what a resolved record must have behind it, and what forgets. */
module CampaignHistory {
  import opened Wrappers
  import opened Ordering
  import opened CampaignDomain
  import opened CampaignStates
  import opened CampaignEvaluation
  import opened CampaignRun
  import opened CampaignSafety
  import opened CampaignRerun

  /** The campaign after these runs, each given the one before it. */
  function After(inputs: seq<RunInput>): (c: Option<Campaign>)
    ensures c.None? <==> inputs == []
  {
    if inputs == [] then None else Some(Run(inputs[|inputs| - 1], After(inputs[..|inputs| - 1])).campaign)
  }

  // ----- Versions

  /** How many of the runs after the first analyzed and found the campaign changed. */
  function Changes(inputs: seq<RunInput>): nat {
    if |inputs| <= 1 then 0
    else
      var last, before := inputs[|inputs| - 1], inputs[..|inputs| - 1];
      Changes(before) + if Analyzes(last.policy) && Run(last, After(before)).changed then 1 else 0
  }

  /** The version counts the changes, over every sequence of runs; runs with watching off leave it alone. */
  lemma {:induction false} VersionCountsChanges(inputs: seq<RunInput>)
    requires inputs != []
    ensures After(inputs).value.version == 1 + Changes(inputs)
    decreases |inputs|
  {
    hide Outcomes, BuildBlastRadius, DeriveCampaignState, UnresolvedRisks, IsSame, DecisionsOf, PublicationsOf, CallsOf;
    if |inputs| > 1 {
      VersionCountsChanges(inputs[..|inputs| - 1]);
    } else {
      assert inputs[..|inputs| - 1] == [];
    }
  }

  /** What counts as a change: the campaign's state, or some record in more than its time or opened/updated. */
  lemma ChangedExactlyWhen(input: RunInput, previous: Campaign)
    requires Analyzes(input.policy) && Ascending(previous.records, RecordLe)
    ensures var c := Run(input, Some(previous)).campaign;
      Run(input, Some(previous)).changed <==> c.state != previous.state || !SameNormals(previous.records, c.records)
  {
    hide Outcomes, BuildBlastRadius, DeriveCampaignState, UnresolvedRisks, DecisionsOf, PublicationsOf, CallsOf,
         RecordLe, Normal;
    var c := Run(input, Some(previous)).campaign;
    RecordsAscend(input, Some(previous));
    SignatureOfAscending(previous.records);
    SignatureOfAscending(c.records);
    if SameNormals(previous.records, c.records) {
      assert NormalAll(previous.records) == NormalAll(c.records);
    } else if NormalAll(previous.records) == NormalAll(c.records) {
      forall k | 0 <= k < |c.records| ensures Normal(c.records[k]) == Normal(previous.records[k]) {
        assert NormalAll(c.records)[k] == NormalAll(previous.records)[k];
      }
    }
  }

  // ----- Having been affected is never forgotten by an analyzing run

  predicate RecordsAsEver(c: Campaign, name: string) {
    var r := RecordFor(c.records, name); r.Some? && r.value.everAffected
  }

  predicate InScope(input: RunInput, name: string) { exists e | e in Base(input) :: e.fullName == name }

  lemma EverStaysInOneRun(input: RunInput, previous: Campaign, name: string)
    requires Analyzes(input.policy) && InScope(input, name) && RecordsAsEver(previous, name)
    ensures RecordsAsEver(Run(input, Some(previous)).campaign, name)
    ensures forall r | r in Run(input, Some(previous)).campaign.records && r.repository == name :: r.everAffected
  {
    hide Run, Base, FinalRecord, IsAffectedNow;
    var base, records := Base(input), Run(input, Some(previous)).campaign.records;
    RecordsByEntry(input, Some(previous));
    forall k | 0 <= k < |base| ensures records[k].repository == base[k].fullName
                               ensures base[k].fullName == name ==> records[k].everAffected {
      NameOfFinal(input, Some(previous), base[k]);
      ShowsPast(input, Some(previous), base[k]);
      assert base[k].fullName == name ==> HadPast(Some(previous), base[k]);
    }
    RecordForIsFirst(base, records, name);
  }

  /** One run keeps the flag of a repository exactly if it analyzes and has the repository in scope. */
  lemma EverIsKeptExactlyWhen(input: RunInput, previous: Campaign, name: string)
    requires RecordsAsEver(previous, name)
    ensures RecordsAsEver(Run(input, Some(previous)).campaign, name) <==> Analyzes(input.policy) && InScope(input, name)
  {
    hide Base, FinalRecord, Outcomes, BuildBlastRadius, DeriveCampaignState, UnresolvedRisks, IsSame, DecisionsOf,
         PublicationsOf, CallsOf;
    if Analyzes(input.policy) && InScope(input, name) {
      EverStaysInOneRun(input, previous, name);
    }
    var found := RecordFor(Run(input, Some(previous)).campaign.records, name);
    if found.Some? {
      var e := RecordHasEntry(input, Some(previous), found.value);
      NameOfFinal(input, Some(previous), e);
      assert e in Base(input) && e.fullName == name;
    }
  }

  /** Over any stretch of analyzing runs that keep the repository in scope, the flag never goes back. */
  lemma {:induction false} EverStays(inputs: seq<RunInput>, from: nat, name: string)
    requires 1 <= from <= |inputs| && RecordsAsEver(After(inputs[..from]).value, name)
    requires forall k | from <= k < |inputs| :: Analyzes(inputs[k].policy) && InScope(inputs[k], name)
    ensures RecordsAsEver(After(inputs).value, name)
    decreases |inputs|
  {
    hide Run, RecordsAsEver, InScope;
    if from == |inputs| {
      assert inputs[..from] == inputs;
    } else {
      var n := |inputs| - 1;
      assert inputs[..n][..from] == inputs[..from];
      EverStays(inputs[..n], from, name);
      EverStaysInOneRun(inputs[n], After(inputs[..n]).value, name);
    }
  }

  // ----- Resolved has a cause

  predicate IsRecordedAffected(c: Option<Campaign>, name: string) {
    c.Some? && exists r | r in c.value.records :: r.repository == name && r.orgClass == OrgClass.Affected
  }

  ghost predicate RecordedInRun(inputs: seq<RunInput>, k: nat, name: string)
    requires k < |inputs|
  {
    IsRecordedAffected(After(inputs[..k + 1]), name)
  }

  /** One of the first `n` runs recorded the repository as affected. */
  ghost predicate WasAffectedBy(inputs: seq<RunInput>, n: nat, name: string)
    requires n <= |inputs|
  {
    exists k: nat | k < n :: RecordedInRun(inputs, k, name)
  }

  predicate BringsNoHistory(input: RunInput) { forall e | e in input.entries :: e.previous.None? }

  lemma RecordHasEntry(input: RunInput, previous: Option<Campaign>, r: Record) returns (e: Entry)
    requires r in Run(input, previous).campaign.records
    ensures Analyzes(input.policy) && e in Base(input) && e in input.entries && r == FinalRecord(input, previous, e)
  {
    hide Base, FinalRecord, Outcomes, BuildBlastRadius, DeriveCampaignState, UnresolvedRisks, IsSame, DecisionsOf,
         PublicationsOf, CallsOf;
    assert Analyzes(input.policy);
    RecordsByEntry(input, previous);
    var records := Run(input, previous).campaign.records;
    var k :| 0 <= k < |records| && records[k] == r;
    e := Base(input)[k];
    BaseIsInEntries(input, e);
  }

  /** What the history of an entry rests on: the record the previous campaign has for its name. */
  lemma PastComesFromRecord(previous: Option<Campaign>, e: Entry)
    requires e.previous.None? && HadPast(previous, e)
    ensures previous.Some? && RecordsAsEver(previous.value, e.fullName)
  {
  }

  lemma {:induction false} EverHasCause(inputs: seq<RunInput>, r: Record)
    requires forall input | input in inputs :: BringsNoHistory(input)
    requires inputs != [] && r in After(inputs).value.records && r.everAffected
    ensures WasAffectedBy(inputs, |inputs|, r.repository)
    decreases |inputs|
  {
    hide Run, FinalRecord, Base, IsAffectedNow, IsRecordedAffected, HadPast, BringsNoHistory;
    var n := |inputs| - 1;
    var last, before := inputs[n], After(inputs[..n]);
    var e := RecordHasEntry(last, before, r);
    NameOfFinal(last, before, e);
    ShowsPast(last, before, e);
    assert inputs[..n + 1] == inputs;
    if IsAffectedNow(last, before, e) {
      RecordedAffected(last, before, e, r);
      assert RecordedInRun(inputs, n, r.repository);
    } else {
      assert e.previous.None? by { EntryBringsNothing(last, e); }
      PastComesFromRecord(before, e);
      var past := RecordFor(before.value.records, e.fullName).value;
      assert inputs[..n] != [];
      EverHasCause(inputs[..n], past);
      CauseCarriesOver(inputs, n, r.repository);
    }
  }

  lemma EntryBringsNothing(input: RunInput, e: Entry)
    requires BringsNoHistory(input) && e in input.entries
    ensures e.previous.None?
  {
  }

  lemma RecordedAffected(input: RunInput, previous: Option<Campaign>, e: Entry, r: Record)
    requires IsAffectedNow(input, previous, e) && r == FinalRecord(input, previous, e)
    requires r in Run(input, previous).campaign.records
    ensures IsRecordedAffected(Some(Run(input, previous).campaign), r.repository)
  {
    hide Run, EvaluationFor, PublishUnder, WithPast;
    FinalIsHonest(input, previous, e);
  }

  lemma CauseCarriesOver(inputs: seq<RunInput>, n: nat, name: string)
    requires n < |inputs| && WasAffectedBy(inputs[..n], n, name)
    ensures WasAffectedBy(inputs, n, name)
  {
    hide IsRecordedAffected, After;
    var k: nat :| k < n && RecordedInRun(inputs[..n], k, name);
    assert inputs[..n][..k + 1] == inputs[..k + 1];
    assert RecordedInRun(inputs, k, name);
  }

  /**
    * A record is resolved only if the run that made it saw fresh evidence of no effect, and some strictly earlier run
    * recorded the repository as affected. An opened pull request or a generated patch never resolves anything.
    */
  lemma ResolvedHasCause(inputs: seq<RunInput>, r: Record)
    requires forall input | input in inputs :: BringsNoHistory(input)
    requires inputs != [] && r in After(inputs).value.records && r.state == RepoState.Resolved
    ensures r.freshness == Fresh && r.orgClass == OrgClass.NotAffected
    ensures WasAffectedBy(inputs, |inputs| - 1, r.repository)
  {
    hide Run, FinalRecord, Base, IsAffectedNow, IsRecordedAffected, HadPast, BringsNoHistory;
    var n := |inputs| - 1;
    var last, before := inputs[n], After(inputs[..n]);
    var e := RecordHasEntry(last, before, r);
    ResolvedRecord(last, before, e);
    NameOfFinal(last, before, e);
    assert e.previous.None? by { EntryBringsNothing(last, e); }
    PastComesFromRecord(before, e);
    var past := RecordFor(before.value.records, e.fullName).value;
    EverHasCause(inputs[..n], past);
    CauseCarriesOver(inputs, n, r.repository);
  }

  lemma ResolvedRecord(input: RunInput, previous: Option<Campaign>, e: Entry)
    requires FinalRecord(input, previous, e).state == RepoState.Resolved
    ensures var r := FinalRecord(input, previous, e);
      r.freshness == Fresh && r.orgClass == OrgClass.NotAffected && HadPast(previous, e)
  {
    hide EvaluationFor, PublishUnder, WithPast;
    FinalIsHonest(input, previous, e);
  }

  // ----- Switching the watch off forgets

  /**
    * A run with watching off empties the records while it reports no change, so afterwards a repository that was
    * affected before and is not any more reads as never affected; without that run it would read as resolved.
    */
  lemma WatchOffForgets(off: RunInput, on: RunInput, previous: Campaign, e: Entry)
    requires !Analyzes(off.policy) && Analyzes(on.policy)
    requires e in Base(on) && e.previous.None? && RecordsAsEver(previous, e.fullName)
    requires EvaluationFor(on, Some(previous), e).classification.orgClass == OrgClass.NotAffected
    ensures !Run(off, Some(previous)).changed
    ensures var between := Run(off, Some(previous)).campaign;
      && FinalRecord(on, Some(between), e) in Run(on, Some(between)).campaign.records
      && FinalRecord(on, Some(between), e).state == RepoState.NotAffected
      && !FinalRecord(on, Some(between), e).everAffected
      && FinalRecord(on, Some(previous), e) in Run(on, Some(previous)).campaign.records
      && FinalRecord(on, Some(previous), e).state == RepoState.Resolved
  {
    hide FinalRecord, Base, Outcomes, BuildBlastRadius, DeriveCampaignState, UnresolvedRisks, IsSame, DecisionsOf,
         PublicationsOf, CallsOf, EvaluationFor;
    var between := Run(off, Some(previous)).campaign;
    FinalIsRecorded(on, Some(between), e);
    FinalIsRecorded(on, Some(previous), e);
    UnaffectedRecord(on, Some(previous), e);
    SameEvaluationClass(on, Some(previous), Some(between), e);
    UnaffectedRecord(on, Some(between), e);
  }

  lemma FinalIsRecorded(input: RunInput, previous: Option<Campaign>, e: Entry)
    requires Analyzes(input.policy) && e in Base(input)
    ensures FinalRecord(input, previous, e) in Run(input, previous).campaign.records
  {
    hide FinalRecord, Base, Run;
    RecordsByEntry(input, previous);
    var k :| 0 <= k < |Base(input)| && Base(input)[k] == e;
    assert Run(input, previous).campaign.records[k] == FinalRecord(input, previous, e);
  }

  lemma SameEvaluationClass(input: RunInput, previous: Option<Campaign>, past: Option<Campaign>, e: Entry)
    ensures EvaluationFor(input, previous, e).classification == EvaluationFor(input, past, e).classification
  {
    hide EvaluateEntry, WithPast;
    PastKeepsName(previous, e);
    PastKeepsName(past, e);
    SameEvaluation(input, WithPast(previous, e), WithPast(past, e));
  }

  lemma UnaffectedRecord(input: RunInput, previous: Option<Campaign>, e: Entry)
    requires EvaluationFor(input, previous, e).classification.orgClass == OrgClass.NotAffected
    ensures var r := FinalRecord(input, previous, e);
      r.everAffected == HadPast(previous, e)
      && r.state == if HadPast(previous, e) then RepoState.Resolved else RepoState.NotAffected
  {
    hide EvaluationFor, PublishUnder, WithPast;
    FinalIsHonest(input, previous, e);
  }
}
