/** The campaign tables: one row per identity, one record row per repository, reconciled in place by each upsert. */
module CampaignStore {
  import opened Wrappers
  import opened Ordering
  import opened OrderedSets
  import opened Selection
  import opened CampaignDomain

  const MAX_LABEL := 255
  const MAX_REPOSITORY := 512
  const MAX_ERROR := 512

  // ----- Rows

  datatype CampaignRow = CampaignRow(
    identity: CampaignId,
    workspaceKey: string,
    changeFingerprint: string,
    engineVersion: nat,
    dependencyLabel: string,
    providerKey: Option<string>,
    origin: Origin,
    producerRepository: Option<string>,
    oldVersion: Option<string>,
    newVersion: Option<string>,
    compatibility: Option<string>,
    state: CampaignState,
    version: int,
    blast: BlastRadius,
    unresolvedRisks: seq<Risk>,
    discoveredAt: int,
    createdAt: int,
    updatedAt: int)

  /** The columns of a record row, apart from its key. */
  datatype Columns = Columns(
    state: RepoState,
    orgClass: OrgClass,
    freshness: Freshness,
    unknownReason: Option<UnknownReason>,
    impactStatus: Option<ImpactStatus>,
    directConsumers: nat,
    transitiveConsumers: nat,
    potentialConsumers: nat,
    severity: string,
    migrationStatus: Option<MigrationStatus>,
    migrationStrategyAvailable: bool,
    verificationFeasibility: Feasibility,
    verificationOutcome: Option<VerificationOutcome>,
    publicationReadiness: Option<Eligibility>,
    baseCommitSha: Option<string>,
    planFingerprint: Option<string>,
    patchFingerprint: Option<string>,
    bundleFingerprint: Option<string>,
    prStatus: Option<PrStatus>,
    prNumber: Option<int>,
    prUrl: Option<string>,
    residualRisk: Option<string>,
    everAffected: bool,
    reasons: seq<string>,
    humanActions: seq<string>,
    error: Option<string>,
    evaluatedAt: Option<int>)

  datatype RecordRow = RecordRow(campaign: nat, repository: string, columns: Columns)

  function FillRecord(r: Record): Columns {
    Columns(r.state, r.orgClass, r.freshness, r.unknownReason, r.impactStatus, r.directConsumers, r.transitiveConsumers,
            r.potentialConsumers, r.severity, r.migrationStatus, r.migrationStrategyAvailable,
            r.verificationFeasibility, r.verificationOutcome, r.publicationReadiness, r.baseCommitSha,
            r.planFingerprint, r.patchFingerprint, r.bundleFingerprint, r.prStatus, r.prNumber, r.prUrl, r.residualRisk,
            r.everAffected, r.reasons, r.humanActions,
            if r.error.GetOr("") != "" then Some(Bounded(r.error.value, MAX_ERROR)) else None, r.evaluatedAt)
  }

  function RecordFromRow(repository: string, c: Columns): Record {
    Record(repository, c.state, c.orgClass, c.freshness, c.unknownReason, c.impactStatus, c.directConsumers,
           c.transitiveConsumers, c.potentialConsumers, c.severity, c.migrationStatus, c.migrationStrategyAvailable,
           c.verificationFeasibility, c.verificationOutcome, c.publicationReadiness, c.baseCommitSha, c.planFingerprint,
           c.patchFingerprint, c.bundleFingerprint, c.prStatus, c.prNumber, c.prUrl, c.residualRisk, c.everAffected,
           c.reasons, c.humanActions, c.error, c.evaluatedAt)
  }

  /** The record fits its columns: a repository name and an error text within bounds, and no empty error. */
  predicate IsStorable(r: Record) {
    |r.repository| <= 512 && (r.error.Some? ==> 0 < |r.error.value| <= 512)
  }

  function Key(repository: string): string { Bounded(repository, MAX_REPOSITORY) }

  /** A record comes back from its row field for field exactly when it fits. */
  lemma RecordRoundTrip(r: Record)
    ensures RecordFromRow(Key(r.repository), FillRecord(r)) == r <==> IsStorable(r)
  {
  }

  // ----- What the tables say, identity by identity

  datatype Stored = Stored(row: CampaignRow, records: map<string, Columns>)

  type Tables = map<CampaignId, Stored>

  function InsertedRow(c: Campaign, now: int): CampaignRow {
    CampaignRow(c.id, c.workspaceKey, c.changeFingerprint, c.engineVersion, Bounded(c.dependencyLabel, MAX_LABEL),
                c.providerKey, c.origin, c.producerRepository, c.oldVersion, c.newVersion, c.compatibility, c.state,
                c.version, c.blast, c.unresolvedRisks, c.discoveredAt, now, now)
  }

  function Max(a: int, b: int): int { if a >= b then a else b }

  function UpdatedRow(row: CampaignRow, c: Campaign, now: int): CampaignRow {
    row.(updatedAt := if row.state != c.state || c.version > row.version then now else row.updatedAt,
         state := c.state, version := Max(row.version, c.version), blast := c.blast,
         unresolvedRisks := c.unresolvedRisks)
  }

  function Names(records: seq<Record>): set<string> { set r | r in records :: r.repository }

  /** The row a record goes to: the one of its name if there is one, else a new one under the cut name. */
  function Place(existing: set<string>, r: Record): string {
    if r.repository in existing then r.repository else Key(r.repository)
  }

  /** Two new rows, or a new row and an old one, would share a campaign and a repository. */
  ghost predicate Conflicts(existing: set<string>, records: seq<Record>) {
    || (exists i :: 0 <= i < |records| && records[i].repository !in existing && Key(records[i].repository) in existing)
    || (exists i, j :: && 0 <= i < j < |records|
                       && records[i].repository !in existing && records[j].repository !in existing
                       && Key(records[i].repository) == Key(records[j].repository))
  }

  function Written(existing: map<string, Columns>, records: seq<Record>): map<string, Columns> {
    if records == [] then existing
    else
      var last := records[|records| - 1];
      Written(existing, records[..|records| - 1])[Place(existing.Keys, last) := FillRecord(last)]
  }

  function Reconciled(existing: map<string, Columns>, records: seq<Record>): map<string, Columns> {
    Written(existing, records) - (existing.Keys - Names(records))
  }

  function ExistingRecords(t: Tables, id: CampaignId): map<string, Columns> { if id in t then t[id].records else map[] }

  function RowAfter(t: Tables, c: Campaign, now: int): CampaignRow {
    if c.id in t then UpdatedRow(t[c.id].row, c, now) else InsertedRow(c, now)
  }

  /** The tables after an upsert; a conflict raises and the transaction leaves no trace. */
  ghost function Upserted(t: Tables, c: Campaign, now: int): Attempt<Tables> {
    var existing := ExistingRecords(t, c.id);
    if Conflicts(existing.Keys, c.records) then Raised("IntegrityError")
    else Returned(t[c.id := Stored(RowAfter(t, c, now), Reconciled(existing, c.records))])
  }

  ghost function RecordsInOrder(records: map<string, Columns>): seq<Record> { Listed(InOrder(records.Keys), records) }

  function Listed(names: seq<string>, records: map<string, Columns>): (r: seq<Record>)
    requires forall name | name in names :: name in records
    ensures |r| == |names| && forall k | 0 <= k < |r| :: r[k] == RecordFromRow(names[k], records[names[k]])
  {
    seq(|names|, k requires 0 <= k < |names| => RecordFromRow(names[k], records[names[k]]))
  }

  function ToCampaign(row: CampaignRow, records: seq<Record>): Campaign {
    Campaign(row.identity, row.workspaceKey, row.changeFingerprint, row.dependencyLabel, row.providerKey, row.origin,
             row.discoveredAt, row.state, row.blast, records, row.unresolvedRisks, row.version, row.engineVersion,
             row.producerRepository, row.oldVersion, row.newVersion, row.compatibility)
  }

  ghost function Loaded(t: Tables, id: CampaignId): Option<Campaign> {
    if id in t then Some(ToCampaign(t[id].row, RecordsInOrder(t[id].records))) else None
  }

  // ----- The tables as rows

  class Store {
    var campaigns: map<nat, CampaignRow>
    var records: map<nat, RecordRow>
    var nextId: nat
    /** The tables, identity by identity. */
    ghost var contents: Tables

    ghost predicate Valid()
      reads this
    {
      CampaignsMatch(campaigns, nextId, contents) && RecordsMatch(campaigns, records, nextId, contents)
    }

    constructor ()
      ensures Valid() && contents == map[]
    {
      campaigns, records, nextId, contents := map[], map[], 0, map[];
    }

    /** The id of the row of an identity. */
    method GetRow(id: CampaignId) returns (found: Option<nat>)
      requires Valid()
      ensures found.Some? <==> id in contents
      ensures found.Some? ==> found.value in campaigns && campaigns[found.value].identity == id
      ensures found.Some? ==> campaigns[found.value] == contents[id].row
    {
      hide RecordsMatch;
      var rest := campaigns.Keys;
      while rest != {}
        invariant rest <= campaigns.Keys
        invariant forall a | a in campaigns && campaigns[a].identity == id :: a in rest
        decreases |rest|
      {
        var a :| a in rest;
        if campaigns[a].identity == id {
          return Some(a);
        }
        rest := rest - {a};
      }
      return None;
    }

    /** The record rows of one campaign, by repository. */
    method RowsOf(campaign: nat) returns (rows: map<string, nat>)
      requires Valid() && campaign in campaigns
      ensures IsIndexOf(rows, records, campaign)
      ensures rows.Keys == contents[campaigns[campaign].identity].records.Keys
    {
      hide CampaignsMatch, RecordsMatch;
      rows := map[];
      var rest := records.Keys;
      RowsAreDistinct(campaigns, records, nextId, contents);
      while rest != {}
        invariant rest <= records.Keys
        invariant forall name | name in rows :: rows[name] !in rest && IsRowNamed(records, rows[name], campaign, name)
        invariant forall a | a in records && records[a].campaign == campaign && a !in rest ::
          records[a].repository in rows && rows[records[a].repository] == a
        decreases |rest|
      {
        var a :| a in rest;
        rest := rest - {a};
        if records[a].campaign == campaign {
          rows := rows[records[a].repository := a];
        }
      }
      RowsCoverNames(campaigns, records, nextId, contents, campaign, rows);
    }

    /**
      * Reconciles the tables with a campaign: its row, and a record row for exactly its repositories. A violated
      * uniqueness constraint raises and leaves everything as it was.
      */
    method Upsert(c: Campaign, now: int) returns (outcome: Attempt<(nat, bool)>)
      requires Valid()
      modifies this
      ensures Valid()
      ensures var after := Upserted(old(contents), c, now);
        && (outcome.Raised? <==> after.Raised?)
        && (outcome.Raised? ==> contents == old(contents) && campaigns == old(campaigns) && records == old(records))
        && (outcome.Returned? ==> contents == after.value && outcome.value.1 == (c.id !in old(contents)))
        && (outcome.Returned? ==>
              outcome.value.0 in campaigns && campaigns[outcome.value.0] == contents[c.id].row
              && forall a | a in campaigns && campaigns[a].identity == c.id :: a == outcome.value.0)
    {
      hide CampaignsMatch, RecordsMatch, Conflicts, Written, InsertedRow, UpdatedRow, Reconciled;
      var found := GetRow(c.id);
      var created := found.None?;
      var id, next := if created then nextId else found.value, if created then nextId + 1 else nextId;
      var row := if created then InsertedRow(c, now) else UpdatedRow(campaigns[id], c, now);
      RowKeepsIdentity(campaigns, nextId, contents, c, now);
      var existing: map<string, nat> := map[];
      if !created {
        existing := RowsOf(id);
      }
      CampaignRowWritten(campaigns, records, nextId, contents, id, row, created);
      var campaignRows := campaigns[id := row];
      ghost var stored := Stored(row, ExistingRecords(contents, c.id));
      var written, rows, last := WriteRecords(campaignRows, records, next, contents, stored, id, existing, c.records);
      if !written {
        return Raised("IntegrityError");
      }
      ghost var columns := Written(stored.records, c.records);
      var stale := existing.Keys - Names(c.records);
      rows := RemoveStale(campaignRows, rows, last, contents, Stored(row, columns), id, existing, stale);
      ReconciledIs(stored.records, c.records, stale);
      campaigns, records, nextId := campaignRows, rows, last;
      contents := contents[c.id := Stored(row, columns - stale)];
      OneRow(campaigns, nextId, contents, id);
      outcome := Returned((id, created));
    }

    method Load(id: CampaignId) returns (c: Option<Campaign>)
      requires Valid()
      ensures c == Loaded(contents, id)
    {
      hide CampaignsMatch, RecordsMatch, Listed, RecordFromRow, ToCampaign, InOrder, IsIndexOf;
      var found := GetRow(id);
      if found.None? {
        return None;
      }
      var rows := RowsOf(found.value);
      var names := SortIds(rows.Keys);
      var loaded: seq<Record> := [];
      ghost var stored := contents[id].records;
      for k := 0 to |names|
        invariant loaded == Listed(names[..k], stored)
      {
        assert names[k] in rows;
        IndexedColumns(campaigns, records, nextId, contents, found.value, rows, names[k]);
        ListedGrows(names, k, stored);
        loaded := loaded + [RecordFromRow(names[k], records[rows[names[k]]].columns)];
      }
      assert names[..|names|] == names;
      c := Some(ToCampaign(campaigns[found.value], loaded));
    }
  }

  lemma IndexedColumns(campaigns: map<nat, CampaignRow>, records: map<nat, RecordRow>, nextId: nat, t: Tables,
                       campaign: nat, rows: map<string, nat>, name: string)
    requires RecordsMatch(campaigns, records, nextId, t) && campaign in campaigns && campaigns[campaign].identity in t
    requires IsIndexOf(rows, records, campaign) && name in rows
    ensures var stored := t[campaigns[campaign].identity].records;
      rows[name] in records && name in stored && records[rows[name]].columns == stored[name]
  {
    hide HasRow;
    assert IsRowNamed(records, rows[name], campaign, name);
    assert IsRowOf(campaigns, records[rows[name]], t);
  }

  lemma ListedGrows(names: seq<string>, k: nat, records: map<string, Columns>)
    requires k < |names| && forall name | name in names :: name in records
    ensures Listed(names[..k + 1], records)
         == Listed(names[..k], records) + [RecordFromRow(names[k], records[names[k]])]
  {
    hide RecordFromRow;
    assert names[..k + 1] == names[..k] + [names[k]];
  }

  ghost predicate Match(campaigns: map<nat, CampaignRow>, records: map<nat, RecordRow>, nextId: nat, t: Tables) {
    CampaignsMatch(campaigns, nextId, t) && RecordsMatch(campaigns, records, nextId, t)
  }

  /** Fills the row of each record, or adds one; stops at the first that would break uniqueness. */
  method WriteRecords(campaigns: map<nat, CampaignRow>, records: map<nat, RecordRow>, nextId: nat, ghost t: Tables,
                      ghost stored: Stored, id: nat, existing: map<string, nat>, given: seq<Record>)
    returns (written: bool, rows: map<nat, RecordRow>, next: nat)
    requires Match(campaigns, records, nextId, t[stored.row.identity := stored])
    requires id in campaigns && campaigns[id].identity == stored.row.identity && existing.Keys == stored.records.Keys
    requires forall name | name in existing :: IsRowNamed(records, existing[name], id, name)
    ensures written <==> !Conflicts(existing.Keys, given)
    ensures written ==> Match(campaigns, rows, next,
                              t[stored.row.identity := Stored(stored.row, Written(stored.records, given))])
    ensures written ==> forall name | name in existing :: IsRowNamed(rows, existing[name], id, name)
  {
    hide Match, FillRecord, Key, Conflicts, Written, NewKeys;
    ghost var columns := stored.records;
    var inserted: set<string> := {};
    rows, next := records, nextId;
    NothingWritten(existing.Keys, stored.records, given);
    for k := 0 to |given|
      invariant Match(campaigns, rows, next, t[stored.row.identity := Stored(stored.row, columns)])
      invariant columns == Written(stored.records, given[..k]) && columns.Keys == existing.Keys + inserted
      invariant inserted == NewKeys(existing.Keys, given[..k]) && !Conflicts(existing.Keys, given[..k])
      invariant forall name | name in existing :: IsRowNamed(rows, existing[name], id, name)
    {
      var record := given[k];
      OneMoreWritten(existing.Keys, stored.records, given, k);
      if record.repository in existing {
        var a := existing[record.repository];
        OverwriteRow(campaigns, rows, next, t, Stored(stored.row, columns), id, a, record.repository,
                     FillRecord(record));
        rows := rows[a := RecordRow(id, record.repository, FillRecord(record))];
        columns := columns[record.repository := FillRecord(record)];
      } else {
        var name := Key(record.repository);
        if name in existing || name in inserted {
          ConflictsStay(existing.Keys, given, k);
          return false, rows, next;
        }
        AddRow(campaigns, rows, next, t, Stored(stored.row, columns), id, name, FillRecord(record));
        rows, next := rows[next := RecordRow(id, name, FillRecord(record))], next + 1;
        columns := columns[name := FillRecord(record)];
        inserted := inserted + {name};
      }
    }
    assert given[..|given|] == given;
    written := true;
  }

  lemma ForgetOneMore(columns: map<string, Columns>, gone: set<string>, name: string)
    ensures columns - gone - {name} == columns - (gone + {name})
  {
  }

  /** Deletes the rows of repositories that are not in the campaign any more. */
  method RemoveStale(campaigns: map<nat, CampaignRow>, records: map<nat, RecordRow>, nextId: nat, ghost t: Tables,
                     ghost stored: Stored, id: nat, existing: map<string, nat>, stale: set<string>)
    returns (rows: map<nat, RecordRow>)
    requires Match(campaigns, records, nextId, t[stored.row.identity := stored])
    requires id in campaigns && campaigns[id].identity == stored.row.identity && stale <= existing.Keys
    requires forall name | name in existing :: IsRowNamed(records, existing[name], id, name)
    ensures Match(campaigns, rows, nextId, t[stored.row.identity := Stored(stored.row, stored.records - stale)])
  {
    hide Match, IsRowNamed;
    var rest := stale;
    rows := records;
    ghost var gone: set<string> := {};
    assert stored.records - gone == stored.records;
    while rest != {}
      invariant rest + gone == stale && rest !! gone
      invariant Match(campaigns, rows, nextId, t[stored.row.identity := Stored(stored.row, stored.records - gone)])
      invariant forall name | name in rest :: IsRowNamed(rows, existing[name], id, name)
      decreases |rest|
    {
      var name :| name in rest;
      RemoveRow(campaigns, rows, nextId, t, Stored(stored.row, stored.records - gone), id, existing[name], name);
      ghost var before := rows;
      rows, rest := rows - {existing[name]}, rest - {name};
      forall other | other in rest ensures IsRowNamed(rows, existing[other], id, other) {
        assert IsRowNamed(before, existing[other], id, other);
      }
      ForgetOneMore(stored.records, gone, name);
      gone := gone + {name};
    }
    assert gone == stale;
  }

  function NewKeys(existing: set<string>, records: seq<Record>): set<string> {
    set r | r in records && r.repository !in existing :: Key(r.repository)
  }

  lemma RowKeepsIdentity(campaigns: map<nat, CampaignRow>, nextId: nat, t: Tables, c: Campaign, now: int)
    requires CampaignsMatch(campaigns, nextId, t)
    ensures RowAfter(t, c, now).identity == c.id
  {
    if c.id in t {
      assert HasIdentity(campaigns, c.id);
    }
  }

  lemma OneRow(campaigns: map<nat, CampaignRow>, nextId: nat, t: Tables, id: nat)
    requires CampaignsMatch(campaigns, nextId, t) && id in campaigns
    ensures forall a | a in campaigns && campaigns[a].identity == campaigns[id].identity :: a == id
    ensures campaigns[id].identity in t && t[campaigns[id].identity].row == campaigns[id]
  {
  }

  /** The row of one identity is written, or added, with its records as they were. */
  lemma CampaignRowWritten(campaigns: map<nat, CampaignRow>, records: map<nat, RecordRow>, nextId: nat, t: Tables,
                           id: nat, row: CampaignRow, created: bool)
    requires CampaignsMatch(campaigns, nextId, t) && RecordsMatch(campaigns, records, nextId, t)
    requires IsPlace(campaigns, nextId, t, id, row, created)
    ensures var next := if created then nextId + 1 else nextId;
      var after := t[row.identity := Stored(row, ExistingRecords(t, row.identity))];
      CampaignsMatch(campaigns[id := row], next, after) && RecordsMatch(campaigns[id := row], records, next, after)
  {
    hide CampaignsMatch, RecordsMatch;
    CampaignRowMatches(campaigns, nextId, t, id, row, created);
    RecordRowsStillMatch(campaigns, records, nextId, t, id, row, created);
  }

  ghost predicate IsPlace(campaigns: map<nat, CampaignRow>, nextId: nat, t: Tables, id: nat, row: CampaignRow,
                          created: bool) {
    if created then id == nextId && row.identity !in t else id in campaigns && campaigns[id].identity == row.identity
  }

  lemma CampaignRowMatches(campaigns: map<nat, CampaignRow>, nextId: nat, t: Tables, id: nat, row: CampaignRow,
                           created: bool)
    requires CampaignsMatch(campaigns, nextId, t) && IsPlace(campaigns, nextId, t, id, row, created)
    ensures CampaignsMatch(campaigns[id := row], if created then nextId + 1 else nextId,
                           t[row.identity := Stored(row, ExistingRecords(t, row.identity))])
  {
    hide ExistingRecords;
    var after := t[row.identity := Stored(row, ExistingRecords(t, row.identity))];
    var rows := campaigns[id := row];
    forall i | i in after ensures HasIdentity(rows, i) {
      if i == row.identity {
        assert rows[id].identity == i;
      } else {
        assert HasIdentity(campaigns, i);
        var a :| a in campaigns && campaigns[a].identity == i;
        assert a in rows && rows[a].identity == i;
      }
    }
  }

  lemma RecordRowsStillMatch(campaigns: map<nat, CampaignRow>, records: map<nat, RecordRow>, nextId: nat, t: Tables,
                             id: nat, row: CampaignRow, created: bool)
    requires CampaignsMatch(campaigns, nextId, t) && RecordsMatch(campaigns, records, nextId, t)
    requires IsPlace(campaigns, nextId, t, id, row, created)
    ensures RecordsMatch(campaigns[id := row], records, if created then nextId + 1 else nextId,
                         t[row.identity := Stored(row, ExistingRecords(t, row.identity))])
  {
    hide HasIdentity, HasRow;
    var after := t[row.identity := Stored(row, ExistingRecords(t, row.identity))];
    var rows := campaigns[id := row];
    forall a | a in records ensures IsRowOf(rows, records[a], after) {
      assert IsRowOf(campaigns, records[a], t);
    }
    EveryEntryStillHasARow(campaigns, records, nextId, t, id, row, created);
  }

  lemma EveryEntryStillHasARow(campaigns: map<nat, CampaignRow>, records: map<nat, RecordRow>, nextId: nat, t: Tables,
                               id: nat, row: CampaignRow, created: bool)
    requires CampaignsMatch(campaigns, nextId, t) && RecordsMatch(campaigns, records, nextId, t)
    requires IsPlace(campaigns, nextId, t, id, row, created)
    ensures var after := t[row.identity := Stored(row, ExistingRecords(t, row.identity))];
      var rows := campaigns[id := row];
      forall a, name | a in rows && rows[a].identity in after && name in after[rows[a].identity].records ::
        HasRow(records, a, name)
  {
    hide HasIdentity, HasRow, IsRowOf;
    var after := t[row.identity := Stored(row, ExistingRecords(t, row.identity))];
    var rows := campaigns[id := row];
    assert created ==> ExistingRecords(t, row.identity) == map[];
    forall a, name | a in rows && rows[a].identity in after && name in after[rows[a].identity].records
      ensures HasRow(records, a, name) {
      if a in campaigns {
        assert campaigns[a].identity == rows[a].identity;
      }
    }
  }

  ghost predicate CampaignsMatch(campaigns: map<nat, CampaignRow>, nextId: nat, t: Tables) {
    && (forall a | a in campaigns ::
        a < nextId && campaigns[a].identity in t && t[campaigns[a].identity].row == campaigns[a])
    && (forall a, b | a in campaigns && b in campaigns && campaigns[a].identity == campaigns[b].identity :: a == b)
    && (forall id | id in t :: HasIdentity(campaigns, id))
  }

  ghost predicate HasIdentity(campaigns: map<nat, CampaignRow>, id: CampaignId) {
    exists a | a in campaigns :: campaigns[a].identity == id
  }

  ghost predicate RecordsMatch(campaigns: map<nat, CampaignRow>, records: map<nat, RecordRow>, nextId: nat, t: Tables) {
    && (forall a | a in records :: a < nextId && IsRowOf(campaigns, records[a], t))
    && (forall a, b | a in records && b in records && records[a].campaign == records[b].campaign
                      && records[a].repository == records[b].repository :: a == b)
    && (forall a, name | a in campaigns && campaigns[a].identity in t && name in t[campaigns[a].identity].records ::
          HasRow(records, a, name))
  }

  ghost predicate IsRowOf(campaigns: map<nat, CampaignRow>, row: RecordRow, t: Tables) {
    && row.campaign in campaigns && campaigns[row.campaign].identity in t
    && var stored := t[campaigns[row.campaign].identity].records;
       row.repository in stored && stored[row.repository] == row.columns
  }

  ghost predicate HasRow(records: map<nat, RecordRow>, campaign: nat, name: string) {
    exists a | a in records :: records[a].campaign == campaign && records[a].repository == name
  }

  predicate IsRowNamed(records: map<nat, RecordRow>, a: nat, campaign: nat, name: string) {
    a in records && records[a].campaign == campaign && records[a].repository == name
  }

  ghost predicate IsIndexOf(rows: map<string, nat>, records: map<nat, RecordRow>, campaign: nat) {
    && (forall name | name in rows :: IsRowNamed(records, rows[name], campaign, name))
    && (forall a | a in records && records[a].campaign == campaign ::
          records[a].repository in rows && rows[records[a].repository] == a)
  }

  lemma RowsAreDistinct(campaigns: map<nat, CampaignRow>, records: map<nat, RecordRow>, nextId: nat, t: Tables)
    requires RecordsMatch(campaigns, records, nextId, t)
    ensures forall a, b | a in records && b in records && records[a].campaign == records[b].campaign
                          && records[a].repository == records[b].repository :: a == b
  {
  }

  lemma RowsCoverNames(campaigns: map<nat, CampaignRow>, records: map<nat, RecordRow>, nextId: nat, t: Tables,
                       campaign: nat, rows: map<string, nat>)
    requires CampaignsMatch(campaigns, nextId, t) && RecordsMatch(campaigns, records, nextId, t)
      && campaign in campaigns
    requires IsIndexOf(rows, records, campaign)
    ensures rows.Keys == t[campaigns[campaign].identity].records.Keys
  {
    var stored := t[campaigns[campaign].identity].records;
    forall name ensures name in rows <==> name in stored {
      if name in rows {
        assert IsRowOf(campaigns, records[rows[name]], t);
      }
      if name in stored {
        assert HasRow(records, campaign, name);
      }
    }
  }

  // ----- One record row at a time

  /** Changing the columns of one repository leaves every other row as true as it was. */
  lemma RowElsewhere(campaigns: map<nat, CampaignRow>, row: RecordRow, nextId: nat, t: Tables, stored: Stored, id: nat,
                     name: string, columns: map<string, Columns>)
    requires CampaignsMatch(campaigns, nextId, t[stored.row.identity := stored])
    requires id in campaigns && campaigns[id].identity == stored.row.identity
    requires IsRowOf(campaigns, row, t[stored.row.identity := stored])
      && !(row.campaign == id && row.repository == name)
    requires forall other | other in stored.records && other != name ::
      other in columns && columns[other] == stored.records[other]
    ensures IsRowOf(campaigns, row, t[stored.row.identity := Stored(stored.row, columns)])
  {
    hide HasIdentity;
    if campaigns[row.campaign].identity == stored.row.identity {
      assert row.campaign == id;
    }
  }

  lemma HasRowCarriesOver(rows: map<nat, RecordRow>, more: map<nat, RecordRow>, campaign: nat, name: string)
    requires HasRow(rows, campaign, name)
    requires forall x | IsRowNamed(rows, x, campaign, name) :: IsRowNamed(more, x, campaign, name)
    ensures HasRow(more, campaign, name)
  {
    var x :| x in rows && rows[x].campaign == campaign && rows[x].repository == name;
    assert IsRowNamed(rows, x, campaign, name);
    assert x in more && more[x].campaign == campaign && more[x].repository == name;
  }

  lemma OverwriteRow(campaigns: map<nat, CampaignRow>, rows: map<nat, RecordRow>, next: nat, t: Tables, stored: Stored,
                     id: nat, a: nat, name: string, columns: Columns)
    requires Match(campaigns, rows, next, t[stored.row.identity := stored])
    requires id in campaigns && campaigns[id].identity == stored.row.identity && IsRowNamed(rows, a, id, name)
    ensures Match(campaigns, rows[a := RecordRow(id, name, columns)], next,
                  t[stored.row.identity := Stored(stored.row, stored.records[name := columns])])
    ensures forall other, b | IsRowNamed(rows, b, id, other) ::
      IsRowNamed(rows[a := RecordRow(id, name, columns)], b, id, other)
  {
    hide HasRow, IsRowOf, HasIdentity, CampaignsMatch;
    var identity := stored.row.identity;
    var before, after := t[identity := stored], t[identity := Stored(stored.row, stored.records[name := columns])];
    var written := rows[a := RecordRow(id, name, columns)];
    SameCampaignRows(campaigns, next, t, stored, stored.records[name := columns]);
    forall b | b in written ensures IsRowOf(campaigns, written[b], after) {
      if b == a {
        NewRowIsTrue(campaigns, t, stored, id, name, columns);
      } else {
        RowElsewhere(campaigns, rows[b], next, t, stored, id, name, stored.records[name := columns]);
      }
    }
    forall b, other | b in campaigns && campaigns[b].identity in after && other in after[campaigns[b].identity].records
      ensures HasRow(written, b, other) {
      if b == id && other == name {
        RowIsThere(written, a, id, name);
      } else {
        NameWasThere(campaigns, next, t, stored, id, name, columns, b, other);
        assert HasRow(rows, b, other);
        HasRowCarriesOver(rows, written, b, other);
      }
    }
  }

  lemma NewRowIsTrue(campaigns: map<nat, CampaignRow>, t: Tables, stored: Stored, id: nat, name: string,
                     columns: Columns)
    requires id in campaigns && campaigns[id].identity == stored.row.identity
    ensures IsRowOf(campaigns, RecordRow(id, name, columns),
                    t[stored.row.identity := Stored(stored.row, stored.records[name := columns])])
  {
  }

  lemma RowIsThere(rows: map<nat, RecordRow>, a: nat, campaign: nat, name: string)
    requires IsRowNamed(rows, a, campaign, name)
    ensures HasRow(rows, campaign, name)
  {
  }

  lemma NameWasThere(campaigns: map<nat, CampaignRow>, next: nat, t: Tables, stored: Stored, id: nat, name: string,
                     columns: Columns, b: nat, other: string)
    requires CampaignsMatch(campaigns, next, t[stored.row.identity := stored])
    requires id in campaigns && campaigns[id].identity == stored.row.identity && b in campaigns
      && !(b == id && other == name)
    requires var after := t[stored.row.identity := Stored(stored.row, stored.records[name := columns])];
      campaigns[b].identity in after && other in after[campaigns[b].identity].records
    ensures var before := t[stored.row.identity := stored];
      campaigns[b].identity in before && other in before[campaigns[b].identity].records
  {
    hide HasIdentity;
  }

  lemma AddRow(campaigns: map<nat, CampaignRow>, rows: map<nat, RecordRow>, next: nat, t: Tables, stored: Stored,
               id: nat, name: string, columns: Columns)
    requires Match(campaigns, rows, next, t[stored.row.identity := stored])
    requires id in campaigns && campaigns[id].identity == stored.row.identity && name !in stored.records
    ensures Match(campaigns, rows[next := RecordRow(id, name, columns)], next + 1,
                  t[stored.row.identity := Stored(stored.row, stored.records[name := columns])])
    ensures forall other, b | IsRowNamed(rows, b, id, other) ::
      IsRowNamed(rows[next := RecordRow(id, name, columns)], b, id, other)
  {
    hide HasRow, IsRowOf, HasIdentity, CampaignsMatch;
    var identity := stored.row.identity;
    var before, after := t[identity := stored], t[identity := Stored(stored.row, stored.records[name := columns])];
    var written := rows[next := RecordRow(id, name, columns)];
    SameCampaignRows(campaigns, next, t, stored, stored.records[name := columns]);
    forall b | b in rows ensures !(rows[b].campaign == id && rows[b].repository == name) {
      UnknownNameHasNoRow(campaigns, rows[b], t, stored, id, name);
    }
    forall b | b in written ensures IsRowOf(campaigns, written[b], after) {
      if b == next {
        NewRowIsTrue(campaigns, t, stored, id, name, columns);
      } else {
        RowElsewhere(campaigns, rows[b], next, t, stored, id, name, stored.records[name := columns]);
      }
    }
    forall b, other | b in campaigns && campaigns[b].identity in after && other in after[campaigns[b].identity].records
      ensures HasRow(written, b, other) {
      if b == id && other == name {
        RowIsThere(written, next, id, name);
      } else {
        NameWasThere(campaigns, next, t, stored, id, name, columns, b, other);
        assert HasRow(rows, b, other);
        HasRowCarriesOver(rows, written, b, other);
      }
    }
  }

  lemma UnknownNameHasNoRow(campaigns: map<nat, CampaignRow>, row: RecordRow, t: Tables, stored: Stored, id: nat,
                            name: string)
    requires IsRowOf(campaigns, row, t[stored.row.identity := stored])
    requires id in campaigns && campaigns[id].identity == stored.row.identity && name !in stored.records
    ensures !(row.campaign == id && row.repository == name)
  {
  }

  lemma RemoveRow(campaigns: map<nat, CampaignRow>, rows: map<nat, RecordRow>, next: nat, t: Tables, stored: Stored,
                  id: nat, a: nat, name: string)
    requires Match(campaigns, rows, next, t[stored.row.identity := stored])
    requires id in campaigns && campaigns[id].identity == stored.row.identity && IsRowNamed(rows, a, id, name)
    ensures Match(campaigns, rows - {a}, next, t[stored.row.identity := Stored(stored.row, stored.records - {name})])
    ensures forall other, b | IsRowNamed(rows, b, id, other) && other != name :: IsRowNamed(rows - {a}, b, id, other)
  {
    hide HasRow, IsRowOf, HasIdentity, CampaignsMatch;
    var identity := stored.row.identity;
    var after, left := t[identity := Stored(stored.row, stored.records - {name})], rows - {a};
    SameCampaignRows(campaigns, next, t, stored, stored.records - {name});
    forall b | b in left ensures IsRowOf(campaigns, left[b], after) {
      RowElsewhere(campaigns, rows[b], next, t, stored, id, name, stored.records - {name});
    }
    forall b, other | b in campaigns && campaigns[b].identity in after && other in after[campaigns[b].identity].records
      ensures HasRow(left, b, other) {
      assert !(b == id && other == name);
      assert HasRow(rows, b, other);
      HasRowCarriesOver(rows, left, b, other);
    }
  }

  lemma SameCampaignRows(campaigns: map<nat, CampaignRow>, next: nat, t: Tables, stored: Stored,
                         columns: map<string, Columns>)
    requires CampaignsMatch(campaigns, next, t[stored.row.identity := stored])
    ensures CampaignsMatch(campaigns, next, t[stored.row.identity := Stored(stored.row, columns)])
    ensures CampaignsMatch(campaigns, next + 1, t[stored.row.identity := Stored(stored.row, columns)])
  {
    hide HasIdentity;
    forall id | id in t[stored.row.identity := Stored(stored.row, columns)] ensures HasIdentity(campaigns, id) {
      assert id in t[stored.row.identity := stored];
    }
  }

  // ----- Which records conflict, and what is written

  lemma NothingWritten(existing: set<string>, stored: map<string, Columns>, records: seq<Record>)
    ensures Written(stored, records[..0]) == stored && NewKeys(existing, records[..0]) == {}
    ensures !Conflicts(existing, records[..0])
  {
  }

  lemma OneMoreWritten(existing: set<string>, stored: map<string, Columns>, records: seq<Record>, k: nat)
    requires k < |records| && existing == stored.Keys
    ensures Written(stored, records[..k + 1])
         == Written(stored, records[..k])[Place(existing, records[k]) := FillRecord(records[k])]
    ensures var r := records[k];
      NewKeys(existing, records[..k + 1])
      == NewKeys(existing, records[..k]) + if r.repository in existing then {} else {Key(r.repository)}
    ensures Conflicts(existing, records[..k + 1]) <==>
      || Conflicts(existing, records[..k])
      || (records[k].repository !in existing
          && (Key(records[k].repository) in existing || Key(records[k].repository) in NewKeys(existing, records[..k])))
  {
    hide Key, FillRecord;
    assert records[..k + 1][..k] == records[..k];
    assert records[..k + 1] == records[..k] + [records[k]];
    LastConflicts(existing, records[..k], records[k]);
  }

  lemma LastConflicts(existing: set<string>, front: seq<Record>, last: Record)
    ensures Conflicts(existing, front + [last]) <==>
      || Conflicts(existing, front)
      || (last.repository !in existing
          && (Key(last.repository) in existing || Key(last.repository) in NewKeys(existing, front)))
  {
    hide Key;
    var all := front + [last];
    if last.repository !in existing && Key(last.repository) in existing {
      assert all[|front|].repository !in existing && Key(all[|front|].repository) in existing;
    }
    if last.repository !in existing && Key(last.repository) in NewKeys(existing, front) {
      var r :| r in front && r.repository !in existing && Key(r.repository) == Key(last.repository);
      var i :| 0 <= i < |front| && front[i] == r;
      assert all[i].repository !in existing && all[|front|].repository !in existing
             && Key(all[i].repository) == Key(all[|front|].repository);
    }
    if Conflicts(existing, front) {
      ConflictsGrow(existing, front, last);
    }
  }

  lemma ConflictsGrow(existing: set<string>, front: seq<Record>, last: Record)
    requires Conflicts(existing, front)
    ensures Conflicts(existing, front + [last])
  {
    hide Key;
    var all := front + [last];
    if i :| 0 <= i < |front| && front[i].repository !in existing && Key(front[i].repository) in existing {
      assert all[i].repository !in existing && Key(all[i].repository) in existing;
    } else {
      var i, j :| 0 <= i < j < |front| && front[i].repository !in existing && front[j].repository !in existing
                  && Key(front[i].repository) == Key(front[j].repository);
      assert all[i].repository !in existing && all[j].repository !in existing
             && Key(all[i].repository) == Key(all[j].repository);
    }
  }

  lemma {:induction false} ConflictsStay(existing: set<string>, records: seq<Record>, k: nat)
    requires k < |records| && Conflicts(existing, records[..k + 1])
    ensures Conflicts(existing, records)
    decreases |records| - k
  {
    hide Conflicts;
    if k + 1 == |records| {
      assert records[..k + 1] == records;
    } else {
      assert records[..k + 2] == records[..k + 1] + [records[k + 1]];
      ConflictsGrow(existing, records[..k + 1], records[k + 1]);
      ConflictsStay(existing, records, k + 1);
    }
  }

  lemma ReconciledIs(stored: map<string, Columns>, records: seq<Record>, gone: set<string>)
    requires gone == stored.Keys - Names(records)
    ensures Written(stored, records) - gone == Reconciled(stored, records)
  {
  }

  // ----- Upserts of legal campaigns

  function NameList(records: seq<Record>): (r: seq<string>)
    ensures |r| == |records| && forall k | 0 <= k < |r| :: r[k] == records[k].repository
  {
    seq(|records|, k requires 0 <= k < |records| => records[k].repository)
  }

  /** One record for each repository, with names that fit the column. */
  ghost predicate IsLegal(records: seq<Record>) {
    && (forall r | r in records :: |r.repository| <= MAX_REPOSITORY)
    && forall i, j | 0 <= i < j < |records| :: records[i].repository != records[j].repository
  }

  /** With names that fit, an upsert raises exactly when it would add two rows for one repository. */
  lemma ConflictsExactlyWhen(existing: set<string>, records: seq<Record>)
    requires forall r | r in records :: |r.repository| <= MAX_REPOSITORY
    ensures Conflicts(existing, records) <==>
      exists i, j :: 0 <= i < j < |records| && records[i].repository == records[j].repository
                     && records[i].repository !in existing
  {
    forall k | 0 <= k < |records| ensures Key(records[k].repository) == records[k].repository {
      assert records[k] in records;
    }
    if i, j :| && 0 <= i < j < |records|
               && records[i].repository == records[j].repository && records[i].repository !in existing {
      assert Key(records[i].repository) == Key(records[j].repository);
    }
  }

  /** The latest columns of each repository, under the name its row carries. */
  function Latest(records: seq<Record>): map<string, Columns> {
    if records == [] then map[]
    else
      var last := records[|records| - 1];
      Latest(records[..|records| - 1])[Key(last.repository) := FillRecord(last)]
  }

  function KeyOf(): Record -> string {
    (r: Record) => if |r.repository| <= 512 then r.repository else r.repository[..512]
  }

  function ColumnsOf(): Record -> Option<Columns> { (r: Record) => Some(FillRecord(r)) }

  /** Under each name, cut to what fits, the columns of the last record that has it. */
  lemma {:induction false} LatestIsLast(records: seq<Record>)
    ensures HoldsLast(records, KeyOf(), ColumnsOf(), Latest(records))
    decreases |records|
  {
    hide HoldsLast, FillRecord;
    if records == [] {
      NothingHeld(KeyOf(), ColumnsOf());
    } else {
      var front, last := records[..|records| - 1], records[|records| - 1];
      LatestIsLast(front);
      OneMoreHeld(front, KeyOf(), ColumnsOf(), Latest(front), last);
      assert records == front + [last];
    }
  }

  /**
    * What the columns keep: counts, fingerprints and texts as they are, and the beginning of an error that is too long.
    */
  lemma ColumnsKeep(r: Record)
    ensures var c := FillRecord(r);
      && c.directConsumers == r.directConsumers && c.transitiveConsumers == r.transitiveConsumers
      && c.potentialConsumers == r.potentialConsumers && c.baseCommitSha == r.baseCommitSha && c.prUrl == r.prUrl
      && c.planFingerprint == r.planFingerprint && c.patchFingerprint == r.patchFingerprint
      && c.bundleFingerprint == r.bundleFingerprint && c.residualRisk == r.residualRisk
      && c.reasons == r.reasons && c.humanActions == r.humanActions && c.everAffected == r.everAffected
      && c.migrationStrategyAvailable == r.migrationStrategyAvailable
      && (c.error.Some? <==> r.error.Some? && r.error.value != "")
      && (c.error.Some? ==> c.error.value <= r.error.value && (|c.error.value| == 512 || c.error == r.error))
  {
  }

  ghost predicate HasKey(records: seq<Record>, name: string) { exists r | r in records :: Key(r.repository) == name }

  lemma {:induction false} LatestNames(records: seq<Record>)
    ensures forall name :: name in Latest(records) <==> HasKey(records, name)
    decreases |records|
  {
    hide Key, FillRecord, HasKey;
    if records == [] {
      NoKeys();
    } else {
      var front, last := records[..|records| - 1], records[|records| - 1];
      LatestNames(front);
      assert records == front + [last];
      OneMoreKey(front, last);
    }
  }

  lemma NoKeys()
    ensures forall name :: !HasKey([], name)
  {
  }

  lemma OneMoreKey(front: seq<Record>, last: Record)
    ensures forall name :: HasKey(front + [last], name) <==> HasKey(front, name) || name == Key(last.repository)
  {
    hide Key;
    forall name ensures HasKey(front + [last], name) <==> HasKey(front, name) || name == Key(last.repository) {
      if r :| r in front && Key(r.repository) == name {
        assert r in front + [last];
      }
      assert last in front + [last];
    }
  }

  /** With one record for each repository, the latest columns are those of all records. */
  lemma {:induction false} LatestOfDistinct(records: seq<Record>)
    requires IsLegal(records)
    ensures Latest(records).Keys == Names(records)
    ensures forall k | 0 <= k < |records| ::
      records[k].repository in Latest(records) && Latest(records)[records[k].repository] == FillRecord(records[k])
    decreases |records|
  {
    hide FillRecord, Names;
    if records != [] {
      var front, last := records[..|records| - 1], records[|records| - 1];
      assert records == front + [last];
      LegalFront(records);
      LatestOfDistinct(front);
      assert Key(last.repository) == last.repository;
      forall k | 0 <= k < |front| ensures records[k] == front[k] && front[k].repository != last.repository {
        assert front[k] in front;
      }
    } else {
      assert Names(records) == {} by { NoNames(); }
    }
  }

  lemma NoNames()
    ensures Names([]) == {}
  {
  }

  lemma LegalFront(records: seq<Record>)
    requires IsLegal(records) && records != []
    ensures var front, last := records[..|records| - 1], records[|records| - 1];
      && IsLegal(front) && (forall r | r in front :: r.repository != last.repository)
      && |last.repository| <= MAX_REPOSITORY
      && Names(records) == Names(front) + {last.repository}
  {
    var front, last := records[..|records| - 1], records[|records| - 1];
    assert records == front + [last];
    assert last in records;
    forall r | r in front ensures r.repository != last.repository {
      var i :| 0 <= i < |front| && front[i] == r;
    }
  }

  /** Each record is written under the name its own row would carry. */
  ghost predicate ArePlaced(existing: set<string>, records: seq<Record>) {
    forall r | r in records :: Place(existing, r) == Key(r.repository)
  }

  lemma {:induction false} WrittenIs(existing: map<string, Columns>, records: seq<Record>)
    requires ArePlaced(existing.Keys, records)
    ensures Written(existing, records) == existing + Latest(records)
    decreases |records|
  {
    hide FillRecord, Place, Key;
    if records != [] {
      var front, last := records[..|records| - 1], records[|records| - 1];
      assert records == front + [last];
      assert last in records;
      WrittenIs(existing, front);
    }
  }

  lemma ReconciledIsLatest(existing: map<string, Columns>, records: seq<Record>)
    requires ArePlaced(existing.Keys, records) && !Conflicts(existing.Keys, records)
    ensures Reconciled(existing, records) == Latest(records)
  {
    hide FillRecord, Key, Latest, Written;
    WrittenIs(existing, records);
    LatestNames(records);
    forall name | name in existing ensures name in Names(records) <==> name in Latest(records) {
      if name in Names(records) {
        var r :| r in records && r.repository == name;
        assert Place(existing.Keys, r) == name;
      }
      if name in Latest(records) {
        var r :| r in records && Key(r.repository) == name;
        var k :| 0 <= k < |records| && records[k] == r;
        assert r.repository in existing;
      }
    }
  }

  /** All names in the tables fit their column. */
  ghost predicate AllFit(t: Tables) { forall id | id in t :: NamesFit(t[id].records.Keys) }

  ghost predicate NamesFit(names: set<string>) { forall name | name in names :: |name| <= MAX_REPOSITORY }

  /**
    * Whatever its records, an upsert that goes through leaves exactly the latest columns of the campaign's
    * repositories.
    */
  lemma UpsertHolds(t: Tables, c: Campaign, now: int)
    requires AllFit(t) && Upserted(t, c, now).Returned?
    ensures Upserted(t, c, now).value[c.id].records == Latest(c.records)
    ensures AllFit(Upserted(t, c, now).value)
  {
    hide FillRecord, Conflicts, Latest, Reconciled, InsertedRow, UpdatedRow;
    var existing := ExistingRecords(t, c.id);
    assert ArePlaced(existing.Keys, c.records);
    ReconciledIsLatest(existing, c.records);
    LatestNames(c.records);
    assert NamesFit(Latest(c.records).Keys);
  }

  /** With one record for each repository it always goes through, and all of them are there. */
  lemma LegalUpsertHolds(t: Tables, c: Campaign, now: int)
    requires IsLegal(c.records)
    ensures Upserted(t, c, now).Returned?
    ensures var stored := Upserted(t, c, now).value[c.id].records;
      stored.Keys == Names(c.records) && forall r | r in c.records :: stored[r.repository] == FillRecord(r)
  {
    hide FillRecord, Written, Conflicts, Names, Latest, Reconciled;
    var existing := ExistingRecords(t, c.id);
    ConflictsExactlyWhen(existing.Keys, c.records);
    assert ArePlaced(existing.Keys, c.records);
    ReconciledIsLatest(existing, c.records);
    LatestOfDistinct(c.records);
    forall r | r in c.records ensures Latest(c.records)[r.repository] == FillRecord(r) {
      var k :| 0 <= k < |c.records| && c.records[k] == r;
    }
  }

  // ----- Any sequence of upserts

  datatype Write = Write(campaign: Campaign, at: int)

  /** The tables after these upserts; one that raises changes nothing. */
  ghost function AfterWrites(writes: seq<Write>): Tables {
    if writes == [] then map[]
    else
      var before, last := AfterWrites(writes[..|writes| - 1]), writes[|writes| - 1];
      var after := Upserted(before, last.campaign, last.at);
      if after.Returned? then after.value else before
  }

  /** The upserts that went through. */
  ghost function Successful(writes: seq<Write>): seq<Write> {
    if writes == [] then []
    else
      var front, last := writes[..|writes| - 1], writes[|writes| - 1];
      Successful(front) + if Upserted(AfterWrites(front), last.campaign, last.at).Returned? then [last] else []
  }

  predicate IsWritten(writes: seq<Write>, id: CampaignId) { exists w | w in writes :: w.campaign.id == id }

  function LastOf(writes: seq<Write>, id: CampaignId): Campaign
    requires IsWritten(writes, id)
  {
    var last := writes[|writes| - 1].campaign;
    if last.id == id then last
    else
      assert writes == writes[..|writes| - 1] + [writes[|writes| - 1]];
      LastOf(writes[..|writes| - 1], id)
  }

  function FirstOf(writes: seq<Write>, id: CampaignId): Write
    requires IsWritten(writes, id)
  {
    if writes[0].campaign.id == id then writes[0]
    else
      assert writes == [writes[0]] + writes[1..];
      FirstOf(writes[1..], id)
  }

  function LargestVersion(writes: seq<Write>, id: CampaignId): int
    requires IsWritten(writes, id)
  {
    var front, last := writes[..|writes| - 1], writes[|writes| - 1].campaign;
    assert writes == front + [writes[|writes| - 1]];
    if !IsWritten(front, id) then last.version
    else if last.id == id then Max(LargestVersion(front, id), last.version) else LargestVersion(front, id)
  }

  /**
    * When the identity was last touched: at its first upsert, and at each that changed its state or raised its version.
    */
  function TouchedAt(writes: seq<Write>, id: CampaignId): int
    requires IsWritten(writes, id)
  {
    var front, last := writes[..|writes| - 1], writes[|writes| - 1];
    assert writes == front + [last];
    if !IsWritten(front, id) then last.at
    else if last.campaign.id != id then TouchedAt(front, id)
    else if last.campaign.state != LastOf(front, id).state
      || last.campaign.version > LargestVersion(front, id) then last.at
    else TouchedAt(front, id)
  }

  lemma TouchedWithLast(front: seq<Write>, last: Write, id: CampaignId)
    requires IsWritten(front + [last], id)
    ensures TouchedAt(front + [last], id)
         == if !IsWritten(front, id) then last.at
            else if last.campaign.id != id then TouchedAt(front, id)
            else if last.campaign.state != LastOf(front, id).state
                    || last.campaign.version > LargestVersion(front, id) then last.at
            else TouchedAt(front, id)
  {
    assert (front + [last])[..|front|] == front;
  }

  /** What the table holds for an identity after these upserts. */
  ghost predicate Agrees(stored: Stored, writes: seq<Write>, id: CampaignId)
    requires IsWritten(writes, id)
  {
    var last, first, row := LastOf(writes, id), FirstOf(writes, id), stored.row;
    && stored.records == Latest(last.records)
    && row.state == last.state && row.blast == last.blast && row.unresolvedRisks == last.unresolvedRisks
    && row.version == LargestVersion(writes, id)
    && row.createdAt == first.at && row.updatedAt == TouchedAt(writes, id)
    && row == InsertedRow(first.campaign, first.at).(
         state := row.state, version := row.version, blast := row.blast, unresolvedRisks := row.unresolvedRisks,
         updatedAt := row.updatedAt)
  }

  /**
    * After any sequence of upserts, whatever they list and whichever of them raise, there is one entry for each
    * identity written and no other; it has the state and exactly the latest columns of the repositories of the last
    * upsert of that identity that went through, the largest version, and the descriptive fields of the first.
    */
  lemma {:induction false} StoreAgreesWithLastWrite(writes: seq<Write>, id: CampaignId)
    ensures AllFit(AfterWrites(writes))
    ensures id in AfterWrites(writes) <==> IsWritten(Successful(writes), id)
    ensures id in AfterWrites(writes) ==> Agrees(AfterWrites(writes)[id], Successful(writes), id)
    decreases |writes|
  {
    hide Latest, Reconciled, Conflicts, Upserted, AllFit;
    if writes == [] {
      assert AllFit(map[]) by { NothingToFit(); }
    } else {
      var n := |writes| - 1;
      var front, last := writes[..n], writes[n];
      var before, done := AfterWrites(front), Successful(front);
      StoreAgreesWithLastWrite(front, id);
      if Upserted(before, last.campaign, last.at).Returned? {
        UpsertHolds(before, last.campaign, last.at);
        UpsertedRow(before, last.campaign, last.at);
        assert Successful(writes) == done + [last];
        OneMoreWrite(done, last, id);
        if IsWritten(done + [last], id) {
          TouchedWithLast(done, last, id);
        }
        if IsWritten(done, id) {
          FirstStays(done, last, id);
        } else if last.campaign.id == id {
          OnlyWrite(done, last, id);
        }
      } else {
        assert Successful(writes) == done;
      }
    }
  }

  lemma NothingToFit()
    ensures AllFit(map[])
  {
  }

  lemma OneMoreWrite(front: seq<Write>, last: Write, id: CampaignId)
    ensures IsWritten(front + [last], id) <==> IsWritten(front, id) || last.campaign.id == id
    ensures last.campaign.id == id ==> LastOf(front + [last], id) == last.campaign
    ensures last.campaign.id != id && IsWritten(front, id) ==> LastOf(front + [last], id) == LastOf(front, id)
    ensures IsWritten(front + [last], id) ==>
      LargestVersion(front + [last], id)
      == (if !IsWritten(front, id) then last.campaign.version
          else if last.campaign.id == id then Max(LargestVersion(front, id), last.campaign.version)
          else LargestVersion(front, id))
  {
    var all := front + [last];
    assert all[..|all| - 1] == front && last in all;
    if w :| w in front && w.campaign.id == id {
      assert w in all;
    }
  }

  lemma UpsertedRow(t: Tables, c: Campaign, now: int)
    requires Upserted(t, c, now).Returned?
    ensures Upserted(t, c, now).value.Keys == t.Keys + {c.id}
    ensures Upserted(t, c, now).value[c.id].row == RowAfter(t, c, now)
    ensures forall id | id in t && id != c.id :: Upserted(t, c, now).value[id] == t[id]
  {
    hide Reconciled, Conflicts;
  }

  lemma FirstStays(front: seq<Write>, last: Write, id: CampaignId)
    requires IsWritten(front, id)
    ensures IsWritten(front + [last], id) && FirstOf(front + [last], id) == FirstOf(front, id)
    decreases |front|
  {
    var w :| w in front && w.campaign.id == id;
    assert w in front + [last];
    if front[0].campaign.id != id {
      assert front == [front[0]] + front[1..];
      assert (front + [last])[1..] == front[1..] + [last];
      FirstStays(front[1..], last, id);
    }
  }

  lemma {:induction false} OnlyWrite(front: seq<Write>, last: Write, id: CampaignId)
    requires last.campaign.id == id && !IsWritten(front, id)
    ensures IsWritten(front + [last], id) && FirstOf(front + [last], id) == last
    decreases |front|
  {
    assert last in front + [last];
    if front != [] {
      assert front[0] in front;
      assert front == [front[0]] + front[1..];
      assert (front + [last])[1..] == front[1..] + [last];
      OnlyWrite(front[1..], last, id);
    }
  }

  // ----- Loading what was stored

  lemma {:induction false} NamesAreInOrder(names: seq<string>, s: set<string>)
    requires Ascending(names, StringLe) && (forall x :: x in names <==> x in s)
    requires forall i, j | 0 <= i < j < |names| :: names[i] != names[j]
    ensures InOrder(s) == names
  {
    hide StringLe, Sort;
    OnceEachIsSet(names, s);
    SortedIsInOrder(s, names);
    SortFixesAscending(names, StringLe);
  }

  lemma {:induction false} OnceEachIsSet(names: seq<string>, s: set<string>)
    requires (forall x :: x in names <==> x in s) && forall i, j | 0 <= i < j < |names| :: names[i] != names[j]
    ensures multiset(names) == multiset(s)
    decreases |names|
  {
    if names == [] {
      assert s == {};
    } else {
      var front, last := names[..|names| - 1], names[|names| - 1];
      assert names == front + [last];
      forall x ensures x in front <==> x in s - {last} {
        if x in front {
          var i :| 0 <= i < |front| && front[i] == x;
          assert names[i] != names[|names| - 1];
        }
      }
      OnceEachIsSet(front, s - {last});
      assert last in s;
      assert s == (s - {last}) + {last};
    }
  }

  lemma ListedNames(records: seq<Record>)
    ensures forall x :: x in NameList(records) <==> x in Names(records)
  {
    var names := NameList(records);
    forall x ensures x in names <==> x in Names(records) {
      if x in names {
        var k :| 0 <= k < |names| && names[k] == x;
        assert records[k] in records;
      }
      if x in Names(records) {
        var r :| r in records && r.repository == x;
        var k :| 0 <= k < |records| && records[k] == r;
        assert names[k] == x;
      }
    }
  }

  /** One record for each repository, in the order of their names. */
  ghost predicate AreByName(records: seq<Record>) {
    && Ascending(NameList(records), StringLe)
    && forall i, j | 0 <= i < j < |records| :: records[i].repository != records[j].repository
  }

  /**
    * What is stored reads back as the list it came from exactly if that lists each repository once, by name, and fits.
    */
  lemma LoadedEqualsExactlyWhen(records: seq<Record>)
    ensures RecordsInOrder(Latest(records)) == records
      <==> AreByName(records) && forall r | r in records :: IsStorable(r)
  {
    hide Latest, FillRecord, RecordFromRow, RecordsInOrder, AreByName, IsStorable;
    if AreByName(records) && forall r | r in records :: IsStorable(r) {
      StorableIsLoaded(records);
    }
    if RecordsInOrder(Latest(records)) == records {
      LoadedIsByName(records);
      LoadedIsStorable(records);
    }
  }

  lemma StorableIsLoaded(records: seq<Record>)
    requires AreByName(records) && forall r | r in records :: IsStorable(r)
    ensures RecordsInOrder(Latest(records)) == records
  {
    hide StringLe, FillRecord, RecordFromRow, Latest, InOrder, NameList, Listed;
    var names, stored := NameList(records), Latest(records);
    assert IsLegal(records);
    LatestOfDistinct(records);
    ListedNames(records);
    NamesAreInOrder(names, stored.Keys);
    forall k | 0 <= k < |records| ensures RecordsInOrder(stored)[k] == records[k] {
      assert records[k] in records;
      RecordRoundTrip(records[k]);
      assert Key(records[k].repository) == names[k];
    }
  }

  lemma {:induction false} InOrderIsDistinct(s: set<string>)
    ensures forall i, j | 0 <= i < j < |InOrder(s)| :: InOrder(s)[i] != InOrder(s)[j]
    decreases |s|
  {
    hide StringLe, Least;
    if s != {} {
      InOrderIsDistinct(s - {Least(s)});
    }
  }

  /** Whatever the list, what is loaded is in name order, each name fits its column. */
  lemma LoadedIsByName(records: seq<Record>)
    requires RecordsInOrder(Latest(records)) == records
    ensures AreByName(records) && IsLegal(records)
  {
    hide StringLe, FillRecord, Latest, InOrder, RecordFromRow, HasKey;
    var names, stored := InOrder(Latest(records).Keys), Latest(records);
    InOrderIsDistinct(stored.Keys);
    LatestNames(records);
    forall k | 0 <= k < |records| ensures records[k].repository == names[k] && |names[k]| <= MAX_REPOSITORY {
      assert names[k] in stored;
      KeysFit(records, names[k]);
      NameOfRow(names[k], stored[names[k]]);
    }
    SameNames(records, names);
  }

  lemma KeysFit(records: seq<Record>, name: string)
    requires HasKey(records, name)
    ensures |name| <= MAX_REPOSITORY
  {
  }

  lemma SameNames(records: seq<Record>, names: seq<string>)
    requires |records| == |names|
    requires forall k | 0 <= k < |records| :: records[k].repository == names[k] && |names[k]| <= MAX_REPOSITORY
    requires Ascending(names, StringLe) && forall i, j | 0 <= i < j < |names| :: names[i] != names[j]
    ensures AreByName(records) && IsLegal(records)
  {
    hide StringLe;
    assert NameList(records) == names;
    forall r | r in records ensures |r.repository| <= MAX_REPOSITORY {
      var k :| 0 <= k < |records| && records[k] == r;
    }
  }

  lemma LoadedIsStorable(records: seq<Record>)
    requires RecordsInOrder(Latest(records)) == records && IsLegal(records)
    ensures forall r | r in records :: IsStorable(r)
  {
    hide StringLe, FillRecord, RecordFromRow, Latest, InOrder, IsStorable;
    var names, stored := InOrder(Latest(records).Keys), Latest(records);
    LatestOfDistinct(records);
    forall r | r in records ensures IsStorable(r) {
      var k :| 0 <= k < |records| && records[k] == r;
      assert r == RecordFromRow(names[k], stored[names[k]]);
      assert names[k] == r.repository by { NameOfRow(names[k], stored[names[k]]); }
      RecordRoundTrip(r);
      assert Key(r.repository) == r.repository;
    }
  }

  lemma NameOfRow(name: string, c: Columns)
    ensures RecordFromRow(name, c).repository == name
  {
  }

  /**
    * The row can give the campaign back: the label fits, or an earlier row already has its fields and no later version.
    */
  ghost predicate RowFits(t: Tables, c: Campaign, now: int) {
    if c.id in t then
      var row := t[c.id].row;
      row.version <= c.version && row == InsertedRow(c, now).(
        dependencyLabel := c.dependencyLabel, state := row.state, version := row.version, blast := row.blast,
        unresolvedRisks := row.unresolvedRisks, createdAt := row.createdAt, updatedAt := row.updatedAt)
    else |c.dependencyLabel| <= 255
  }

  /**
    * Loading right after an upsert gives the campaign back, field for field, exactly when it lists each repository once
    * by name and fits the columns and the row.
    */
  lemma UpsertThenLoad(t: Tables, c: Campaign, now: int)
    requires AllFit(t) && (c.id in t ==> t[c.id].row.identity == c.id)
    requires Upserted(t, c, now).Returned?
    ensures Loaded(Upserted(t, c, now).value, c.id) == Some(c)
      <==> AreByName(c.records) && (forall r | r in c.records :: IsStorable(r)) && RowFits(t, c, now)
  {
    hide IsStorable, AllFit, AreByName, Latest, Upserted, RecordsInOrder;
    UpsertHolds(t, c, now);
    UpsertedRow(t, c, now);
    LoadedEqualsExactlyWhen(c.records);
    RowGivesBack(t, c, now, RecordsInOrder(Latest(c.records)));
  }

  lemma RowGivesBack(t: Tables, c: Campaign, now: int, records: seq<Record>)
    requires c.id in t ==> t[c.id].row.identity == c.id
    ensures ToCampaign(RowAfter(t, c, now), records) == c <==> records == c.records && RowFits(t, c, now)
  {
  }

  /**
    * After any sequence of upserts, loading an identity gives the state of the last upsert that went through and the
    * largest version, and its records field for field exactly when they are listed once each by name and fit.
    */
  lemma LoadAfterWrites(writes: seq<Write>, id: CampaignId)
    requires IsWritten(Successful(writes), id)
    ensures Loaded(AfterWrites(writes), id).Some?
    ensures var c, last := Loaded(AfterWrites(writes), id).value, LastOf(Successful(writes), id);
      && (c.records == last.records <==> AreByName(last.records) && forall r | r in last.records :: IsStorable(r))
      && c.state == last.state && c.version == LargestVersion(Successful(writes), id)
  {
    hide IsStorable, AllFit, AreByName, Latest, Upserted, RecordsInOrder;
    StoreAgreesWithLastWrite(writes, id);
    LoadedEqualsExactlyWhen(LastOf(Successful(writes), id).records);
  }
}
