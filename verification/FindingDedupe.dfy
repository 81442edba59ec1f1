/** Cross-analyzer findings grouped by union-find, and the primary finding of a group. */
module FindingDedupe {
  import opened Wrappers
  import opened Ordering
  import opened Connectivity
  import opened Conservation

  datatype Severity = Critical | High | Medium | Low | Info

  datatype Confidence = HighConfidence | MediumConfidence | LowConfidence

  datatype Finding = Finding(
    filePath: string,
    category: string,
    startLine: int,
    endLine: int,
    analyzer: string,
    ruleId: string,
    symbol: Option<string>,
    severity: Severity,
    confidence: Confidence,
    message: string)

  predicate SpansOverlap(a: Finding, b: Finding) {
    a.startLine <= b.endLine && b.startLine <= a.endLine
  }

  predicate IsDuplicatePair(a: Finding, b: Finding) {
    && a.filePath == b.filePath
    && a.category == b.category
    && SpansOverlap(a, b)
    && !(a.analyzer == b.analyzer && a.ruleId != b.ruleId)
    && !(a.symbol.Some? && b.symbol.Some? && a.symbol != b.symbol)
  }

  /** The duplicate relation on the indices of a list of findings. */
  ghost function Duplicates(fs: seq<Finding>): (nat, nat) -> bool {
    (i: nat, j: nat) => i < |fs| && j < |fs| && IsDuplicatePair(fs[i], fs[j])
  }

  // ----- What makes two findings one issue

  ghost predicate IsOnLine(f: Finding, line: int) { f.startLine <= line <= f.endLine }

  ghost predicate ShareLine(a: Finding, b: Finding) { exists line :: IsOnLine(a, line) && IsOnLine(b, line) }

  ghost predicate HasLines(f: Finding) { exists line :: IsOnLine(f, line) }

  ghost predicate EndsBefore(a: Finding, b: Finding) { a.endLine < b.startLine }

  /**
    * Two findings report one issue: in one file and category, with a line in common; one analyzer means one rule, and
    * two known symbols mean one symbol. A span without lines is compared by its ends.
    */
  ghost predicate SameIssue(a: Finding, b: Finding) {
    && a.filePath == b.filePath && a.category == b.category
    && (if HasLines(a) && HasLines(b) then ShareLine(a, b) else !EndsBefore(a, b) && !EndsBefore(b, a))
    && (a.analyzer == b.analyzer ==> a.ruleId == b.ruleId)
    && forall s, t | a.symbol == Some(s) && b.symbol == Some(t) :: s == t
  }

  lemma DuplicatesAreOneIssue(a: Finding, b: Finding)
    ensures IsDuplicatePair(a, b) <==> SameIssue(a, b)
  {
    assert a.startLine <= a.endLine ==> IsOnLine(a, a.startLine);
    assert b.startLine <= b.endLine ==> IsOnLine(b, b.startLine);
    if IsDuplicatePair(a, b) && a.startLine <= a.endLine && b.startLine <= b.endLine {
      var line := if a.startLine <= b.startLine then b.startLine else a.startLine;
      assert IsOnLine(a, line) && IsOnLine(b, line);
    }
    if a.symbol.Some? && b.symbol.Some? {
      assert a.symbol == Some(a.symbol.value) && b.symbol == Some(b.symbol.value);
    }
  }

  /** The relation of being one issue, on the indices of a list of findings. */
  ghost function Issues(fs: seq<Finding>): (nat, nat) -> bool {
    (i: nat, j: nat) => i < |fs| && j < |fs| && SameIssue(fs[i], fs[j])
  }

  lemma ComponentsOfIssues(ix: seq<seq<nat>>, fs: seq<Finding>)
    requires AreComponents(ix, |fs|, Duplicates(fs))
    ensures AreComponents(ix, |fs|, Issues(fs))
  {
    hide IsDuplicatePair, SameIssue, AreComponents;
    forall i: nat, j: nat ensures Linked(Duplicates(fs), i, j) <==> Linked(Issues(fs), i, j) {
      if i < |fs| && j < |fs| {
        DuplicatesAreOneIssue(fs[i], fs[j]);
        DuplicatesAreOneIssue(fs[j], fs[i]);
      }
    }
    SameComponents(ix, |fs|, Duplicates(fs), Issues(fs));
  }

  /**
    * Transitivity is what the pairwise relation lacks: three findings where only the middle one overlaps both others.
    */
  lemma DuplicatesAreNotTransitive()
    ensures exists a, b, c :: IsDuplicatePair(a, b) && IsDuplicatePair(b, c) && !IsDuplicatePair(a, c)
  {
    var b := Finding("a.py", "style", 1, 9, "ruff", "R", None, Low, HighConfidence, "");
    var a, c := b.(startLine := 1, endLine := 2), b.(startLine := 8, endLine := 9);
    assert IsDuplicatePair(a, b) && IsDuplicatePair(b, c) && !IsDuplicatePair(a, c);
  }

  // ----- Union-find with path halving; the root found first wins, so a parent may be larger than its child

  /**
    * The ghost view of a parent array: `root` is where each index ends up, `rank` rises along every parent link and
    * is bounded, which is why following links stops.
    */
  datatype View = View(root: seq<nat>, rank: seq<nat>, bound: nat)

  ghost predicate Node(parent: seq<nat>, v: View, i: nat)
    requires |v.root| == |v.rank| == |parent| && i < |parent|
  {
    && parent[i] < |parent| && v.root[i] < |parent| && v.rank[i] <= v.bound
    && (parent[i] != i ==> v.rank[i] < v.rank[parent[i]])
    && v.root[parent[i]] == v.root[i]
    && (parent[i] == i <==> v.root[i] == i)
    && parent[v.root[i]] == v.root[i]
  }

  ghost predicate Forest(parent: seq<nat>, v: View) {
    && |v.root| == |v.rank| == |parent|
    && forall i: nat | i < |parent| :: Node(parent, v, i)
  }

  lemma ForestStep(parent: seq<nat>, v: View, i: nat)
    requires Forest(parent, v) && i < |parent|
    ensures |v.root| == |v.rank| == |parent| && Node(parent, v, i) && Node(parent, v, parent[i])
  {
    assert Node(parent, v, i);
  }

  lemma HalvingKeepsForest(parent: seq<nat>, v: View, i: nat)
    requires Forest(parent, v) && i < |parent|
    ensures parent[i] < |parent| && parent[parent[i]] < |parent| && Forest(parent[i := parent[parent[i]]], v)
  {
    ForestStep(parent, v, i);
    var q := parent[i := parent[parent[i]]];
    assert Node(parent, v, parent[i]) && Node(parent, v, parent[parent[i]]);
    forall k: nat | k < |parent| ensures Node(q, v, k) {
      assert Node(parent, v, k) && Node(parent, v, v.root[k]);
    }
  }

  method Find(parent: array<nat>, start: nat, ghost v: View) returns (r: nat)
    requires Forest(parent[..], v) && start < parent.Length
    modifies parent
    ensures Forest(parent[..], v)
    ensures r < parent.Length && |v.root| == parent.Length && r == v.root[start] && parent[r] == r
  {
    hide Forest;
    var i := start;
    ForestStep(parent[..], v, i);
    while parent[i] != i
      invariant 0 <= i < parent.Length && |v.root| == |v.rank| == parent.Length && v.rank[i] <= v.bound
      invariant Forest(parent[..], v) && v.root[i] == v.root[start]
      decreases v.bound - v.rank[i]
    {
      ghost var before := parent[..];
      ForestStep(before, v, i);
      ForestStep(before, v, before[i]);
      HalvingKeepsForest(before, v, i);
      parent[i] := parent[parent[i]];
      assert parent[..] == before[i := before[before[i]]];
      i := parent[i];
      ForestStep(parent[..], v, i);
    }
    ForestStep(parent[..], v, i);
    assert parent[..][i] == i;
    r := i;
  }

  /** The view after `rj` is hung under `ri`: one class less, and a rank for `ri` above that of `rj`. */
  ghost function Merged(v: View, ri: nat, rj: nat): (w: View)
    requires ri < |v.rank| == |v.root| && rj < |v.rank|
    ensures |w.root| == |v.root|
    ensures forall k | 0 <= k < |v.root| :: w.root[k] == if v.root[k] == rj then ri else v.root[k]
  {
    var higher := if v.rank[ri] > v.rank[rj] then v.rank[ri] else v.rank[rj] + 1;
    View(seq(|v.root|, k requires 0 <= k < |v.root| => if v.root[k] == rj then ri else v.root[k]),
         v.rank[ri := higher], v.bound + higher)
  }

  lemma HangingKeepsForest(parent: seq<nat>, v: View, ri: nat, rj: nat)
    requires Forest(parent, v) && ri < |parent| && rj < |parent| && ri != rj && parent[ri] == ri && parent[rj] == rj
    ensures Forest(parent[rj := ri], Merged(v, ri, rj))
  {
    var q, w := parent[rj := ri], Merged(v, ri, rj);
    assert Node(parent, v, ri) && Node(parent, v, rj);
    forall k: nat | k < |parent| ensures Node(q, w, k) {
      assert Node(parent, v, k) && Node(parent, v, v.root[k]) && Node(parent, v, parent[k]);
    }
  }

  method Union(parent: array<nat>, i: nat, j: nat, ghost v: View) returns (ghost w: View)
    requires Forest(parent[..], v) && i < parent.Length && j < parent.Length
    modifies parent
    ensures Forest(parent[..], w)
    ensures |w.root| == |v.root| == parent.Length
    ensures forall k | 0 <= k < |v.root| :: w.root[k] == if v.root[k] == v.root[j] then v.root[i] else v.root[k]
  {
    hide Forest;
    ForestStep(parent[..], v, i);
    var rootI := Find(parent, i, v);
    var rootJ := Find(parent, j, v);
    w := v;
    if rootI != rootJ {
      ghost var before := parent[..];
      ForestStep(before, v, rootI);
      ForestStep(before, v, rootJ);
      assert before[rootJ] == rootJ;
      RootIsOwnRoot(before, v, i);
      HangingKeepsForest(before, v, rootI, rootJ);
      parent[rootJ] := rootI;
      assert parent[..] == before[rootJ := rootI];
      w := Merged(v, rootI, rootJ);
    }
  }

  lemma RootIsOwnRoot(parent: seq<nat>, v: View, i: nat)
    requires Forest(parent, v) && i < |parent|
    ensures v.root[i] < |parent| && parent[v.root[i]] == v.root[i]
  {
    assert Node(parent, v, i);
  }

  // ----- All pairs

  /** Every merge made so far is justified, and every duplicate pair before `(i, j)` has been merged. */
  ghost predicate Progress(fs: seq<Finding>, root: seq<nat>, i: nat, j: nat) {
    && |root| == |fs|
    && (forall x: nat, y: nat | x < |fs| && y < |fs| && root[x] == root[y] :: Connected(Duplicates(fs), x, y))
    && (forall x: nat, y: nat | x < y < |fs| && (x < i || (x == i && y < j)) && IsDuplicatePair(fs[x], fs[y]) ::
          root[x] == root[y])
  }

  lemma NothingMerged(fs: seq<Finding>, root: seq<nat>)
    requires |root| == |fs| && forall k | 0 <= k < |fs| :: root[k] == k
    ensures Progress(fs, root, 0, 1)
  {
    forall x: nat | x < |fs| ensures Connected(Duplicates(fs), x, x) {
      ConnectedToSelf(Duplicates(fs), x);
    }
  }

  lemma PairIsNoDuplicate(fs: seq<Finding>, root: seq<nat>, i: nat, j: nat)
    requires i < j < |fs| && Progress(fs, root, i, j) && !IsDuplicatePair(fs[i], fs[j])
    ensures Progress(fs, root, i, j + 1)
  {
  }

  lemma RowIsDone(fs: seq<Finding>, root: seq<nat>, i: nat)
    requires Progress(fs, root, i, |fs|)
    ensures Progress(fs, root, i + 1, i + 2)
  {
  }

  lemma MergeKeepsProgress(fs: seq<Finding>, root: seq<nat>, merged: seq<nat>, i: nat, j: nat)
    requires i < j < |fs| && Progress(fs, root, i, j) && IsDuplicatePair(fs[i], fs[j]) && |merged| == |root|
    requires forall k | 0 <= k < |root| :: merged[k] == if root[k] == root[j] then root[i] else root[k]
    ensures Progress(fs, merged, i, j + 1)
  {
    hide Connected, IsDuplicatePair;
    var r := Duplicates(fs);
    LinkConnects(r, i, j);
    ConnectedBothWays(r, i, j);
    forall x: nat, y: nat | x < |fs| && y < |fs| && merged[x] == merged[y] ensures Connected(r, x, y) {
      if root[x] != root[y] {
        if root[x] == root[j] {
          ConnectedThrough(r, x, j, i);
          ConnectedThrough(r, x, i, y);
        } else {
          ConnectedThrough(r, x, i, j);
          ConnectedThrough(r, x, j, y);
        }
      }
    }
  }

  lemma DuplicatesAreSymmetric(a: Finding, b: Finding)
    ensures IsDuplicatePair(a, b) == IsDuplicatePair(b, a)
  {
  }

  /** When every pair has been looked at, the roots capture the components. */
  lemma AllPairsCapture(fs: seq<Finding>, root: seq<nat>)
    requires Progress(fs, root, |fs|, |fs| + 1)
    ensures Captures(root, Duplicates(fs))
  {
    hide IsDuplicatePair;
    var r := Duplicates(fs);
    var mark := (k: nat) => if k < |root| then root[k] else k;
    forall a: nat, b: nat | r(a, b) ensures mark(a) == mark(b) {
      DuplicatesAreSymmetric(fs[a], fs[b]);
    }
    forall x: nat, y: nat | x < |root| && y < |root| && Connected(r, x, y) ensures root[x] == root[y] {
      var p :| Walk(r, x, p, y);
      LabelIsConstant(r, mark, x, p, y);
    }
  }

  method LinkDuplicates(parent: array<nat>, fs: seq<Finding>, ghost start: View) returns (ghost v: View)
    requires parent.Length == |fs| && Forest(parent[..], start) && |start.root| == |fs|
    requires forall k | 0 <= k < |fs| :: start.root[k] == k
    modifies parent
    ensures Forest(parent[..], v) && |v.root| == |fs| && Captures(v.root, Duplicates(fs))
  {
    hide Forest, Progress, Captures;
    v := start;
    var n := |fs|;
    NothingMerged(fs, v.root);
    for i := 0 to n
      invariant Forest(parent[..], v) && |v.root| == n && Progress(fs, v.root, i, i + 1)
    {
      for j := i + 1 to n
        invariant Forest(parent[..], v) && |v.root| == n && Progress(fs, v.root, i, j)
      {
        if IsDuplicatePair(fs[i], fs[j]) {
          ghost var before := v;
          v := Union(parent, i, j, v);
          MergeKeepsProgress(fs, before.root, v.root, i, j);
        } else {
          PairIsNoDuplicate(fs, v.root, i, j);
        }
      }
      RowIsDone(fs, v.root, i);
    }
    AllPairsCapture(fs, v.root);
  }

  // ----- The groups

  ghost predicate PicksOf(fs: seq<Finding>, ix: seq<seq<nat>>, groups: seq<seq<Finding>>) {
    && |groups| == |ix|
    && forall k | 0 <= k < |ix| :: Below(ix[k], |fs|) && groups[k] == Pick(fs, ix[k])
  }

  /** The groups are the findings at the components of the duplicate relation. */
  ghost predicate IsGrouping(fs: seq<Finding>, groups: seq<seq<Finding>>) {
    exists ix :: AreComponents(ix, |fs|, Duplicates(fs)) && PicksOf(fs, ix, groups)
  }

  lemma NextMember(fs: seq<Finding>, labels: seq<nat>, i: nat, root: nat)
    requires i < |fs| == |labels|
    ensures GroupOf(labels[..i + 1], root) == GroupOf(labels[..i], root) + if labels[i] == root then [i] else []
    ensures Firsts(labels[..i + 1])
         == if labels[i] in Firsts(labels[..i]) then Firsts(labels[..i]) else Firsts(labels[..i]) + [labels[i]]
    ensures root !in Firsts(labels[..i]) ==> GroupOf(labels[..i], root) == []
  {
    assert labels[..i + 1][..i] == labels[..i];
    if root !in Firsts(labels[..i]) {
      NoGroupYet(labels[..i], root);
    }
  }

  /** The findings of one label among the first `i`. */
  function Labelled(fs: seq<Finding>, labels: seq<nat>, i: nat, root: nat): seq<Finding>
    requires i <= |fs| == |labels|
  {
    Pick(fs, GroupOf(labels[..i], root))
  }

  lemma LabelledGrows(fs: seq<Finding>, labels: seq<nat>, i: nat, root: nat)
    requires i < |fs| == |labels|
    ensures Labelled(fs, labels, i + 1, root) == Labelled(fs, labels, i, root) + if labels[i] == root then [fs[i]]
      else []
    ensures root !in Firsts(labels[..i]) ==> Labelled(fs, labels, i, root) == []
  {
    hide GroupOf, Firsts;
    NextMember(fs, labels, i, root);
    if labels[i] == root {
      PickOneMore(fs, GroupOf(labels[..i], root), i);
    }
  }

  /** The dictionary of groups after the first `i` findings. */
  ghost predicate Collected(fs: seq<Finding>, labels: seq<nat>, i: nat, order: seq<nat>,
                            members: map<nat, seq<Finding>>) {
    && i <= |fs| == |labels|
    && order == Firsts(labels[..i])
    && (forall x: nat :: x in members <==> x in order)
    && (forall x | x in members :: members[x] == Labelled(fs, labels, i, x))
  }

  lemma CollectedGrows(fs: seq<Finding>, labels: seq<nat>, i: nat, order: seq<nat>, members: map<nat, seq<Finding>>)
    requires i < |fs| && Collected(fs, labels, i, order, members)
    ensures var root := labels[i];
      var order' := if root in members then order else order + [root];
      var before := if root in members then members[root] else [];
      Collected(fs, labels, i + 1, order', members[root := before + [fs[i]]])
  {
    hide Labelled, Firsts;
    var root := labels[i];
    NextMember(fs, labels, i, root);
    forall x ensures Labelled(fs, labels, i + 1, x)
      == Labelled(fs, labels, i, x) + if labels[i] == x then [fs[i]] else []
    {
      LabelledGrows(fs, labels, i, x);
    }
    LabelledGrows(fs, labels, i, root);
  }

  /**
    * The groups are exactly the classes of the closure of the duplicate relation, each finding in exactly one,
    * groups and members in order of appearance.
    */
  method ConnectedComponents(fs: seq<Finding>) returns (groups: seq<seq<Finding>>)
    ensures IsGrouping(fs, groups)
  {
    hide AreComponents, Captures, GroupOf, Firsts, IsDuplicatePair;
    var n := |fs|;
    var parent := new nat[n](k => k);
    ghost var v := View(seq(n, k => k), seq(n, _ => 0), 0);
    v := LinkDuplicates(parent, fs, v);
    LabelledGroupsAreComponents(v.root, Duplicates(fs));
    groups := CollectGroups(parent, fs, v);
    assert AreComponents(GroupsByLabel(v.root), |fs|, Duplicates(fs)) && PicksOf(fs, GroupsByLabel(v.root), groups);
  }

  method CollectGroups(parent: array<nat>, fs: seq<Finding>, ghost v: View) returns (groups: seq<seq<Finding>>)
    requires parent.Length == |fs| == |v.root| && Forest(parent[..], v)
    modifies parent
    ensures PicksOf(fs, GroupsByLabel(v.root), groups)
  {
    hide Forest, GroupOf, Firsts, Collected, PicksOf;
    var n := |fs|;
    var order: seq<nat>, members: map<nat, seq<Finding>> := [], map[];
    NothingCollected(fs, v.root);
    for i := 0 to n
      invariant Forest(parent[..], v) && Collected(fs, v.root, i, order, members)
    {
      var root := Find(parent, i, v);
      CollectedGrows(fs, v.root, i, order, members);
      ghost var next := members[root := (if root in members then members[root] else []) + [fs[i]]];
      if root !in members {
        order, members := order + [root], members[root := []];
      }
      members := members[root := members[root] + [fs[i]]];
      assert members == next;
    }
    AllCollected(fs, v.root, order, members);
    groups := seq(|order|, k requires 0 <= k < |order| && order[k] in members => members[order[k]]);
  }

  lemma NothingCollected(fs: seq<Finding>, labels: seq<nat>)
    requires |fs| == |labels|
    ensures Collected(fs, labels, 0, [], map[])
  {
  }

  lemma AllCollected(fs: seq<Finding>, labels: seq<nat>, order: seq<nat>, members: map<nat, seq<Finding>>)
    requires |fs| == |labels| && Collected(fs, labels, |fs|, order, members)
    ensures forall x | x in order :: x in members
    ensures PicksOf(fs, GroupsByLabel(labels), seq(|order|, k requires 0 <= k < |order| && order[k] in members =>
                                                   members[order[k]]))
  {
    hide GroupOf, Firsts;
    assert labels[..|labels|] == labels;
  }

  // ----- The groups do not depend on the order of the findings

  ghost predicate SameGroup(ix: seq<seq<nat>>, i: nat, j: nat) {
    exists a: nat :: InGroup(ix, i, a) && InGroup(ix, j, a)
  }

  lemma SameGroupIsConnected(ix: seq<seq<nat>>, n: nat, r: (nat, nat) -> bool, i: nat, j: nat)
    requires AreComponents(ix, n, r) && i < n && j < n
    ensures SameGroup(ix, i, j) <==> Connected(r, i, j)
  {
    hide Connected;
    assert Grouped(ix, i) && Grouped(ix, j);
    var a: nat :| InGroup(ix, i, a);
    var b: nat :| InGroup(ix, j, b);
    assert a == b <==> Connected(r, i, j);
    if SameGroup(ix, i, j) {
      var c: nat :| InGroup(ix, i, c) && InGroup(ix, j, c);
      GroupsAreDisjoint(ix, n, r, a, c, i);
      GroupsAreDisjoint(ix, n, r, b, c, j);
    }
  }

  ghost predicate Rearranges(fs: seq<Finding>, place: seq<nat>, gs: seq<Finding>) {
    && |place| == |gs| == |fs|
    && forall k | 0 <= k < |gs| :: place[k] < |fs| && gs[k] == fs[place[k]]
  }

  lemma {:induction false} WalkIsCarried(fs: seq<Finding>, place: seq<nat>, gs: seq<Finding>, i: nat, p: seq<nat>,
                                         j: nat)
    requires Rearranges(fs, place, gs) && i < |gs| && j < |gs|
    requires Walk(Duplicates(gs), i, p, j)
    ensures Connected(Duplicates(fs), place[i], place[j])
    decreases |p|
  {
    hide IsDuplicatePair;
    var r := Duplicates(fs);
    if p == [] {
      ConnectedToSelf(r, place[i]);
    } else {
      WalkIsCarried(fs, place, gs, p[0], p[1..], j);
      LinkConnects(r, place[i], place[p[0]]);
      ConnectedThrough(r, place[i], place[p[0]], place[j]);
    }
  }

  /** Permuting the findings permutes the groups and nothing else: the same findings are grouped together. */
  lemma GroupsIgnoreInputOrder(fs: seq<Finding>, gs: seq<Finding>, place: seq<nat>, back: seq<nat>,
                               ix: seq<seq<nat>>, jx: seq<seq<nat>>, i: nat, j: nat)
    requires Rearranges(fs, place, gs) && Rearranges(gs, back, fs)
    requires forall k | 0 <= k < |fs| :: back[place[k]] == k
    requires AreComponents(ix, |fs|, Duplicates(fs)) && AreComponents(jx, |gs|, Duplicates(gs))
    requires i < |gs| && j < |gs|
    ensures SameGroup(jx, i, j) <==> SameGroup(ix, place[i], place[j])
  {
    hide AreComponents, IsDuplicatePair, Walk;
    SameGroupIsConnected(jx, |gs|, Duplicates(gs), i, j);
    SameGroupIsConnected(ix, |fs|, Duplicates(fs), place[i], place[j]);
    if Connected(Duplicates(gs), i, j) {
      var p :| Walk(Duplicates(gs), i, p, j);
      WalkIsCarried(fs, place, gs, i, p, j);
    }
    if Connected(Duplicates(fs), place[i], place[j]) {
      var p :| Walk(Duplicates(fs), place[i], p, place[j]);
      WalkIsCarried(gs, back, fs, place[i], p, place[j]);
    }
  }

  // ----- The primary finding of a group

  function SeverityRank(s: Severity): nat {
    match s case Critical => 0 case High => 1 case Medium => 2 case Low => 3 case Info => 4
  }

  function ConfidenceRank(c: Confidence): nat {
    match c case HighConfidence => 0 case MediumConfidence => 1 case LowConfidence => 2
  }

  /** Most severe first, then most confident, then by name of the analyzer. */
  predicate KeyLe(a: Finding, b: Finding) {
    var s, t := SeverityRank(a.severity), SeverityRank(b.severity);
    var c, d := ConfidenceRank(a.confidence), ConfidenceRank(b.confidence);
    s < t || (s == t && (c < d || (c == d && StringLe(a.analyzer, b.analyzer))))
  }

  lemma KeyLeIsTotalPreorder()
    ensures TotalPreorder(KeyLe)
  {
    StringLeIsTotalPreorder();
  }

  datatype DeduplicatedFinding = DeduplicatedFinding(primary: Finding, reportedBy: seq<Finding>)

  function BuildGroup(group: seq<Finding>): (d: DeduplicatedFinding)
    requires group != []
    ensures multiset(d.reportedBy) == multiset(group) && d.primary in group && d.reportedBy[0] == d.primary
    ensures Ascending(d.reportedBy, KeyLe)
  {
    var ordered := Sort(group, KeyLe);
    SortIsPermutation(group, KeyLe);
    KeyLeIsTotalPreorder();
    SortIsAscending(group, KeyLe);
    assert ordered[0] in multiset(ordered);
    DeduplicatedFinding(ordered[0], ordered)
  }

  ghost predicate IsBest(f: Finding, group: seq<Finding>) {
    f in group && forall g | g in group :: KeyLe(f, g)
  }

  lemma PrimaryIsBest(group: seq<Finding>)
    requires group != []
    ensures IsBest(BuildGroup(group).primary, group)
  {
    hide KeyLe, Sort;
    KeyLeIsTotalPreorder();
    var d := BuildGroup(group);
    forall g | g in group ensures KeyLe(d.primary, g) {
      assert g in multiset(d.reportedBy);
      var k :| 0 <= k < |d.reportedBy| && d.reportedBy[k] == g;
      assert k == 0 || KeyLe(d.reportedBy[0], d.reportedBy[k]);
    }
  }

  // ----- The order of a group, by the declared levels

  const SEVERITIES := [Critical, High, Medium, Low, Info]
  const CONFIDENCES := [HighConfidence, MediumConfidence, LowConfidence]

  ghost predicate Above<T>(levels: seq<T>, x: T, y: T) {
    exists i, j :: 0 <= i < j < |levels| && levels[i] == x && levels[j] == y
  }

  /** More severe, or as severe and more confident, or as confident and by an analyzer of an earlier name. */
  ghost predicate Outranks(a: Finding, b: Finding) {
    || Above(SEVERITIES, a.severity, b.severity)
    || (a.severity == b.severity && Above(CONFIDENCES, a.confidence, b.confidence))
    || (a.severity == b.severity && a.confidence == b.confidence && !ComesFirst(b.analyzer, a.analyzer))
  }

  lemma SeverityLevels(s: Severity, t: Severity)
    ensures Above(SEVERITIES, s, t) <==> SeverityRank(s) < SeverityRank(t)
  {
    assert forall k | 0 <= k < |SEVERITIES| :: SeverityRank(SEVERITIES[k]) == k;
    assert SEVERITIES[SeverityRank(s)] == s && SEVERITIES[SeverityRank(t)] == t;
  }

  lemma ConfidenceLevels(c: Confidence, d: Confidence)
    ensures Above(CONFIDENCES, c, d) <==> ConfidenceRank(c) < ConfidenceRank(d)
  {
    assert forall k | 0 <= k < |CONFIDENCES| :: ConfidenceRank(CONFIDENCES[k]) == k;
    assert CONFIDENCES[ConfidenceRank(c)] == c && CONFIDENCES[ConfidenceRank(d)] == d;
  }

  lemma KeyLeMeans(a: Finding, b: Finding)
    ensures KeyLe(a, b) <==> !Outranks(b, a)
  {
    hide Above, SeverityRank, ConfidenceRank, ComesFirst, StringLe;
    SeverityLevels(a.severity, b.severity);
    SeverityLevels(b.severity, a.severity);
    ConfidenceLevels(a.confidence, b.confidence);
    ConfidenceLevels(b.confidence, a.confidence);
    RanksAreDistinct(a, b);
    StringLeMeans(a.analyzer, b.analyzer);
  }

  lemma RanksAreDistinct(a: Finding, b: Finding)
    ensures SeverityRank(a.severity) == SeverityRank(b.severity) ==> a.severity == b.severity
    ensures ConfidenceRank(a.confidence) == ConfidenceRank(b.confidence) ==> a.confidence == b.confidence
  {
  }

  /** A best finding that comes first in the list is the one that is picked. */
  lemma BestInFrontIsPrimary(f: Finding, rest: seq<Finding>)
    requires forall g | g in rest :: KeyLe(f, g)
    ensures BuildGroup([f] + rest).primary == f
  {
    hide KeyLe;
    SortIsPermutation(rest, KeyLe);
    assert ([f] + rest)[1..] == rest;
    if rest != [] {
      assert Sort(rest, KeyLe)[0] in multiset(Sort(rest, KeyLe));
    }
  }

  lemma MoveToFront(group: seq<Finding>, f: Finding) returns (rest: seq<Finding>)
    requires f in group
    ensures multiset([f] + rest) == multiset(group)
  {
    var i :| 0 <= i < |group| && group[i] == f;
    rest := group[..i] + group[i + 1..];
    assert group == group[..i] + [f] + group[i + 1..];
  }

  lemma SameMembersOf(xs: seq<Finding>, ys: seq<Finding>)
    requires multiset(xs) == multiset(ys)
    ensures forall f :: f in xs <==> f in ys
  {
    assert forall f :: f in xs <==> f in multiset(xs);
    assert forall f :: f in ys <==> f in multiset(ys);
  }

  /** The pick is the same for every order of the group. */
  ghost predicate PrimaryIgnoresOrder(group: seq<Finding>)
    requires group != []
  {
    forall other | other != [] && multiset(other) == multiset(group) ::
      BuildGroup(other).primary == BuildGroup(group).primary
  }

  /**
    * The primary finding does not depend on the order of the input exactly when the best key belongs to one finding:
    * two different findings that tie on severity, confidence and analyzer leave the choice to the order.
    */
  lemma PrimaryIgnoresOrderExactlyWhen(group: seq<Finding>)
    requires group != []
    ensures PrimaryIgnoresOrder(group) <==> forall a, b | IsBest(a, group) && IsBest(b, group) :: a == b
  {
    hide BuildGroup, KeyLe;
    if forall a, b | IsBest(a, group) && IsBest(b, group) :: a == b {
      forall other | other != [] && multiset(other) == multiset(group)
        ensures BuildGroup(other).primary == BuildGroup(group).primary
      {
        SameMembersOf(other, group);
        PrimaryIsBest(other);
        PrimaryIsBest(group);
        assert IsBest(BuildGroup(other).primary, group);
      }
    }
    if PrimaryIgnoresOrder(group) {
      forall a, b | IsBest(a, group) && IsBest(b, group) ensures a == b {
        var x := MoveToFront(group, a);
        var y := MoveToFront(group, b);
        SameMembersOf([a] + x, group);
        SameMembersOf([b] + y, group);
        assert forall g | g in x :: g in [a] + x;
        assert forall g | g in y :: g in [b] + y;
        BestInFrontIsPrimary(a, x);
        BestInFrontIsPrimary(b, y);
      }
    }
  }

  /** Such a tie is possible: one rule of one analyzer at two overlapping spans. */
  lemma PrimaryCanDependOnOrder()
    ensures exists a, b :: IsDuplicatePair(a, b) && BuildGroup([a, b]).primary == a != b == BuildGroup([b, a]).primary
  {
    var a := Finding("a.py", "style", 1, 2, "ruff", "R", None, Low, HighConfidence, "");
    var b := a.(startLine := 2, endLine := 3);
    StringLeTotal("ruff", "ruff");
    assert [a] + [b] == [a, b] && [b] + [a] == [b, a];
    BestInFrontIsPrimary(a, [b]);
    BestInFrontIsPrimary(b, [a]);
    assert IsDuplicatePair(a, b) && a != b;
  }

  ghost predicate IsDeduplicated(fs: seq<Finding>, out: seq<DeduplicatedFinding>) {
    exists groups :: IsGrouping(fs, groups) && AreBuilt(groups, out)
  }

  ghost predicate AreBuilt(groups: seq<seq<Finding>>, out: seq<DeduplicatedFinding>) {
    |out| == |groups| && forall k | 0 <= k < |groups| :: groups[k] != [] && out[k] == BuildGroup(groups[k])
  }

  function ReportsOf(out: seq<DeduplicatedFinding>): (r: seq<seq<Finding>>)
    ensures |r| == |out| && forall k | 0 <= k < |r| :: r[k] == out[k].reportedBy
  {
    seq(|out|, k requires 0 <= k < |out| => out[k].reportedBy)
  }

  /** The first report is the primary one, and no report outranks one before it. */
  ghost predicate IsRanked(d: DeduplicatedFinding) {
    && d.reportedBy != [] && d.primary == d.reportedBy[0]
    && forall i, j | 0 <= i < j < |d.reportedBy| :: !Outranks(d.reportedBy[j], d.reportedBy[i])
  }

  /**
    * One result for each class of the closure of being one issue, in order of first appearance: it reports exactly the
    * findings of its class, ranked, and every finding is reported exactly as often as it was given.
    */
  ghost predicate ReportsIssuesOnce(fs: seq<Finding>, out: seq<DeduplicatedFinding>) {
    && multiset(Flat(ReportsOf(out))) == multiset(fs)
    && (forall d | d in out :: IsRanked(d))
    && exists ix :: AreComponents(ix, |fs|, Issues(fs)) && ReportComponents(fs, out, ix)
  }

  ghost predicate ReportComponents(fs: seq<Finding>, out: seq<DeduplicatedFinding>, ix: seq<seq<nat>>) {
    && |ix| == |out| && AllBelow(ix, |fs|)
    && forall k | 0 <= k < |ix| :: Below(ix[k], |fs|) && multiset(out[k].reportedBy) == multiset(Pick(fs, ix[k]))
  }

  lemma BuiltIsRanked(group: seq<Finding>)
    requires group != []
    ensures IsRanked(BuildGroup(group))
  {
    hide KeyLe, Outranks;
    var d := BuildGroup(group);
    assert |multiset(d.reportedBy)| == |multiset(group)|;
    forall i, j | 0 <= i < j < |d.reportedBy| ensures !Outranks(d.reportedBy[j], d.reportedBy[i]) {
      KeyLeMeans(d.reportedBy[i], d.reportedBy[j]);
    }
  }

  lemma IssuesAreReportedOnce(fs: seq<Finding>, out: seq<DeduplicatedFinding>)
    requires IsDeduplicated(fs, out)
    ensures ReportsIssuesOnce(fs, out)
  {
    hide BuildGroup, AreComponents, IsRanked;
    var groups :| IsGrouping(fs, groups) && AreBuilt(groups, out);
    var ix :| AreComponents(ix, |fs|, Duplicates(fs)) && PicksOf(fs, ix, groups);
    forall d | d in out ensures IsRanked(d) {
      var k :| 0 <= k < |out| && out[k] == d;
      BuiltIsRanked(groups[k]);
    }
    ComponentsOfIssues(ix, fs);
    assert AllBelow(ix, |fs|);
    assert ReportComponents(fs, out, ix);
    assert Bags(ReportsOf(out)) == Bags(PickEach(fs, ix));
    ComponentsConserve(ReportsOf(out), fs, ix, Issues(fs));
  }

  /** From the first to the last, each finding and the next are one issue. */
  ghost predicate IsChain(fs: seq<Finding>, chain: seq<Finding>) {
    && chain != [] && (forall f | f in chain :: f in fs)
    && forall k | 0 <= k < |chain| - 1 :: SameIssue(chain[k], chain[k + 1])
  }

  lemma {:induction false} ChainOfWalk(fs: seq<Finding>, i: nat, p: seq<nat>, j: nat) returns (chain: seq<Finding>)
    requires i < |fs| && Walk(Issues(fs), i, p, j)
    ensures IsChain(fs, chain) && chain[0] == fs[i] && j < |fs| && chain[|chain| - 1] == fs[j]
    decreases |p|
  {
    hide SameIssue, IsChain;
    if p == [] {
      chain := [fs[i]];
      assert IsChain(fs, chain) by { ChainOfOne(fs, fs[i]); }
    } else {
      IssueBothWays(fs, i, p[0]);
      var rest := ChainOfWalk(fs, p[0], p[1..], j);
      ChainGrows(fs, fs[i], rest);
      chain := [fs[i]] + rest;
    }
  }

  lemma ChainOfOne(fs: seq<Finding>, f: Finding)
    requires f in fs
    ensures IsChain(fs, [f])
  {
  }

  lemma ChainGrows(fs: seq<Finding>, f: Finding, rest: seq<Finding>)
    requires IsChain(fs, rest) && f in fs && SameIssue(f, rest[0])
    ensures IsChain(fs, [f] + rest)
    ensures ([f] + rest)[0] == f && ([f] + rest)[|rest|] == rest[|rest| - 1]
  {
    hide SameIssue;
  }

  lemma IssueBothWays(fs: seq<Finding>, i: nat, j: nat)
    requires i < |fs| && Linked(Issues(fs), i, j)
    ensures j < |fs| && SameIssue(fs[i], fs[j])
  {
  }

  /** Findings are reported together only through a chain of findings each of which is one issue with the next. */
  lemma TogetherOnlyThroughChain(fs: seq<Finding>, out: seq<DeduplicatedFinding>, k: nat, a: Finding, b: Finding)
    requires ReportsIssuesOnce(fs, out) && k < |out| && a in out[k].reportedBy && b in out[k].reportedBy
    ensures exists chain :: IsChain(fs, chain) && chain[0] == a && chain[|chain| - 1] == b
  {
    hide IsRanked, IsChain, SameIssue, Flat;
    var ix :| AreComponents(ix, |fs|, Issues(fs)) && ReportComponents(fs, out, ix);
    var i := PositionOf(fs, out, ix, k, a);
    var j := PositionOf(fs, out, ix, k, b);
    assert InGroup(ix, i, k) && InGroup(ix, j, k);
    var p :| Walk(Issues(fs), i, p, j);
    var chain := ChainOfWalk(fs, i, p, j);
  }

  lemma PositionOf(fs: seq<Finding>, out: seq<DeduplicatedFinding>, ix: seq<seq<nat>>, k: nat, a: Finding)
    returns (i: nat)
    requires ReportComponents(fs, out, ix) && k < |out| && a in out[k].reportedBy
    ensures i in ix[k] && i < |fs| && fs[i] == a
  {
    var group := Pick(fs, ix[k]);
    assert a in multiset(out[k].reportedBy);
    assert a in multiset(group);
    var m :| 0 <= m < |group| && group[m] == a;
    i := ix[k][m];
  }

  /** And one issue is never spread over two results. */
  lemma IssueIsNotSplit(fs: seq<Finding>, out: seq<DeduplicatedFinding>, k: nat, m: nat, a: Finding, b: Finding)
    requires ReportsIssuesOnce(fs, out) && k < |out| && m < |out|
    requires a in out[k].reportedBy && b in out[m].reportedBy && SameIssue(a, b)
    ensures k == m
  {
    hide IsRanked, SameIssue, Connected, Flat;
    var ix :| AreComponents(ix, |fs|, Issues(fs)) && ReportComponents(fs, out, ix);
    var i := PositionOf(fs, out, ix, k, a);
    var j := PositionOf(fs, out, ix, m, b);
    assert InGroup(ix, i, k) && InGroup(ix, j, m);
    LinkConnects(Issues(fs), i, j);
  }

  method Deduplicate(fs: seq<Finding>) returns (out: seq<DeduplicatedFinding>)
    ensures IsDeduplicated(fs, out)
    ensures ReportsIssuesOnce(fs, out)
  {
    hide BuildGroup, IsGrouping, ReportsIssuesOnce;
    var groups := ConnectedComponents(fs);
    GroupsAreNotEmpty(fs, groups);
    out := [];
    for k := 0 to |groups|
      invariant |out| == k
      invariant forall j | 0 <= j < k :: out[j] == BuildGroup(groups[j])
    {
      out := out + [BuildGroup(groups[k])];
    }
    assert AreBuilt(groups, out);
    IssuesAreReportedOnce(fs, out);
  }

  lemma GroupsAreNotEmpty(fs: seq<Finding>, groups: seq<seq<Finding>>)
    requires IsGrouping(fs, groups)
    ensures forall k | 0 <= k < |groups| :: groups[k] != []
  {
    hide Connected;
    var ix :| AreComponents(ix, |fs|, Duplicates(fs)) && PicksOf(fs, ix, groups);
    forall k | 0 <= k < |groups| ensures groups[k] != [] {
      assert ix[k] in ix && |groups[k]| == |ix[k]|;
    }
  }
}
