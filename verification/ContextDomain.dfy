/** Context candidates and the items a bundle is made of. */
module ContextDomain {
  import opened Wrappers

  datatype ItemKind =
    | TargetSymbolItem | TargetFileRegion | CallerItem | CalleeItem | ImportedDependency | IncludedHeader | RelatedTest
    | ParentSymbolItem | SiblingSymbolItem

  datatype Relationship =
    | TargetSymbol | TestsTargetFile | DirectCaller | DirectCallee | ParentSymbol | ImportDependency | IncludeDependency
    | SiblingSymbol | TransitiveCaller | TransitiveCallee

  /** Lower is better; the tie-break between items of equal score. */
  function Priority(r: Relationship): nat {
    match r
    case TargetSymbol => 0
    case TestsTargetFile => 1
    case DirectCaller => 2
    case DirectCallee => 3
    case ParentSymbol => 4
    case ImportDependency => 5
    case IncludeDependency => 6
    case SiblingSymbol => 7
    case TransitiveCaller => 8
    case TransitiveCallee => 9
  }

  datatype Candidate = Candidate(
    kind: ItemKind,
    filePath: string,
    symbolId: Option<string>,
    startLine: int,
    endLine: int,
    relationship: Relationship,
    distance: int,
    isOnChangedLine: bool,
    anchorLine: Option<int>)

  datatype Scored = Scored(candidate: Candidate, score: real)

  function Min(a: int, b: int): int { if a <= b then a else b }

  function Max(a: int, b: int): int { if a >= b then a else b }
}
