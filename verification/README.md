# PatchFrog, modelled and proved

A Dafny model of the deterministic parts of PatchFrog that carry state, and proofs of what they promise for every
input, every run and every reachable state. `dafny verify dfyconfig.toml` checks all of it.

## What is modelled

- **Signature parser and contract differ** (`SignatureScanner`, `SignatureText`, `SignatureParser`, `SignatureSyntax`,
  `SignatureSplitting`, `SignatureRoundTrip`, `SignatureMeaning`, `SignatureDelta`, `SignatureReport`). The scanner is a
  loop over a mutable mask, as in the source, proved against a one-pass scan. `SignatureSyntax` has trees for the
  function definitions of section 8.7 of the Python Language Reference, with arbitrary spacing and decorators, and
  prints them; annotations and defaults are sequences of words, symbols, quoted strings, balanced brackets and lambdas.
  The differ is compared with a definition of which calls bind.
- **Two union-find groupings** (`Connectivity`, `Conservation`, `FindingDedupe`, `ChangeGrouping`, `ChangeUnits`), in
  place on an array and in a class. The first links without any order, so its termination rests on a ghost rank; the
  second keeps every parent at or below its child.
- **Context selection** (`ContextDomain`, `CallLayers`, `ContextExpansion`, `ContextOverlap`, `ContextSnippets`,
  `ContextBudget`, `ContextTokens`, `ContextReport`, `ExpansionReport`, `AffectedSurface`, `SurfaceReport`). Repository
  queries are arbitrary finite rows, files are arbitrary lines, scores are arbitrary numbers.
- **Compatibility campaigns** (`CampaignDomain`, `CampaignStates`, `CampaignEvaluation`, `CampaignEvidence`,
  `CampaignRun`, `CampaignSafety`, `CampaignReport`, `CampaignRerun`, `CampaignHistory`, `CampaignStore`). Impact
  analysis, planning, patching, verification and publishing are arbitrary functions that may raise. The store is a class
  over two tables of rows.
- **Capped subprocess reader and wait loop** (`Sandbox`), over arbitrary reads and arbitrary moments at which the event
  loop wakes up.

`Ordering`, `OrderedSets` and `Selection` hold the stable sort, sorted sets and filtered lists the others use,
`PythonText` the whitespace rules, `Wrappers` the result types.

## Where the code departs from its own text

The model follows the code. Each of these is a theorem below.

- `patchfrog/analysis/dedupe.py:101-104` says the primary pick never depends on input order; on a tie it does
  (`PrimaryIgnoresOrderExactlyWhen`, `PrimaryCanDependOnOrder`).
- `patchfrog/context/dedup.py:17-21` says a 5-line span inside a 200-line one is not suppressed; it is whenever
  neither is exempt, since the ratio is taken of the smaller span (`NestedSpansAreSuppressed`).
- `docs/context-engine.md:105-107` says a bundle stays within the token ceiling; an item can pass it, because
  a line is never cut (`TokensCanOvershoot`) and because the second extraction takes lines in proportion to tokens as if
  all were equally long (`UnevenLinesCanOvershoot`). All items before it stay below. `CeilingHoldsExactlyWhen` and
  `LengthIsSafeExactlyWhen` say when it holds for equally long lines.
- `patchfrog/context/adaptive.py:8-12` has the policy decide which second-hop candidates survive; all of them always do
  (`GenerateAdaptive`, `AdaptiveEqualsFixed`).
- `patchfrog/campaigns/domain.py:183` says `ever_affected` is set once any evaluation found the repository affected; an
  exception after that finding drops it (`RaisingPlanForgetsAffected`), and a run with watching off clears all of it
  (`WatchOffForgets`). `AffectedIsRememberedExactlyWhen` and `EverIsKeptExactlyWhen` say when it is kept.
- `patchfrog/campaigns/orchestrate.py:12-14` promises that a re-run with the same inputs changes nothing; that holds
  exactly when entries of one name agree on their history (`RerunIsFixedExactlyWhen`, `DuplicateNamesDrift`).
- With `**kwargs` on either side the breaking verdict can be wrong both ways (`KwargsCanRaiseFalseAlarm`,
  `DroppedKwargsAreMissed`); `VerdictAgreesExactlyWhen` says when it is right. A change of parameter kind or position is
  never reported (`KeywordOnlyTurnIsMissed`, `PositionalOnlyTurnIsMissed`), while renaming a positional-only
  parameter is (`PositionalOnlyRenameIsFalseAlarm`). `CoversExactlyWhen` says, for all signatures, when the head takes
  every call, and `FullVerdictAgreesExactlyWhen` when the verdict is right about that.
- `docs/change-intelligence.md:88-89` has direct callers and callees reported as directly dependent and those two hops
  away as indirectly affected; behind the fan-out cap a direct caller can be reported at distance two
  (`CapCanOverstateDistance`). `DistancesAreExactExactlyWhen` says when all distances are true; rows that merely
  repeat a caller do no harm (`RepeatedRowsDoNoHarm`).

## Model

| member | source | states |
|---|---|---|
| SignatureScanner.TopLevelMask | patchfrog/contract_intelligence/function_signature.py:124-184 | the index loop over brackets, quotes, escapes and `lambda` marks exactly the characters a one-pass scan with bracket depth, lambda depth and quote leaves at top level |
| SignatureScanner.MaskOfConcatenation | patchfrog/contract_intelligence/function_signature.py:124-184 | scanning a concatenation is scanning its first part and then the second from the state the first leaves, unless a `lambda` word straddles the seam |
| SignatureScanner.MaskAroundSeparator | patchfrog/contract_intelligence/function_signature.py:124-184 | around a top-level separator the scan of the whole is the scan of both sides, each begun afresh |
| SignatureScanner.SplitTopLevel | patchfrog/contract_intelligence/function_signature.py:216-227 | the loop cuts at exactly the marked separators |
| SignatureScanner.SplitComposes | patchfrog/contract_intelligence/function_signature.py:216-227 | for every text, rejoining the pieces gives the text back, each piece scanned alone is marked as it was in the whole, and no piece holds a top-level separator |
| SignatureScanner.FindTopLevelIndex | patchfrog/contract_intelligence/function_signature.py:230-235 | the loop returns the first marked occurrence, or none |
| SignatureScanner.FindIsFirst | patchfrog/contract_intelligence/function_signature.py:230-235 | the index found is at top level and nothing before it is; none means there is no such occurrence |
| SignatureText.ScanText | patchfrog/contract_intelligence/function_signature.py:124-184 | on text made of words, symbols, quoted strings, balanced brackets and well-formed lambdas the scan returns to the state it started in |
| SignatureText.MaskIsOutline | patchfrog/contract_intelligence/function_signature.py:124-184 | on such text the marked characters are exactly its top-level words and symbols |
| SignatureParser.FindMatchingClose | patchfrog/contract_intelligence/function_signature.py:187-213 | the paren-only search with quotes and escapes finds the parenthesis where the depth first returns to zero |
| SignatureParser.ParseParameter | patchfrog/contract_intelligence/function_signature.py:258-316 | whatever the token: the parameter holds all of its text but whitespace, stars, name, annotation and default in this order; only a bare marker or a token in which nothing could be a name gives none |
| SignatureParser.ParsingLosesOnlySpace | patchfrog/contract_intelligence/function_signature.py:258-316 | the same of the parse as a function: no character of a token is dropped or moved to another part, for every token, legal or not |
| SignatureParser.FindMarkers | patchfrog/contract_intelligence/function_signature.py:242-251 | the last star token and the last slash token are the ones that count |
| SignatureParser.CollectParameters | patchfrog/contract_intelligence/function_signature.py:253-318 | the tokens are turned into parameters in order, bare markers skipped |
| SignatureParser.ParseParameters | patchfrog/contract_intelligence/function_signature.py:238-318 | splitting, stripping, finding markers and collecting together give the parameter list of a text |
| SignatureParser.ParseAfterHeader | patchfrog/contract_intelligence/function_signature.py:84-117 | from a recognised header: the close, the list, the return annotation, and rejection of any name that is no identifier |
| SignatureMeaning.ParsePythonSignature | patchfrog/contract_intelligence/function_signature.py:75-117 | for every text, legal or not: none without a header or without the parenthesis that closes it; none if and only if some parameter of the list has no name of the language; otherwise the name, `async`, parameters and the one annotation that an arrow after the list gives |
| SignatureMeaning.FindHeaderMeans | patchfrog/contract_intelligence/function_signature.py:29 | the header found is the one spelled at the first line that any header opens, and none is found if and only if no line is opened by one |
| SignatureMeaning.MatchingCloseMeans | patchfrog/contract_intelligence/function_signature.py:187-213 | for every text the search ends at the first parenthesis that balances those before it, counted outside string literals, and finds none if there is none |
| SignatureMeaning.MaskMeans | patchfrog/contract_intelligence/function_signature.py:124-184 | in every text without the word `lambda`, unbalanced ones included, exactly the characters outside literals with as many brackets closed as opened before them are marked |
| SignatureMeaning.ParameterListMeans | patchfrog/contract_intelligence/function_signature.py:238-318 | for every text between the parentheses: the non-blank pieces between its top-level commas, each with the kind its own stars or the slash after it and the stars before it give, read without losing text; markers and nameless pieces give no parameter |
| SignatureSplitting.SplitRendersSegments | patchfrog/contract_intelligence/function_signature.py:216-227 | a text printed as separable segments between commas falls apart into exactly those segments |
| SignatureRoundTrip.ClauseSplits | patchfrog/contract_intelligence/function_signature.py:288-298 | a default or an annotation splits off at its own sign, leaving both sides stripped |
| SignatureRoundTrip.ParameterParses | patchfrog/contract_intelligence/function_signature.py:288-316 | a printed parameter parses to itself with the kind offered for its position |
| SignatureRoundTrip.VariadicParses | patchfrog/contract_intelligence/function_signature.py:258-286 | a printed `*args` or `**kwargs` parses to itself with its own kind |
| SignatureRoundTrip.MarkersAreFound | patchfrog/contract_intelligence/function_signature.py:242-251 | in a printed list the slash and the star are found where the signature has them |
| SignatureRoundTrip.ParametersParse | patchfrog/contract_intelligence/function_signature.py:238-318 | every legal parameter list is recovered with every kind, whatever the spacing |
| SignatureRoundTrip.CloseSkipsText | patchfrog/contract_intelligence/function_signature.py:187-213 | inside a legal list the paren-only search and the three-bracket mask agree |
| SignatureRoundTrip.CloseIsFound | patchfrog/contract_intelligence/function_signature.py:187-213 | the parenthesis that closes a printed list is found |
| SignatureRoundTrip.HeaderIsFound | patchfrog/contract_intelligence/function_signature.py:29 | the header is matched at the `def`, past any decorators |
| SignatureRoundTrip.ReturnParses | patchfrog/contract_intelligence/function_signature.py:92-98 | the printed return annotation is recovered |
| SignatureRoundTrip.RoundTrip | patchfrog/contract_intelligence/function_signature.py:75-117 | printing any legal signature as a `def` header, with any legal layout and decorators, and parsing the text gives the same signature back |
| SignatureDelta.DiffParameters | patchfrog/contract_intelligence/delta.py:50-71 | the three loops over added, removed and kept names report the changes of the two name dictionaries in sorted order |
| SignatureReport.DiffSignatures | patchfrog/contract_intelligence/delta.py:50-90 | for every two signatures, in this order: new parameters by name, one removal for each lost name, changed defaults by name, at most one return characteristic and at most one of `async`; among equal names the last parameter counts |
| SignatureReport.CharacteristicsMean | patchfrog/contract_intelligence/domain.py:89-98 | when each of the ten characteristics is reported, both ways, and that the verdict is breaking if and only if a required name was gained, a name or a default lost, the return turned optional or `async` changed |
| SignatureDelta.ReportsMean | patchfrog/contract_intelligence/delta.py:56-71 | each parameter break is reported if and only if some required name was gained, some name lost, or some default lost |
| SignatureDelta.KeywordCallBinds | patchfrog/contract_intelligence/delta.py:29-33 | which keyword calls a signature accepts: all required names given and, without `**kwargs`, no unknown one |
| SignatureDelta.BreaksExactlyWhen | patchfrog/contract_intelligence/delta.py:50-71 | which pairs of signatures break some keyword call, `**kwargs` included |
| SignatureDelta.VerdictIsExact | patchfrog/contract_intelligence/domain.py:89-98 | without `*args` or `**kwargs`, a breaking parameter characteristic is reported if and only if some keyword call accepted before is rejected after |
| SignatureDelta.VerdictAgreesExactlyWhen | patchfrog/contract_intelligence/domain.py:89-98 | with `**kwargs` on either side, the report and the truth about keyword calls agree if and only if a required name was gained or a default lost, or else, with `**kwargs` in the head, no name was lost, and, without, `**kwargs` was not all that was lost |
| SignatureDelta.KwargsCanRaiseFalseAlarm | patchfrog/contract_intelligence/delta.py:50-71 | an optional parameter that gives way to `**kwargs` is reported and breaks no keyword call |
| SignatureDelta.DroppedKwargsAreMissed | patchfrog/contract_intelligence/delta.py:50-71 | dropping `**kwargs` is not reported and breaks the keyword calls that used it |
| SignatureDelta.CallBinds | patchfrog/contract_intelligence/delta.py:29-33 | how a call binds, by its number of positional arguments: the shape is admitted, every needed keyword is given, and every given one is allowed |
| SignatureDelta.CoversExactlyWhen | patchfrog/contract_intelligence/domain.py:89-98 | for all signatures, whatever the kinds: the head takes every call the base took if and only if, for every number of positional arguments up to one more than the longer side has positions, it admits them too, asks for no further keyword and allows no fewer |
| SignatureDelta.FullVerdictAgreesExactlyWhen | patchfrog/contract_intelligence/domain.py:89-98 | for all signatures and all calls, the report and the truth agree if and only if a required name gained, a name lost or a default lost goes together with a number of positional arguments that the head does not cover |
| SignatureDelta.SilenceIsRightExactlyWhen | patchfrog/contract_intelligence/delta.py:50-71 | where every parameter takes a keyword, the same by positions alone: a silent verdict is right for every call if and only if the head has no fewer positions and, for every number of positional arguments, every base name they fill in the head they filled in the base, and every name they filled in the base that the head requires they fill in the head |
| SignatureDelta.SilenceCoversEveryCall | patchfrog/contract_intelligence/delta.py:50-71 | whatever the kinds, a silent verdict is right when the head keeps the positional order of the base and adds only behind it, keeps `*args` and `**kwargs`, and what took a keyword still does |
| SignatureDelta.KeywordOnlyTurnIsMissed | patchfrog/contract_intelligence/delta.py:53-71 | kinds are not compared: a parameter turned keyword-only is silent and breaks a positional call |
| SignatureDelta.PositionalOnlyTurnIsMissed | patchfrog/contract_intelligence/delta.py:53-71 | a parameter turned positional-only is silent and breaks a keyword call |
| SignatureDelta.PositionalOnlyRenameIsFalseAlarm | patchfrog/contract_intelligence/delta.py:53-71 | renaming a positional-only parameter is reported and breaks no call |
| SignatureDelta.OrderDoesNotMatter | patchfrog/contract_intelligence/delta.py:53-71 | reordering the parameters of either side changes nothing in the parameter characteristics |
| FindingDedupe.DuplicatesAreNotTransitive | patchfrog/analysis/dedupe.py:75-93 | three findings show that being a duplicate pair is not transitive |
| FindingDedupe.DuplicatesAreOneIssue | patchfrog/analysis/dedupe.py:75-97 | two findings are a duplicate pair if and only if they share a line in one file and category, are not two rules of one analyzer and not in two known symbols |
| FindingDedupe.Find | patchfrog/analysis/dedupe.py:53-57 | path halving returns the root and keeps every root, and ends although a parent may have a larger index than its child |
| FindingDedupe.HalvingKeepsForest | patchfrog/analysis/dedupe.py:53-57 | one halving step keeps the forest: ranks still rise towards the roots and every root is the same |
| FindingDedupe.Union | patchfrog/analysis/dedupe.py:59-62 | linking moves exactly the members of the second root under the first |
| FindingDedupe.LinkDuplicates | patchfrog/analysis/dedupe.py:64-67 | after all pairs, two findings share a root exactly when they are connected by duplicate pairs |
| FindingDedupe.ConnectedComponents | patchfrog/analysis/dedupe.py:49-72 | the groups are exactly the classes of the reflexive, symmetric and transitive closure of the pair relation, each finding in one group, in order of first appearance |
| FindingDedupe.GroupsIgnoreInputOrder | patchfrog/analysis/dedupe.py:49-72 | rearranging the input rearranges the groups and changes none of them |
| FindingDedupe.PrimaryIsBest | patchfrog/analysis/dedupe.py:100-116 | the primary finding is no worse than any other of its group |
| FindingDedupe.KeyLeMeans | patchfrog/analysis/dedupe.py:101-115 | one finding sorts before another if and only if the other does not outrank it by the declared levels |
| FindingDedupe.PrimaryIgnoresOrderExactlyWhen | patchfrog/analysis/dedupe.py:100-116 | the primary pick is independent of the order of the group if and only if the group has one best finding |
| FindingDedupe.PrimaryCanDependOnOrder | patchfrog/analysis/dedupe.py:100-116 | two duplicate findings that tie in severity, confidence and analyzer: whichever comes first is primary |
| FindingDedupe.Deduplicate | patchfrog/analysis/dedupe.py:44-46 | for every list of findings: one result for each class of the closure of being one issue, in order of first appearance, reporting exactly its findings ranked by severity, confidence and analyzer; every finding is reported exactly as often as given |
| FindingDedupe.TogetherOnlyThroughChain | patchfrog/analysis/dedupe.py:64-72 | two findings are reported together only through a chain of findings each of which is one issue with the next |
| FindingDedupe.IssueIsNotSplit | patchfrog/analysis/dedupe.py:64-72 | findings that are one issue are never spread over two results |
| ChangeGrouping.UnionFind.Find | patchfrog/change_intelligence/grouping.py:51-55 | halving returns the root of the component and moves no root |
| ChangeGrouping.UnionFind.Union | patchfrog/change_intelligence/grouping.py:57-66 | the two components get the lower of their roots, and no other root moves |
| ChangeGrouping.HalvingKeepsRoots | patchfrog/change_intelligence/grouping.py:51-55 | halving keeps every parent at or below its child and every root as it was |
| ChangeGrouping.UnionsCapture | patchfrog/change_intelligence/grouping.py:57-66 | after any sequence of unions, sharing a root is being connected by them, and every root is the least index of its component |
| ChangeGrouping.LeastRootsAreDetermined | patchfrog/change_intelligence/grouping.py:60-66 | partition and least roots are determined by the relation alone |
| ChangeGrouping.UnionOrderDoesNotMatter | patchfrog/change_intelligence/grouping.py:60-66 | any two sequences of unions that span the same evidence leave the same roots |
| ChangeUnits.UniteCalls | patchfrog/change_intelligence/grouping.py:104-115 | every resolved call edge within the fan-out cap is united, in both directions |
| ChangeUnits.UniteParents | patchfrog/change_intelligence/grouping.py:117-126 | every containment edge between changed symbols is united, and children are filed under their parents |
| ChangeUnits.UniteFamilies | patchfrog/change_intelligence/grouping.py:127-129 | siblings are chained pairwise |
| ChangeUnits.UniteImports | patchfrog/change_intelligence/grouping.py:131-148 | candidates of a file and of a file it imports are united |
| ChangeUnits.ChainConnects | patchfrog/change_intelligence/grouping.py:127-129 | chaining siblings pairwise connects every two of them |
| ChangeUnits.EvidenceIsSpanned | patchfrog/change_intelligence/grouping.py:104-148 | whatever evidence relates two candidates, the unions made connect them |
| ChangeUnits.RelatedIsPointing | patchfrog/change_intelligence/grouping.py:104-148 | two symbols are related if and only if one is among the first fifty callers or callees of the other, its child or its sibling, or in a file that imports the file of the other |
| ChangeUnits.GroupIntoChangeUnits | patchfrog/change_intelligence/grouping.py:69-164 | for every order in which the changed symbols are walked: the units hold exactly the connected components of the evidence, one each, and so every candidate exactly as often as given; members, and units by their first member, ascend by path, line and name |
| Conservation.ComponentsConserve | patchfrog/change_intelligence/grouping.py:154-164 | lists that hold the components of a relation, one each and in any order, hold every element exactly as often as it was given |
| ChangeUnits.WalkOrderDoesNotMatter | patchfrog/change_intelligence/grouping.py:69-164 | any two orders of walking the changed symbols give equal lists of units |
| ChangeUnits.NoSymbolStandsAlone | patchfrog/change_intelligence/grouping.py:150-152 | a candidate without a symbol is a unit of its own |
| ChangeUnits.SiblingsShareUnit | patchfrog/change_intelligence/grouping.py:127-129 | candidates whose symbols are siblings are in one unit |
| ContextSnippets.WindowKeepsAnchor | patchfrog/context/snippets.py:111-121 | the window lies in the span, is at most the cap long and exactly that when truncated, and contains the anchor |
| ContextSnippets.WindowsNest | patchfrog/context/snippets.py:111-121 | the window of a smaller cap lies inside that of a larger one |
| ContextSnippets.WindowIsNearest | patchfrog/context/snippets.py:111-121 | of all windows as long as the cap the one chosen begins nearest to half a cap before the anchor |
| ContextSnippets.LeadInIsKept | patchfrog/context/snippets.py:63-70 | the lead-in stays whenever half a window reaches back to it; without an anchor the first lines stay |
| ContextSnippets.Extract | patchfrog/context/snippets.py:104-126 | a snippet exists exactly for a readable file with the start line in it; it is exactly the lines of its window |
| ContextSnippets.JoinRoundTrip | patchfrog/context/snippets.py:122-126 | cutting the text of a snippet at its newlines gives its lines back |
| ContextBudget.EstimateTokens | patchfrog/context/tokens.py:14-17 | the estimate is at least one exactly for non-empty text |
| ContextBudget.EstimateIsLeast | patchfrog/context/tokens.py:14-17 | the estimate is the least number of tokens, of four characters each, that hold the text |
| ContextBudget.FitSnippet | patchfrog/context/budgeting.py:110-143 | a snippet exists exactly where the span has lines; it is the lines of a window around the anchor, inside the one the line cap gives, and that one itself whenever its tokens fit |
| ContextBudget.Build | patchfrog/context/budgeting.py:44-182 | the loop over ranked candidates leaves exactly the items, counters and totals of taking them one by one |
| ContextBudget.FitKeepsAnchor | patchfrog/context/budgeting.py:122-143 | the second, stricter trim stays inside the first and keeps the anchor |
| ContextBudget.BudgetIsKept | patchfrog/context/budgeting.py:67-182 | for every input: lines and distance-2 lines within their limits, all items but the last below the token limits, the cap for each relationship kept, items a subsequence of the input, and items plus drops the whole input |
| ContextBudget.DroppedOnlyFor | patchfrog/context/budgeting.py:83-148 | the only reasons a candidate is dropped; size alone is none |
| ContextReport.RunTakesTurns | patchfrog/context/budgeting.py:67-182 | for every list, limits and files: each candidate in turn is skipped for one of the listed reasons, or exactly its text under the caps that the items before it leave is taken |
| ContextBudget.TokensCanOvershoot | patchfrog/context/budgeting.py:122-143 | a single line longer than the token limit is taken whole, since a line is never cut |
| ContextTokens.CeilingHoldsExactlyWhen | patchfrog/context/budgeting.py:89-182 | along a run over any candidates of equally long lines the token ceiling holds if and only if none is taken while fewer tokens are left than one of its lines costs; it is passed by less than the dearest line costs. What can be checked before a run is the next two rows |
| ContextTokens.ShortLinesStayBelow | patchfrog/context/budgeting.py:89-182 | with lines of at most four characters it always holds, whatever the limits and the number of candidates |
| ContextTokens.LengthIsSafeExactlyWhen | patchfrog/context/budgeting.py:89-182 | a line length keeps the ceiling for all candidates, files and limits if and only if it is at most four characters |
| ContextTokens.SingleCandidateFitsExactlyWhen | patchfrog/context/budgeting.py:110-143 | one candidate of equally long lines stays within the ceiling if and only if one of its lines does |
| ContextTokens.EvenFit | patchfrog/context/budgeting.py:122-143 | the proportional second extraction of equally long lines costs no more than the token cap or is one line |
| ContextTokens.UnevenLinesCanOvershoot | patchfrog/context/budgeting.py:122-143 | with lines of different lengths the ceiling is passed although every line fits it, since the second extraction takes a share of the lines as if all were equally long |
| ContextOverlap.Deduplicate | patchfrog/context/dedup.py:62-109 | the nested loops keep, count and order what the greedy filter over the ranked candidates does |
| ContextOverlap.KeptIsTheGreedySelection | patchfrog/context/dedup.py:69-107 | the kept candidates are the only selection in which a candidate is in exactly when no earlier selected one suppresses it |
| ContextOverlap.SelectionIsMaximal | patchfrog/context/dedup.py:47-109 | kept ones are in rank order and none suppresses another; each dropped one has a kept one in its file, of no worse rank, that suppresses it; the counts add up |
| ContextOverlap.BestScoreComesFirst | patchfrog/context/dedup.py:47-63 | the best score of all candidates survives at the front, and scores never rise along the kept list |
| ContextOverlap.RankingMeans | patchfrog/context/dedup.py:47-55 | the ranking, both ways: score, relationship in its declared order, path, start line, symbol |
| ContextOverlap.FilteringTwiceChangesNothing | patchfrog/context/dedup.py:62-109 | filtering a selection again keeps all of it |
| ContextOverlap.SelectionIgnoresInputOrder | patchfrog/context/dedup.py:47-63 | without rank ties the result does not depend on the order of the input |
| ContextOverlap.InputOrderIsIgnoredExactlyWhen | patchfrog/context/dedup.py:47-63 | the result is independent of the input order if and only if of any two different tied candidates one is suppressed already by what is kept before the first of them |
| ContextOverlap.TiesFollowInputOrder | patchfrog/context/dedup.py:63 | of two overlapping candidates that tie in rank, the one listed first survives |
| ContextOverlap.SuppressionIsSymmetric | patchfrog/context/dedup.py:58-59 | suppression does not depend on which of the two came first |
| ContextOverlap.SuppressionMeans | patchfrog/context/dedup.py:58-99 | one candidate suppresses another if and only if they are one span of one symbol, or neither is a parent and at least three fifths of the shorter one is shared, counted in lines |
| ContextOverlap.NestedSpansAreSuppressed | patchfrog/context/dedup.py:90-99 | of two nested spans in one file one suppresses the other if and only if they are duplicates or neither is exempt, however small the inner one is |
| CallLayers.FirstLayerIsDistanceOne | patchfrog/context/candidates.py:454-458 | the neighbours of the roots without the roots are exactly the symbols at distance one |
| CallLayers.SecondLayerIsDistanceTwo | patchfrog/context/candidates.py:475-481 | what expanding part of the first layer adds is at distance two, and expanding all of it adds everything at distance two |
| ContextExpansion.CallEdgeCandidates | patchfrog/context/candidates.py:424-496 | the candidates of both hops, in id order, labelled with kind, relationship and distance; unresolved symbols and files yield none |
| ContextExpansion.HopsAreLayers | patchfrog/context/candidates.py:454-494 | for every graph, cycles included: hop one is exactly distance one, hop two only distance two, and all of it when hop one fits in the root cap |
| ContextExpansion.SecondHopIsWholeExactlyWhen | patchfrog/context/candidates.py:454-494 | the second hop is all of distance two if and only if what the symbols left unexpanded lead to, beyond the first hop and the roots, is led to by the expanded ones too |
| ContextExpansion.RootsNeverReappear | patchfrog/context/candidates.py:446-452 | no root is in either hop, and the hops share no symbol |
| ContextExpansion.CandidatesAreResolvedIds | patchfrog/context/candidates.py:402-422 | a hop has a candidate for exactly the ids with a symbol and a file |
| ExpansionReport.HopsAreReported | patchfrog/context/candidates.py:425-494 | for every index: both hops in terms of its rows, by id, with the first so many near symbols expanded, and each resolved symbol labelled for its hop with its span and whether a changed line lies in it |
| ContextExpansion.Decide | patchfrog/context/adaptive.py:65-132 | expansion happens exactly when a second hop exists, in exactly the directions that have one; each reason is given exactly when it applies, in the fixed order |
| ExpansionReport.ReasonsMean | patchfrog/context/adaptive.py:76-116 | when each reason for expanding applies, in terms of the candidates of both hops, the category and the span of the target |
| ContextExpansion.Generate | patchfrog/context/candidates.py:64-94 | fixed generation is the other candidates, then callers near and far, then callees near and far |
| ContextExpansion.GenerateAdaptive | patchfrog/context/candidates.py:96-187 | adaptive generation selects every far candidate it found, whatever the finding category |
| ExpansionReport.GenerationIsReported | patchfrog/context/candidates.py:64-187 | fixed and adaptive generation: which hops of which wanted directions follow the other candidates, and in which order |
| ContextExpansion.AdaptiveEqualsFixed | patchfrog/context/candidates.py:138-187 | both modes give the same candidates, as a multiset, at the same depth |
| AffectedSurface.CollectLayer | patchfrog/change_intelligence/affected_surface.py:63-72 | the capped callers and callees of a set, outside an excluded set |
| AffectedSurface.PutSymbols | patchfrog/change_intelligence/affected_surface.py:74-82 | each resolved id gets one entry of the given relation and distance, and no other entry changes |
| AffectedSurface.PutTests | patchfrog/change_intelligence/affected_surface.py:116-136 | exactly the indexed likely tests of changed files get a test entry |
| AffectedSurface.DeriveAffectedSurface | patchfrog/change_intelligence/affected_surface.py:49-142 | the surface is the first 25 ranked entries of a complete set of findings: tests, distance one, distance two |
| SurfaceReport.SurfaceIsReported | patchfrog/change_intelligence/affected_surface.py:49-142 | for every index and change: the first twenty-five, ranked by relation, path and name, of one reference for every likely test and every symbol one or two capped calls away |
| AffectedSurface.SurfaceIsUnique | patchfrog/change_intelligence/affected_surface.py:138-142 | index and changed symbols determine the surface: ties in rank are equal entries |
| AffectedSurface.ReportedDistancesAreReal | patchfrog/change_intelligence/affected_surface.py:63-114 | every reported distance is the length of a walk from a changed symbol in the whole call graph |
| AffectedSurface.DistancesAreExactExactlyWhen | patchfrog/change_intelligence/affected_surface.py:63-114 | all distances found are the true ones of the whole call graph if and only if everything the cap hides behind the changed symbols, and then behind those at distance one, is shown by another row or known already |
| AffectedSurface.DistancesAreExactWithoutCaps | patchfrog/change_intelligence/affected_surface.py:63-114 | in particular when no row looked up is beyond the cap |
| AffectedSurface.RepeatedRowsDoNoHarm | patchfrog/change_intelligence/affected_surface.py:66 | fifty-one call sites of one caller pass the cap and leave every distance true |
| CallLayers.LayersAgreeExactlyWhen | patchfrog/change_intelligence/affected_surface.py:63-114 | for any two graphs of which one has fewer edges, its first two layers are those of the other if and only if neither expansion loses a symbol not seen before |
| AffectedSurface.CapCanOverstateDistance | patchfrog/change_intelligence/affected_surface.py:66 | fifty call sites of one caller hide the next: every surface of such an index reports a direct caller of the changed symbol at distance two |
| AffectedSurface.TruncationKeepsTheBest | patchfrog/change_intelligence/affected_surface.py:138-142 | what the cap leaves out never ranks before what it keeps |
| CampaignDomain.CollectReasons | patchfrog/campaigns/domain.py:274-280 | the loop keeps each stripped, cut, non-blank reason once, in order, up to the cap |
| CampaignDomain.ReasonsAreBounded | patchfrog/campaigns/domain.py:274-280 | the first twelve distinct reasons, all of them when there are fewer, each 1 to 400 characters, none twice |
| CampaignDomain.CutTextIsLongest | patchfrog/campaigns/domain.py:274-280 | of each reason the longest beginning of its stripped text of at most 400 characters |
| CampaignDomain.DistinctAreNews | patchfrog/campaigns/domain.py:274-280 | the reasons kept are, in order, exactly those that say something no earlier one says |
| CampaignStates.DoneOnlyByFreshEvidence | patchfrog/campaigns/state.py:68-112 | a repository is done exactly on fresh evidence of no effect, and resolved exactly if it was affected before |
| CampaignStates.AffectedStateMeans | patchfrog/campaigns/state.py:83-112 | every state of a freshly affected repository, both ways, by its verification, its pull request and its migration |
| CampaignStates.UnsettledStateMeans | patchfrog/campaigns/state.py:71-82 | a repository that failed, is out of reach, stale or unknown is in the state that says so |
| CampaignStates.OpenedIsUpdated | patchfrog/campaigns/state.py:63-93 | an opened and an updated pull request give the same state |
| CampaignStates.FamiliesPartitionStates | patchfrog/campaigns/domain.py:111-131 | every state is in exactly one of done, in flight and blocking |
| CampaignStates.CampaignStateMeans | patchfrog/campaigns/state.py:115-134 | what each campaign state says about the repositories, both ways |
| CampaignEvaluation.FreshnessOnlyAges | patchfrog/campaigns/freshness.py:34-47 | a discovery goes from not yet credible to fresh to stale and never back, so once stale it stays stale, and it is fresh at every time between two at which it is |
| CampaignEvaluation.ClassifyMeans | patchfrog/campaigns/blast.py:43-60 | affected and not affected both need fresh evidence and an impact that says so |
| CampaignEvaluation.EvaluationIsHonest | patchfrog/campaigns/evaluate.py:165-285 | whatever raises, the record agrees with its classification, is done only when not affected, and carries a plan only for an affected repository |
| CampaignEvidence.EvaluationShows | patchfrog/campaigns/evaluate.py:97-285 | for every entry and whichever engine call raises: evidence that is not fresh is not looked at, what raises leaves a failure with its scrubbed error, and otherwise the record shows the impact of the best evidence and all of the work done for it |
| CampaignEvaluation.ClockShowsOnlyInFreshness | patchfrog/campaigns/evaluate.py:165-198 | two evaluations at times of equal freshness differ only in the timestamp |
| CampaignEvaluation.HistoryShowsOnlyWhenUnaffected | patchfrog/campaigns/evaluate.py:152-162 | an earlier record matters only through its `ever_affected`, and not at all to an affected repository |
| CampaignEvaluation.AffectedIsRememberedExactlyWhen | patchfrog/campaigns/evaluate.py:180-285 | on any path of evidence, a repository found affected keeps the flag if and only if it had it before or the planning, patching, verification and description that follow go through; otherwise it is recorded as failed |
| CampaignEvaluation.RaisingPlanForgetsAffected | patchfrog/campaigns/evaluate.py:189-198 | a repository found affected whose planning raises is recorded as failed without the flag |
| CampaignRun.SafeExactlyWhenAllUnaffected | patchfrog/campaigns/blast.py:63-76 | the blast radius is safe exactly when something is enrolled and all of it is known to be unaffected |
| CampaignReport.BlastRadiusReports | patchfrog/campaigns/blast.py:63-76 | for every list of classifications: each of the three lists names, in order, exactly those of its class, their lengths add up to the total, reasons are kept under exactly the names that have one, and the relevant names are counted |
| CampaignRun.PublishedExactlyWhen | patchfrog/campaigns/policy.py:84-103 | when the publisher is called for one repository, and when as a draft, both ways |
| CampaignRun.PublishPhase | patchfrog/campaigns/orchestrate.py:134-173 | the loop publishes each evaluation by itself and collects decisions, pull requests and calls |
| CampaignRun.RunCampaign | patchfrog/campaigns/orchestrate.py:190-262 | the run with its loop over entries and its publication phase equals the run as a function, which the next rows say everything about |
| CampaignReport.RunMeans | patchfrog/campaigns/orchestrate.py:190-262 | for every run that analyzes: which entries are in scope; what each evaluation shows and what publishing leaves of it; and that blast radius, state, risks, version, change and identity are those of exactly these records |
| CampaignReport.OffRunMeans | patchfrog/campaigns/orchestrate.py:218-230 | a run with watching off looks at nothing, says so, and keeps version, scope and identity |
| CampaignReport.OutcomeIsPublished | patchfrog/campaigns/orchestrate.py:134-173 | for every evaluation and answer of the publisher: the decision, whether and how the publisher is called, and the state, error, pull request and reasons it leaves |
| CampaignReport.DecisionMeans | patchfrog/campaigns/policy.py:84-103 | which action and which notice the policy, an approval and the eligibility give, for every combination |
| CampaignReport.StateSumsUp | patchfrog/campaigns/state.py:115-134 | each campaign state, both ways, by the states of the repositories |
| CampaignReport.RisksReported | patchfrog/campaigns/orchestrate.py:176-188 | exactly the records that are neither done nor on their way are named as risks, in order, with their first action, error or reason; then the number that could not be classified |
| CampaignSafety.RecordsAreIsolated | patchfrog/campaigns/orchestrate.py:232-239 | a record depends on its own entry, its own past and the settings, and on no other entry |
| CampaignSafety.PublishingKeepsStanding | patchfrog/campaigns/orchestrate.py:105-119 | publishing, or failing to, never turns a record into a done one and never touches its classification |
| CampaignSafety.ResolvedExactlyWhenSafe | patchfrog/campaigns/domain.py:211-213 | for every list of entries and every pattern of failures, a run ends resolved if and only if its blast radius is safe |
| CampaignSafety.EveryCallIsAllowed | patchfrog/campaigns/orchestrate.py:122-173 | over a whole run, pull requests are asked for only under the mode that opens them, for affected repositories verified well enough, approved where needed, and as drafts when only partly verified |
| CampaignRerun.RerunIsFixedExactlyWhen | patchfrog/campaigns/orchestrate.py:190-262 | from any previous campaign, a second run with the same inputs reports no change if and only if each entry agrees on its history with the first entry of its name |
| CampaignRerun.RerunIsAFixedPoint | patchfrog/campaigns/orchestrate.py:12-14 | with one entry for each repository the second run gives an equal campaign of the same version, up to evaluation times and opened/updated |
| CampaignRerun.DuplicateNamesDrift | patchfrog/campaigns/orchestrate.py:215-216 | a repository listed twice, once affected and once not, is reported as changed by an identical re-run |
| CampaignHistory.VersionCountsChanges | patchfrog/campaigns/orchestrate.py:243-248 | over every sequence of runs the version is one plus the number of analyzing runs that found a change |
| CampaignHistory.ChangedExactlyWhen | patchfrog/campaigns/orchestrate.py:90-102 | a change is a different campaign state or a record that differs in more than its time or opened/updated |
| CampaignHistory.EverStays | patchfrog/campaigns/evaluate.py:234-235 | over any stretch of analyzing runs that keep a repository in scope, having been affected is never forgotten |
| CampaignHistory.EverIsKeptExactlyWhen | patchfrog/campaigns/orchestrate.py:190-262 | one run keeps the flag of a repository if and only if it analyzes and has the repository in scope |
| CampaignHistory.ResolvedHasCause | patchfrog/campaigns/state.py:70-79 | a resolved record is fresh and not affected, and a strictly earlier run recorded the repository as affected |
| CampaignHistory.WatchOffForgets | patchfrog/campaigns/orchestrate.py:218-230 | a run with watching off reports no change but wipes the history, so a repository that would read as resolved reads as never affected |
| CampaignStore.RecordRoundTrip | patchfrog/campaigns/store.py:77-122 | a record comes back from its row field for field if and only if its name and error fit the columns |
| CampaignStore.ColumnsKeep | patchfrog/campaigns/store.py:77-122 | what a row keeps unchanged, and which part of an error |
| CampaignStore.Store.GetRow | patchfrog/campaigns/store.py:126-131 | the one row of an identity, or none |
| CampaignStore.WriteRecords | patchfrog/campaigns/store.py:181-197 | every record goes to its row or a new one; stops exactly when two rows would share a repository |
| CampaignStore.RemoveStale | patchfrog/campaigns/store.py:198-205 | exactly the rows of repositories that left the campaign are deleted |
| CampaignStore.Store.Upsert | patchfrog/campaigns/store.py:150-207 | the tables after an upsert, as a function of the tables before it; a violated constraint changes nothing |
| CampaignStore.Store.Load | patchfrog/campaigns/store.py:133-135 | the stored campaign with its records in repository order |
| CampaignStore.ConflictsExactlyWhen | migrations/versions/0038_compatibility_campaigns.py:80 | with names that fit, an upsert raises if and only if it would insert one repository twice |
| CampaignStore.LegalUpsertHolds | patchfrog/campaigns/store.py:12-13 | an upsert with one record for each repository never raises and leaves exactly those records |
| CampaignStore.UpsertHolds | patchfrog/campaigns/store.py:150-207 | an upsert that goes through, whatever its records, leaves exactly the columns its last record of each repository gives |
| CampaignStore.LatestIsLast | patchfrog/campaigns/store.py:181-197 | under each name cut to the column, the columns of the last record that has it |
| CampaignStore.StoreAgreesWithLastWrite | patchfrog/campaigns/store.py:150-207 | after any sequence of upserts, whatever they list and whichever raise: one entry for each identity, state and records of the last that went through, the largest version seen, descriptive fields and creation time of the first, and touched when last its state changed or its version rose |
| CampaignStore.LoadedEqualsExactlyWhen | patchfrog/campaigns/store.py:77-225 | stored records read back as the list they came from if and only if it names each repository once, in order, and every record fits the columns |
| CampaignStore.UpsertThenLoad | patchfrog/campaigns/store.py:150-225 | loading after an upsert that goes through gives the campaign back field for field if and only if it names each repository once, in order, and fits the columns and the row |
| CampaignStore.LoadAfterWrites | patchfrog/campaigns/store.py:133-225 | after any sequence of upserts, whichever raise, loading gives the state of the last that went through and the largest version, and its records field for field if and only if they name each repository once, in order, and fit |
| Sandbox.ReadCapped | patchfrog/analysis/subprocess_sandbox.py:192-204 | for every cut of a stream into reads: its first `cap` bytes, flagged exactly when there were more |
| Sandbox.RecuttingKeepsTheStream | patchfrog/analysis/subprocess_sandbox.py:192-204 | cutting one read in two changes nothing |
| Sandbox.WaitForExit | patchfrog/analysis/subprocess_sandbox.py:142-163 | an exit that was reported is never called a timeout; a process is given up on only at its deadline or after the grace; the loop ends within the scheduling lag of deadline, grace and exit, after at most four waits |

## Left out

- Non-ASCII letters, digits and whitespace in `isalnum`, `isidentifier` and `strip`: characters are ASCII here.
- Triple-quoted strings and comments inside a header: the scanner does not know them either, so the legal texts of the
  round trip exclude them.
- The regular expression for optional return annotations (`patchfrog/contract_intelligence/delta.py:41`): an arbitrary
  predicate on text.
- ContextBudget.FitSnippet: the proportional line cap is computed exactly, where the source multiplies by a float
  quotient and can be one line off.
- Sandbox.WaitForExit: bounds hold up to the lag with which the event loop wakes up and the clock is read, since the
  source cannot promise less.
- Floating-point rounding: scores, reservation and timeouts are real numbers, the overlap ratio is exact.
- Path resolution, file size limits and decoding of `ContextSnippetService.extract`: a file is its lines, or unreadable.
- Symbol names, reason texts and score breakdowns of context candidates and items: carried along unchanged.
- Scoring weights, and the parent, sibling, test and import candidates of a bundle: arbitrary inputs to the later steps.
- `FindingDedupe.GroupsIgnoreInputOrder`: says that the groups are the same, not the order they are listed in, which
  follows the first member of each.
- Database sessions, queries, advisory locks and asynchronous scheduling: tables are maps of rows, steps are sequential,
  a constraint violation is an error that leaves the tables as they were.
- `list_for_workspace`, and the order of rows a database returns without `ORDER BY`: call rows come in some given order.
- SHA-256 fingerprints, JSON columns and time zones: identities are tuples, stored lists are themselves, times are
  numbers.
- The wording of unresolved risks and the regular expressions that scrub credentials: risks are records, scrubbing is an
  arbitrary function of the text.
- The internals of impact analysis, migration planning, verification and publishing: arbitrary functions that may raise;
  only the eligibility rule of `patchfrog/migration_pr/eligibility.py` is kept.
- Process creation, signals and the wait after a kill: the model ends with the verdict of the wait loop.
- Command-line tools, applications, rendering and prose, path keyword tables, comment tracking: text and wiring with
  shallow properties.
