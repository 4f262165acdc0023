# Retrieval evaluation engine: model and proofs

The repository evaluates retrieval offline: it checks the lineage of four JSONL files, derives the evidence-group
registry, validates Gold cases, ranks corpus rows, scores the ranking and summarises runs. This project models that
engine in Dafny and proves what it guarantees for all inputs.

Code that changes things step by step is written as methods (a shared error list, index dictionaries, loops that append,
mutable environments, an index object) and proved against functions; the lemmas are about those functions. Decoded JSON is
a datatype (`Json.Json`), a row is a map from field to value, and every branch and error of the modelled code is kept,
as an error value where the code raises.

| files | what they model |
|---|---|
| `Collections`, `Json`, `Sorting`, `Text`, `Reals`, `Rounding` | sequences and counts, JSON values, Python's string order and stable sort, split/join, decimal rounding |
| `Scoring`, `ScoringTheorems`, `LegacyScoring` | the Gold v2 scorer, the Gold v1 scorer and the entry point choosing between them |
| `AdmissionMeaning`, `ScoreMeaning`, `LegacyMeaning` | what is scored and what each field of a score means, in terms of rows and fields alone |
| `Compatibility`, `CompatibilityTheorems` | the lineage report over Gold, groups, children and corpus |
| `FieldRelations`, `CheckMeaning`, `CaseMeaning`, `GroupMeaning`, `PassMeaning`, `ReportMeaning`, `CounterMeaning` | when the report passes, when it raises each code and what it counts, as relations between fields of the files |
| `Reachability`, `PassingFiles` | the report and the scorer together: when PASS can be reached, and concrete passing files |
| `Overlay`, `OverlayTheorems`, `OverlayCompatibility` | the derived group registry, and the report run on it |
| `OverlayMeaning`, `FaultMeaning`, `ContractMeaning`, `OverlayAcceptance` | the entries the registry gains, which fault is reported, and when a registry is derived at all |
| `CaseContract`, `Baseline`, `BaselineMeaning` | the case logic check against the schema and the scorer; a whole local run, its summary and its verdicts |
| `Ranking`, `Diversify`, `Lexical`, `LexicalLength` | top-k rankings, one child per group, BM25 and what document length does to it |
| `Chunking`, `Profiles`, `ParentContext` | token windows, section runs, chunk profiles and their statistics, the context of child chunks |
| `Percentile`, `Comparison` | latency percentiles, and recovered against regressed cases |
| `EnvLoader`, `EnvMeaning`, `LineEndings` | the two `.env` loaders, what a line means, canonical line endings |

## Where the code does not do what is expected of it

Each point names the lemma with the exact condition, and before it, where the expectation fails on some inputs only, a
lemma with such an input or a family of them.

- The v2 score is not always the score of the first top-k rows: every ranked result is unwrapped first, so one whose
  `chunk` is neither absent nor an object rejects the case even below top-k
  (`ScoringTheorems.MalformedRowPastTopKRejects`, `ScoringTheorems.TopKDecidesScore`).
- A PASS report does not mean that Gold group references resolve. The group loop ranges over registered groups only, so the
  branch that reports `GOLD_EVIDENCE_GROUP_NOT_FOUND` cannot be reached
  (`PassingFiles.PassWithUnregisteredGroup`, `Reachability.AdmittedIffCleanAndRegistered`).
- A PASS report does not mean that the scorer can read the case. The report takes a missing or malformed
  `forbidden_document_ids` or `forbidden_model_codes` as it comes, the scorer rejects it, so no ranking passes
  (`PassingFiles.PassWithUnreadableCase`, `Reachability.PassedCaseIsRead`, `Reachability.EvidenceCaseIsPassable`).
- `validate_case_logic` says it checks relations the JSON Schema cannot express, but it is called on schema-valid rows only,
  and on those it can report two codes out of thirty-three (`CaseContract.SchemaValidReportsOnlyTwoCodes`).
- Loops that compare a length with top-k after an append never stop for top-k below 1; slicing does something else there
  (`Ranking.BoundOfZeroDiffers`, `Ranking.EarlyExitIsSortAndSlice`).
- The unique-group rank ignores ungrouped children, which take places in the diversified list, and does not know that an
  ungrouped child's fallback key can equal a group id
  (`Diversify.UngroupedChildHidesTheExpectedGroup`, `Diversify.ClaimedGroupIsNeverReturned`, `Diversify.HitIffRankFits`).
- A section key that returns after another key gives its earlier rows the text of its last run, so their context need not
  contain their own text (`ParentContext.ReturningKeyLosesContext`, `ParentContext.ContextsHoldTextsIffContiguous`).
- A file that mixes line-break conventions need not read back: CR directly before LF is one break
  (`LineEndings.MixedReencodingCanLoseALine`, `LineEndings.ReencodingReadsBackIff`).
- A Gold v1 case can fail and still report a positive reciprocal rank, because that rank is not cut at top-k
  (`LegacyScoring.LateCompletionFailsWithPositiveRank`, `LegacyScoring.LegacyPassAndReciprocalRank`).
- The direct `.env` loader is not atomic: a malformed line leaves the keys of the lines before it behind
  (`EnvLoader.DirectLoaderMayWriteBeforeFailing`, `EnvLoader.DirectLoaderKeepsThePrefix`).

## Model

| member | source | states |
|---|---|---|
| Scoring.NormaliseGroupRegistry | ai/evaluation/evidence_scoring_v2.py:96-121 | the registry loop gives the two indexes, or the error of the first faulty entry |
| Scoring.RegisterEntry | ai/evaluation/evidence_scoring_v2.py:98-119 | one entry either fails with the first applicable reason or enters both indexes |
| Scoring.ComputeCoveredThrough | ai/evaluation/evidence_scoring_v2.py:141-145 | the groups matched by any of the first k ranks |
| Scoring.ComputeCompletionRank | ai/evaluation/evidence_scoring_v2.py:148-159 | the least rank at which the policy is complete, if any |
| Scoring.ScanRows | ai/evaluation/evidence_scoring_v2.py:280-306 | per rank the required and supporting match, and each matched child once in rank order |
| Scoring.ScoreEvidenceCaseV2 | ai/evaluation/evidence_scoring_v2.py:162-427 | the scorer's loops give the score the specification assigns, or its first error |
| Scoring.ReadCase | ai/evaluation/evidence_scoring_v2.py:200-241 | an accepted case has disjoint roles and an outcome, path, policy and group lists that fit each other |
| ScoringTheorems.RegistryAcceptedIff | ai/evaluation/evidence_scoring_v2.py:67-121 | a registry is accepted iff ids and children are well formed and unshared; then owner is the exact inverse of group to children |
| ScoringTheorems.CoveredByFirstRank | ai/evaluation/evidence_scoring_v2.py:141-145 | a group is covered through k iff its first matching rank is at most k |
| ScoringTheorems.AnyCompletesAtEarliestFirstRank | ai/evaluation/evidence_scoring_v2.py:148-159 | ANY completes at the minimum of the required groups' first ranks, and not at all without one |
| ScoringTheorems.AllCompletesAtLatestFirstRank | ai/evaluation/evidence_scoring_v2.py:148-159 | ALL completes at the maximum of the first ranks, and not at all if one is missing |
| ScoringTheorems.HitIffCompletedInTime | ai/evaluation/evidence_scoring_v2.py:316-322 | hit at k is 1 iff the completion rank is at most min(k, top-k), otherwise 0 |
| ScoringTheorems.HitAndRecallAreMonotone | ai/evaluation/evidence_scoring_v2.py:316-328 | hit and recall never fall as k grows, and recall stays within 0 and 1 |
| ScoringTheorems.FullRecallIffAllHit | ai/evaluation/evidence_scoring_v2.py:324-328 | recall is 1 iff every required group is covered |
| ScoringTheorems.CoverageIsAtMostRank | ai/evaluation/evidence_scoring_v2.py:293-299 | k ranks cover at most k groups, since a row stands for at most one |
| ScoringTheorems.AllNeedsOneRankPerGroup | ai/evaluation/evidence_scoring_v2.py:293-314 | an ALL completion rank is at least the number of required groups, so the reciprocal rank is at most its inverse |
| ScoringTheorems.InvalidCountBounds | ai/evaluation/evidence_scoring_v2.py:330-363 | every single defect count is at most the invalid count, which is at most their sum |
| ScoringTheorems.NoInvalidRowIffNoDefect | ai/evaluation/evidence_scoring_v2.py:330-363 | the invalid count is 0 iff all seven defect counts are |
| ScoringTheorems.EvidencePassIff | ai/evaluation/evidence_scoring_v2.py:366-376 | an evidence case passes iff path and query fit, it completes within top-k and shows no invalid row |
| ScoringTheorems.TopKDecidesScore | ai/evaluation/evidence_scoring_v2.py:274-390 | a ranking and its first top-k rows score alike unless the case is admitted, those rows are well formed and a later one is not |
| ScoringTheorems.MalformedRowPastTopKRejects | ai/evaluation/evidence_scoring_v2.py:58-64 | a case scored on one row is rejected when a malformed second row follows it |
| ScoringTheorems.OrderWithinTopKIsIrrelevant | ai/evaluation/evidence_scoring_v2.py:280-376 | permuting rows within top-k leaves verdict, coverage and every count unchanged |
| AdmissionMeaning.CaseMeans | ai/evaluation/evidence_scoring_v2.py:200-241 | reading gives a contract iff the row states it field by field and it fits its outcome |
| AdmissionMeaning.RegistryMeans | ai/evaluation/evidence_scoring_v2.py:67-121 | the registry is built iff every entry is sound and no two share an id or a child; then it finds exactly each group's row and each child's group |
| AdmissionMeaning.ScoredIff | ai/evaluation/evidence_scoring_v2.py:182-278 | a case is scored iff call, case, registry and ranked rows are well formed and the registry offers every named group with the case's product |
| ScoreMeaning.RankMeans | ai/evaluation/evidence_scoring_v2.py:310-376 | the completion rank is the least number of rows that completes the case, mrr times it is 1; mrr is 0 without one and absent without evidence |
| ScoreMeaning.HitsAndRecallsMean | ai/evaluation/evidence_scoring_v2.py:316-328 | each hit is 1 iff the first min(k, top-k) rows complete the case, each recall times the required groups is the number shown; none without evidence |
| ScoreMeaning.GroupSetsMean | ai/evaluation/evidence_scoring_v2.py:296-309 | covered, missing and supporting groups are those shown, or not, by an admissible row of their child within top-k |
| ScoreMeaning.DefectCountsMean | ai/evaluation/evidence_scoring_v2.py:330-363 | each of the eight counts is the number of evaluated rows whose named field relation fails |
| ScoreMeaning.MatchedChildrenMean | ai/evaluation/evidence_scoring_v2.py:300-306 | the matched children are exactly those shown for a group of the case, once each, in the order first shown |
| ScoreMeaning.VerdictsMean | ai/evaluation/evidence_scoring_v2.py:365-390 | all verdicts of the three kinds of cases, from path, queries, completion and admissible rows |
| LegacyScoring.MatchRows | ai/evaluation/evidence_scoring_v2.py:490-505 | every ranked row is matched, unit id, document and page together |
| LegacyScoring.ReadUnits | ai/evaluation/evidence_scoring_v2.py:475-488 | accepted units carry pairwise distinct ids |
| LegacyScoring.ReadLegacyCase | ai/evaluation/evidence_scoring_v2.py:458-488 | NONE holds iff there are no units, in every accepted case |
| LegacyScoring.LegacyHitIffRankInTime | ai/evaluation/evidence_scoring_v2.py:527-533 | a v1 hit at k means the completion rank is at most k and top-k |
| LegacyScoring.LegacyPassAndReciprocalRank | ai/evaluation/evidence_scoring_v2.py:552-562 | a v1 case passes iff it completes within top-k; its reciprocal rank is positive iff it completes at any depth |
| LegacyScoring.TopKDecidesAllButReciprocalRank | ai/evaluation/evidence_scoring_v2.py:516-562 | cutting at top-k keeps verdict, hits and product count; the reciprocal rank iff nothing completes later |
| LegacyScoring.CompletionAgainstFirstMatch | ai/evaluation/evidence_scoring_v2.py:508-520 | ANY completes at the first matching rank, ALL never before it |
| LegacyScoring.AllNeedsEnoughRanks | ai/evaluation/evidence_scoring_v2.py:490-520 | if no row matches more than m units, an ALL completion rank times m is at least the number of units |
| LegacyScoring.OneRowCanCompleteAll | ai/evaluation/evidence_scoring_v2.py:490-520 | a case of any number of units and one row that completes all of them at rank 1 |
| LegacyScoring.LateCompletionFailsWithPositiveRank | ai/evaluation/evidence_scoring_v2.py:516-562 | a case completed at rank 2 under top-k 1 fails with a positive reciprocal rank, which the cut ranking lacks |
| LegacyScoring.DispatchFollowsTheContract | ai/evaluation/evidence_scoring_v2.py:626-663 | a scored row satisfies exactly one contract, and a row satisfying both is refused |
| LegacyMeaning.LegacyCaseMeans | ai/evaluation/evidence_scoring_v2.py:461-493 | a v1 case is read iff it is sound, and as what its fields say |
| LegacyMeaning.LegacyScoredIff | ai/evaluation/evidence_scoring_v2.py:446-543 | a v1 score is given iff call and case are sound, rows carry chunks, and an expected path, if present, is a nonempty text |
| LegacyMeaning.LegacyCoverageMeans | ai/evaluation/evidence_scoring_v2.py:496-520 | a unit is covered iff some row names it, has its document and shares a page; the first matched rank is the first such row |
| LegacyMeaning.LegacyRankMeans | ai/evaluation/evidence_scoring_v2.py:511-556 | the completion rank is the least number of completing rows at any depth, and mrr times it is 1 |
| LegacyMeaning.LegacyVerdictsMean | ai/evaluation/evidence_scoring_v2.py:527-600 | verdicts, hits and the wrong-product count in terms of completion and rows, NONE included |
| LegacyMeaning.DispatchMeans | ai/evaluation/evidence_scoring_v2.py:626-663 | which contract scores a row, and which of the three errors refuses it |
| Compatibility.ErrorLog.Append | ai/scripts/validate_gold_corpus_compatibility_v2.py:54-71 | the shared list grows by the one diagnostic |
| Compatibility.IndexUnique | ai/scripts/validate_gold_corpus_compatibility_v2.py:100-126 | first row of each identifier is kept, every missing or repeated one is reported |
| Compatibility.StringList | ai/scripts/validate_gold_corpus_compatibility_v2.py:150-166 | the list or nothing, with the diagnostics of an invalid or repeating one |
| Compatibility.RunChecks | ai/scripts/validate_gold_corpus_compatibility_v2.py:206-274 | one diagnostic per failed comparison, in order |
| Compatibility.CorpusMatchesChild | ai/scripts/validate_gold_corpus_compatibility_v2.py:277-410 | the corpus row's diagnostics, and a verdict that also needs the group's product |
| Compatibility.CheckActiveCase | ai/scripts/validate_gold_corpus_compatibility_v2.py:485-575 | an active case's diagnostics and its three id lists |
| Compatibility.ReadGold | ai/scripts/validate_gold_corpus_compatibility_v2.py:470-575 | the Gold pass: counters, reference tables and diagnostics |
| Compatibility.CheckReferences | ai/scripts/validate_gold_corpus_compatibility_v2.py:599-639 | product and forbidden-list diagnostics of every case referring to a group |
| Compatibility.CheckGroupLists | ai/scripts/validate_gold_corpus_compatibility_v2.py:641-668 | child and variant lists and their lengths |
| Compatibility.CheckCondition | ai/scripts/validate_gold_corpus_compatibility_v2.py:677-740 | one condition's id, ownership, child and page lineage |
| Compatibility.CheckConditions | ai/scripts/validate_gold_corpus_compatibility_v2.py:670-740 | a group's conditions against the owners so far |
| Compatibility.CheckDeclared | ai/scripts/validate_gold_corpus_compatibility_v2.py:742-759 | the declared children found, with their lineage diagnostics |
| Compatibility.CheckCoverage | ai/scripts/validate_gold_corpus_compatibility_v2.py:761-773 | the variant multisets agree or one diagnostic is raised |
| Compatibility.CheckUndeclared | ai/scripts/validate_gold_corpus_compatibility_v2.py:775-789 | a diagnostic for each child naming the group without being declared |
| Compatibility.CheckGroups | ai/scripts/validate_gold_corpus_compatibility_v2.py:578-790 | the group pass in sorted order of ids, with one owner table for all conditions |
| Compatibility.CheckOrphans | ai/scripts/validate_gold_corpus_compatibility_v2.py:792-795 | a diagnostic for each child of no registered group |
| Compatibility.CheckConditionReferences | ai/scripts/validate_gold_corpus_compatibility_v2.py:797-804 | referenced conditions exist in a group the case refers to |
| Compatibility.CheckAttachments | ai/scripts/validate_gold_corpus_compatibility_v2.py:806-826 | corpus rows attached to a registered group stand for a child of that group |
| Compatibility.CheckLinks | ai/scripts/validate_gold_corpus_compatibility_v2.py:828-854 | the link pass: diagnostics, linked children and groups with a candidate |
| Compatibility.CheckReferenced | ai/scripts/validate_gold_corpus_compatibility_v2.py:856-886 | referenced groups have a candidate; unregistered ones are passed over |
| Compatibility.BuildCompatibilityReport | ai/scripts/validate_gold_corpus_compatibility_v2.py:413-912 | all passes over one error list give the report of the specification |
| CompatibilityTheorems.IndexMeaning | ai/scripts/validate_gold_corpus_compatibility_v2.py:100-126 | no index diagnostic iff identifiers are present and distinct; then the index holds every row under its id |
| CompatibilityTheorems.DeclaredExactlyByOwner | ai/scripts/validate_gold_corpus_compatibility_v2.py:742-795 | on PASS a group declares a child iff the child's row names that group |
| CompatibilityTheorems.AttachedOnlyToOwner | ai/scripts/validate_gold_corpus_compatibility_v2.py:806-826 | on PASS an attached corpus row is a child's row, attached to its owner alone |
| CompatibilityTheorems.ChildHasAttachedRow | ai/scripts/validate_gold_corpus_compatibility_v2.py:828-854 | on PASS every child has an attached corpus row of its own |
| CompatibilityTheorems.DeclaredPairsAreChildren | ai/scripts/validate_gold_corpus_compatibility_v2.py:742-795 | on PASS the declared pairs are exactly each child with its owner, as many as child rows |
| CompatibilityTheorems.AttachedRowsAreChildren | ai/scripts/validate_gold_corpus_compatibility_v2.py:806-854 | on PASS source_record_id maps attached corpus rows one to one onto the children |
| CompatibilityTheorems.LinkCountersAreFileSizes | ai/scripts/validate_gold_corpus_compatibility_v2.py:828-909 | on PASS linked_group_children is child_rows and linked_evidence_groups is evidence_group_rows |
| CompatibilityTheorems.VariantsMatchChildren | ai/scripts/validate_gold_corpus_compatibility_v2.py:742-773 | on PASS variants and children of a group are one to one |
| CompatibilityTheorems.ThreeWayBijection | ai/scripts/validate_gold_corpus_compatibility_v2.py:742-909 | on PASS child rows, declared pairs and attached corpus rows are in bijection and the counters say so |
| PassMeaning.PassMeans | ai/scripts/validate_gold_corpus_compatibility_v2.py:413-912 | the report passes iff the files are consistent, stated over rows and fields: cases, groups, children, conditions, attachments and corpus links |
| PassMeaning.PassedChildren | ai/scripts/validate_gold_corpus_compatibility_v2.py:206-274 | on PASS every declared child row has its group's product, document and pages, is a verified searchable CHILD of an allowed use with two well-formed hashes and a listed variant |
| CheckMeaning.ChildCodeRaisedIff | ai/scripts/validate_gold_corpus_compatibility_v2.py:206-274 | for a declared child in the index each of the ten codes and the variant code is raised iff the relation it names fails on the fields |
| CheckMeaning.CorpusCodeRaisedIff | ai/scripts/validate_gold_corpus_compatibility_v2.py:277-407 | each of the twelve corpus codes is raised iff the relation it names between corpus row and child fails |
| CheckMeaning.CorpusMatchMeans | ai/scripts/validate_gold_corpus_compatibility_v2.py:277-410 | a corpus row counts as candidate iff all twelve relations hold and its product is the group's |
| CaseMeaning.CaseMeans | ai/scripts/validate_gold_corpus_compatibility_v2.py:485-576 | an active case raises nothing iff its lists, roles, outcome, path and policy are sound |
| GroupMeaning.ConditionScanMeans | ai/scripts/validate_gold_corpus_compatibility_v2.py:670-740 | a condition list raises nothing iff its entries are clean and their ids are new and distinct |
| GroupMeaning.CoverageMeans | ai/scripts/validate_gold_corpus_compatibility_v2.py:761-773 | the variant multisets agree iff every listed variant belongs to a declared child |
| ReportMeaning.CaseCodeRaisedIff | ai/scripts/validate_gold_corpus_compatibility_v2.py:485-576 | an active case raises each code iff the reason it names holds |
| ReportMeaning.ReferenceCodeRaisedIff | ai/scripts/validate_gold_corpus_compatibility_v2.py:599-639 | a reference raises each product or forbidden-list code iff its reason holds |
| ReportMeaning.GroupCodeRaisedIff | ai/scripts/validate_gold_corpus_compatibility_v2.py:641-668 | a group raises each list and cardinality code iff its reason holds |
| ReportMeaning.EntryCodeRaisedIff | ai/scripts/validate_gold_corpus_compatibility_v2.py:677-740 | a condition entry raises each id, owner, child and page code iff its reason holds |
| ReportMeaning.CountersMean | ai/scripts/validate_gold_corpus_compatibility_v2.py:470-576 | the counters are numbers of rows, and of distinct groups referred to |
| ReportMeaning.RegisteredConditionsMean | ai/scripts/validate_gold_corpus_compatibility_v2.py:688-693 | with distinct group ids each condition id held by some group is counted once |
| CounterMeaning.LinkCountersMean | ai/scripts/validate_gold_corpus_compatibility_v2.py:828-909 | with distinct ids, on PASS or not: the referenced groups with a matching corpus row, all such groups, and every listed child with one |
| CounterMeaning.ConditionCounterMeans | ai/scripts/validate_gold_corpus_compatibility_v2.py:509-524 | every place in an active case's condition list counts as one reference |
| Reachability.PassedRegistry | ai/evaluation/evidence_scoring_v2.py:67-121 | after PASS the scorer accepts the registry, with the exact inverse index |
| Reachability.PassedCaseIsRead | ai/evaluation/evidence_scoring_v2.py:200-241 | after PASS the scorer reads an active evidence case iff both forbidden lists are lists of distinct texts, and then as the report did |
| Reachability.AdmittedIffCleanAndRegistered | ai/evaluation/evidence_scoring_v2.py:200-257 | after PASS the scorer reads and admits an active evidence case iff its forbidden lists are clean and its groups are registered |
| PassingFiles.PassWithUnregisteredGroup | ai/scripts/validate_gold_corpus_compatibility_v2.py:582-597 | a passing report over a case whose group is registered nowhere |
| PassingFiles.PassWithRegistry | ai/scripts/validate_gold_corpus_compatibility_v2.py:413-912 | a passing report over one group, one child and one attached corpus row, with a case some ranking passes |
| PassingFiles.PassWithUnreadableCase | ai/scripts/validate_gold_corpus_compatibility_v2.py:607-616 | a passing report with registered groups over a case the scorer cannot read and no ranking passes |
| Reachability.GroupIsFoundIff | ai/evaluation/evidence_scoring_v2.py:280-299 | after PASS a registered group has a corpus row counted for it iff the gate admits the group's product and document and the use and status of corpus rows |
| Reachability.EvidenceCaseIsPassable | ai/evaluation/evidence_scoring_v2.py:200-376 | after PASS some ranking passes an active evidence case iff top-k is positive, its forbidden lists are clean, its groups are registered, and the policy is ANY or the required groups fit top-k |
| Overlay.IndexUnique | ai/scripts/build_gold_v2_evidence_group_registry.py:144-153 | the full index, or the fault at the first missing or repeated id |
| Overlay.ValidateLineage | ai/scripts/build_gold_v2_evidence_group_registry.py:259-351 | the first lineage fault of a condition, checked child by child, or none |
| Overlay.CollectCanonicalIds | ai/scripts/build_gold_v2_evidence_group_registry.py:423-438 | the ids already in use, each once, or the first fault |
| Overlay.BucketConditions | ai/scripts/build_gold_v2_evidence_group_registry.py:440-489 | every accepted condition in its group's bucket, or the first fault |
| Overlay.BuildOverlay | ai/scripts/build_gold_v2_evidence_group_registry.py:395-508 | the derived registry of the specification, or the first fault |
| OverlayTheorems.StrictOrderIsUnique | ai/scripts/build_gold_v2_evidence_group_registry.py:494-497 | only one arrangement of entries is strictly ascending by id |
| OverlayTheorems.ConditionsAreConserved | ai/scripts/build_gold_v2_evidence_group_registry.py:440-497 | the registry's conditions are the canonical ones plus exactly the contract's, one entry each |
| OverlayTheorems.OnlyConditionsChange | ai/scripts/build_gold_v2_evidence_group_registry.py:491-508 | same groups, same order, no other field changed |
| OverlayTheorems.DerivedListsAreSorted | ai/scripts/build_gold_v2_evidence_group_registry.py:491-497 | each derived list is the strictly ascending permutation of canonical entries and additions |
| OverlayTheorems.ConditionLandsInOneGroup | ai/scripts/build_gold_v2_evidence_group_registry.py:475-497 | a contract condition appears in its own group's list and in no other |
| OverlayMeaning.DerivedEntries | ai/scripts/build_gold_v2_evidence_group_registry.py:475-497 | a derived list holds its canonical entries and, for each condition naming the group, an object of exactly the four kept fields with the condition's values |
| OverlayMeaning.ConditionHasItsEntry | ai/scripts/build_gold_v2_evidence_group_registry.py:475-497 | every contract condition has such an entry in its own group's list and in no other |
| OverlayMeaning.EntriesAreConserved | ai/scripts/build_gold_v2_evidence_group_registry.py:440-497 | the registry's bag of entries grows by exactly the written-out entries of the contract |
| OverlayMeaning.EntriesExist | ai/scripts/build_gold_v2_evidence_group_registry.py:482-489 | the entries of an accepted contract can be written out |
| FaultMeaning.ChildRowFaultIsFirst | ai/scripts/build_gold_v2_evidence_group_registry.py:289-316 | a source child reports the first of its ten relations that fails |
| FaultMeaning.CorpusRowFaultIsFirst | ai/scripts/build_gold_v2_evidence_group_registry.py:325-346 | a corpus row reports the first of its eleven relations that fails |
| FaultMeaning.HeadFaultIsFirst | ai/scripts/build_gold_v2_evidence_group_registry.py:266-281 | the head of a lineage reports the first of its five relations that fails |
| FaultMeaning.ConditionFaultIsFirst | ai/scripts/build_gold_v2_evidence_group_registry.py:444-481 | a contract condition reports the first of its nine relations that fails, otherwise its lineage fault |
| ContractMeaning.LineageMeans | ai/scripts/build_gold_v2_evidence_group_registry.py:259-351 | a lineage is accepted iff it is sound over the files: children, corpus rows, pages and exactly one source text with the hash |
| ContractMeaning.SelectionFault | ai/scripts/build_gold_v2_evidence_group_registry.py:283-346 | the first child that is not accepted decides the fault |
| OverlayAcceptance.OverlayMeans | ai/scripts/build_gold_v2_evidence_group_registry.py:395-508 | a registry is derived iff files and contract are sound and the schema accepts both registries; it is then the overlay |
| OverlayAcceptance.OverlayIsUnique | ai/scripts/build_gold_v2_evidence_group_registry.py:491-497 | files and contract leave one overlay only |
| OverlayCompatibility.ContractConditionIsClean | ai/scripts/validate_gold_corpus_compatibility_v2.py:677-740 | a condition that passed the overlay's lineage check passes the report's child and page checks iff its group's child_ids is a list of texts |
| OverlayCompatibility.DerivedKeysDisjoint | ai/scripts/build_gold_v2_evidence_group_registry.py:423-497 | two derived groups share no condition id |
| OverlayCompatibility.DerivedRegistryHasNoConditionErrors | ai/scripts/validate_gold_corpus_compatibility_v2.py:670-740 | with clean canonical conditions the report raises no condition diagnostic on the derived registry |
| CaseContract.ValidateCaseLogic | ai/scripts/validate_gold_evaluation_v2.py:106-375 | the error list holds a code iff the code's rule is violated, each code once, in the order of the check |
| CaseContract.ReportIsUnique | ai/scripts/validate_gold_evaluation_v2.py:106-375 | membership and order leave a case exactly one error list |
| CaseContract.CleanIffSchemaRules | ai/evaluation/schemas/gold_evaluation_case_v2.schema.json:201-561 | the check is clean iff the schema's conditional rules hold, roles are disjoint and the product is not forbidden |
| CaseContract.SchemaValidReportsOnlyTwoCodes | ai/scripts/validate_gold_evaluation_v2.py:442-446 | on a schema-valid row exactly role overlap and a forbidden own product can be reported |
| CaseContract.BasisDecidesConsultation | ai/scripts/validate_gold_evaluation_v2.py:202-245 | in a clean case the basis codes determine the consultation requirement |
| CaseContract.BasisOfAbsence | ai/scripts/validate_gold_evaluation_v2.py:247-353 | in a clean case without evidence, path and risk determine the basis set |
| CaseContract.BasisOfEvidence | ai/scripts/validate_gold_evaluation_v2.py:187-353 | in a clean evidence case conditions are absent iff the basis is NONE or danger alone |
| CaseContract.ScorerReadsIffRetrievalRulesClean | ai/evaluation/evidence_scoring_v2.py:200-241 | the scorer accepts a schema-valid case iff the nine retrieval rules report nothing, and reads it as written |
| CaseContract.CleanCaseIsScored | ai/evaluation/evidence_scoring_v2.py:200-241 | a clean case is accepted by the scorer and is of one kind |
| Baseline.Execute | ai/scripts/run_full_corpus_baseline_v2.py:918-955 | the path, query count and ranking of one case |
| Baseline.RunCases | ai/scripts/run_full_corpus_baseline_v2.py:915-1003 | one result per case in order, or the error of the first case that is rejected or scored by the first contract |
| Baseline.ExecutionPassedIff | ai/scripts/run_full_corpus_baseline_v2.py:709-719 | a result meets its execution contract, and passes, iff the policy service observed the expected block |
| Baseline.KindsPartitionTheRun | ai/scripts/run_full_corpus_baseline_v2.py:722-761 | evidence, corpus-absence and policy-block counts add up to the cases of every completed run |
| Baseline.PassCountersCoincide | ai/scripts/run_full_corpus_baseline_v2.py:764-791 | execution, scorer and policy-block passes are one number, at most the block cases, and 0 without a policy service |
| Baseline.QualityIsCountedByKind | ai/scripts/run_full_corpus_baseline_v2.py:709-791 | quality passes are evidence passes plus empty absences plus passed blocks |
| Baseline.QueriesCountSearches | ai/scripts/run_full_corpus_baseline_v2.py:918-955 | vector queries are the cases not stopped before the search |
| Baseline.SearchRanksTheBest | ai/scripts/run_full_corpus_baseline_v2.py:936-951 | a searching case ranks corpus rows of its product at or above the threshold, min(top-k, such rows) of them, and leaves out none that scores higher |
| BaselineMeaning.QualityMeans | ai/scripts/run_full_corpus_baseline_v2.py:709-719 | quality means: completed by admissible rows only, nothing ranked, or a block the policy service observed |
| Ranking.RankDense | ai/scripts/run_full_corpus_baseline_v2.py:936-951 | skipping and early exit give the eligible rows in order, cut at top-k |
| Ranking.RetrieveSorted | ai/scripts/run_alias_query_expansion_v1.py:402-417 | nothing when blocked, otherwise filter, stable sort by score and id, slice |
| Ranking.EligibleMembers | ai/scripts/run_alias_query_expansion_v1.py:409-413 | eligible are exactly the candidates, with their own score, whose score reaches the threshold |
| Ranking.RetrievalIsOrdered | ai/scripts/run_alias_query_expansion_v1.py:409-415 | as many eligible chunks as the slice leaves, by score and then id, ahead of every eligible chunk left out |
| Ranking.ArrangeIsPermutation | ai/scripts/run_full_corpus_baseline_v2.py:944-949 | following an argsort order visits every candidate once |
| Ranking.EarlyExitIsSortAndSlice | ai/scripts/run_full_corpus_baseline_v2.py:936-951 | with ties by id the loop equals filter-sort-slice iff top-k is positive or nothing is eligible |
| Ranking.BoundOfZeroDiffers | ai/scripts/run_full_corpus_baseline_v2.py:950-951 | with top-k 0 the loop returns the one eligible candidate and the slice returns none |
| Ranking.SameScoresWhateverTheTies | ai/scripts/run_alias_query_expansion_v1.py:402-415 | whatever the ties, both report the same scores position by position |
| Ranking.RankingIsBest | ai/scripts/run_full_corpus_baseline_v2.py:936-951 | min(top-k, eligible) rows, no omitted eligible row scoring higher than a returned one |
| Ranking.StricterRankingIsPrefix | ai/scripts/run_full_corpus_baseline_v2.py:936-951 | a higher threshold or lower top-k gives a prefix |
| Sorting.SortIsAscendingPermutation | ai/scripts/run_alias_query_expansion_v1.py:414-414 | the stable sort is an ascending permutation |
| Sorting.AtMostMeans | ai/scripts/run_alias_query_expansion_v1.py:414-414 | a string is at most another iff it is a prefix of it or smaller at their first difference |
| Sorting.TiedEntriesKeepTheirOrder | ai/scripts/run_alias_query_expansion_v1.py:414-414 | entries tied with one another keep the order they came in |
| Sorting.FilterCommutesWithSort | ai/scripts/run_alias_query_expansion_v1.py:409-414 | filtering before or after the stable sort is the same |
| Diversify.DiversifyGroups | ai/evaluation/three_model_rag.py:52-69 | the loop gives the first child of every key, cut at top-k |
| Diversify.KeepsASubsequence | ai/evaluation/three_model_rag.py:59-69 | the kept children are a subsequence of the ranking |
| Diversify.KeepsTheBestOfEachKey | ai/evaluation/three_model_rag.py:59-69 | a position is kept iff no earlier child has its key |
| Diversify.KeptKeysAreDistinct | ai/evaluation/three_model_rag.py:59-69 | no two kept children share a key and no key is lost |
| Diversify.ComputeUniqueGroupRank | ai/scripts/evaluate_rag_expansion_pgvector.py:196-205 | one more than the number of distinct groups ahead of the first expected one |
| Diversify.HitIffRankFits | ai/scripts/evaluate_rag_expansion_pgvector.py:129-148 | an expected group survives iff its unique rank among the children not claimed by a fallback key, plus the ungrouped children ahead, fits top-k |
| Diversify.GroupedHitIffRankWithinTopK | ai/scripts/evaluate_rag_expansion_pgvector.py:196-205 | with every child grouped, presence iff the rank exists and is at most top-k |
| Diversify.ReportedRankIsUniqueRank | ai/evaluation/three_model_rag.py:214-228 | the rank reported for the returned list is the diagnostic rank of the unclaimed children, all of them when no key collides |
| Diversify.UngroupedChildHidesTheExpectedGroup | ai/evaluation/three_model_rag.py:59-69 | a rank of 1 whose group is absent from the top 1 |
| Diversify.ClaimedGroupIsNeverReturned | ai/evaluation/three_model_rag.py:59-69 | a group named like an ungrouped child's fallback key has rank 1 and is returned for no bound |
| Lexical.MixedTerms | ai/evaluation/lexical_retrieval.py:23-32 | one word term and all neighbouring bigrams per token, in order |
| Lexical.TermsOfToken | ai/evaluation/lexical_retrieval.py:25-31 | a token gives its word and each pair of neighbouring characters |
| Lexical.TermsDetermineTokens | ai/evaluation/lexical_retrieval.py:22-32 | different token lists have different terms |
| Lexical.CountDocument | ai/evaluation/lexical_retrieval.py:62-64 | one document raises the count of each of its terms by exactly one |
| Lexical.BM25Index.constructor | ai/evaluation/lexical_retrieval.py:50-69 | the stored statistics are those of the documents |
| Lexical.BuildIndex | ai/evaluation/lexical_retrieval.py:40-57 | construction fails iff there is no document or a parameter is out of range |
| Lexical.BM25Index.Scores | ai/evaluation/lexical_retrieval.py:71-92 | the nested loops give each document the score defined from the documents |
| Lexical.DocumentFrequencyInRange | ai/evaluation/lexical_retrieval.py:62-69 | an indexed term's document frequency lies between 1 and the number of documents |
| Lexical.InverseFrequencyIsPositive | ai/evaluation/lexical_retrieval.py:66-69 | every inverse document frequency is positive |
| Lexical.UnitIsMonotone | ai/evaluation/lexical_retrieval.py:84-90 | at fixed length a contribution never falls as the term frequency grows |
| Lexical.GroupedIsFlat | ai/evaluation/lexical_retrieval.py:79-90 | adding per distinct term with its count is adding per occurrence |
| Lexical.ScoreIsPositiveIffTermShared | ai/evaluation/lexical_retrieval.py:71-92 | a score is positive iff document and query share a term, and never negative |
| Lexical.ScoreIsBounded | ai/evaluation/lexical_retrieval.py:84-90 | a score is at most the sum over query occurrences of idf times k1 + 1 |
| Lexical.ScoreIsAdditive | ai/evaluation/lexical_retrieval.py:71-92 | scores add up over the parts of a query |
| Lexical.ScoreIgnoresTermOrder | ai/evaluation/lexical_retrieval.py:71-92 | only the multiset of query terms matters |
| LexicalLength.LengthIsIgnored | ai/evaluation/lexical_retrieval.py:77-90 | with b = 0 documents with equally frequent query terms score alike |
| LexicalLength.LongerScoresLess | ai/evaluation/lexical_retrieval.py:77-90 | with b > 0 and equal frequencies the longer document never scores higher, and lower when a term is shared |
| LexicalLength.LengthScalesNormalization | ai/evaluation/lexical_retrieval.py:77-90 | with b = 1 a document m times as long has its normalization term scaled by m |
| LexicalLength.AverageLengthIsNeutral | ai/evaluation/lexical_retrieval.py:77-90 | a document of average length is normalized by k1 whatever b |
| LexicalLength.RarerWeighsMore | ai/evaluation/lexical_retrieval.py:66-69 | a rarer term has a greater inverse frequency |
| LexicalLength.InverseInClosedForm | ai/evaluation/lexical_retrieval.py:66-69 | the inverse frequency is the logarithm of the number of documents plus one over the term's document count plus a half |
| Chunking.Windows | ai/evaluation/chunking.py:14-26 | rejection iff not size > overlap >= 0; otherwise the windows in closed form, always left by the break |
| Chunking.WindowBounds | ai/evaluation/chunking.py:19-25 | with the stated count the last window is the first to reach the end |
| Chunking.WindowsCoverAndOverlap | ai/evaluation/chunking.py:19-25 | windows run from 0 to the end and neighbours share exactly the overlap |
| Chunking.WindowsRebuildTheTokens | ai/evaluation/chunking.py:19-25 | the first window and the later ones without their overlap rebuild the tokens |
| Chunking.GroupSections | ai/evaluation/chunking.py:33-40 | the grouping loop gives the section groups |
| Chunking.GroupsAreMaximalRuns | ai/evaluation/chunking.py:33-40 | the groups are maximal runs of one key that flatten back to the rows |
| Chunking.DecompositionIsUnique | ai/evaluation/chunking.py:33-40 | there is no other such decomposition |
| Text.SplitOfJoin | ai/evaluation/chunking.py:23-23 | joining words by a space and splitting restores them |
| Text.SplitOfBlankJoin | ai/evaluation/chunking.py:122-122 | texts joined by blank lines have the words of the texts |
| Profiles.BuildProfileChunks | ai/evaluation/chunking.py:81-157 | the chunks of the profile with text, context and token span, numbered from 1, or its error |
| Profiles.CollectParents | ai/evaluation/chunking.py:132-135 | every key is mapped to the text of its last group |
| Profiles.EveryRowHasAParent | ai/evaluation/chunking.py:137-138 | the parent lookup never misses |
| Profiles.WindowedProfilesIndexTheOverlap | ai/evaluation/chunking.py:102-118 | indexed tokens are source tokens plus the overlap for every chunk beyond one per row, empty rows included |
| Profiles.UnwindowedProfilesIndexTheSource | ai/evaluation/chunking.py:120-129 | page and section chunks index exactly the source tokens, overlap ratio 0 |
| Profiles.ProfileStatistics | ai/evaluation/chunking.py:160-193 | chunk counts in all and by product, average, least and greatest length, source, indexed and context tokens, overlap ratio |
| Profiles.AverageIsBetween | ai/evaluation/chunking.py:177-185 | the rounded average lies between the least and the greatest length |
| Profiles.WindowedOverlapRatio | ai/evaluation/chunking.py:187-190 | for windowed chunks the ratio is the overlap of every chunk beyond one per row over the indexed tokens, to six digits |
| Profiles.AverageIsExact | ai/evaluation/chunking.py:178-182 | the average is total length over number of chunks, to three digits |
| Profiles.CountsByProductAddUp | ai/evaluation/chunking.py:169-171 | the counts by product add up to the chunk count |
| ParentContext.ChunkOfRow | ai/evaluation/chunking.py:136-153 | each chunk of a row carries the row's product, the text under its key, and a span that names the source tokens its text splits into |
| ParentContext.ContextsHoldTextsIffContiguous | ai/evaluation/chunking.py:131-153 | the contexts of the built chunks contain their rows' texts, whatever the texts, iff equal keys stand together |
| ParentContext.ParentTextIsLastGroups | ai/evaluation/chunking.py:132-138 | a key's context is the text of its last group |
| ParentContext.ReturningKeyLosesContext | ai/evaluation/chunking.py:132-153 | for any keys where one returns after another, texts whose contexts lack a row's own text |
| Rounding.RoundToIsMonotone | ai/scripts/benchmark_pgvector_latency.py:50-57 | rounding keeps order |
| Rounding.RoundToError | ai/scripts/run_alias_query_expansion_v1.py:49-55 | rounding moves a number by at most half a unit of the last digit |
| Rounding.NoIntegerIsNearer | ai/scripts/benchmark_pgvector_latency.py:50-57 | rounding takes the nearest integer, the even one on a tie |
| Percentile.PercentileIsMonotone | ai/scripts/benchmark_pgvector_latency.py:30-44 | percentiles never fall in the percentile, across segments too |
| Percentile.ExtremePercentiles | ai/scripts/benchmark_pgvector_latency.py:30-44 | the 0th is the minimum and the 100th the maximum |
| Percentile.PercentileIsInterpolated | ai/scripts/benchmark_pgvector_latency.py:37-44 | a percentile lies between two neighbours of the sorted sample in proportion to its position |
| Percentile.SummaryMeans | ai/scripts/benchmark_pgvector_latency.py:47-57 | every entry of the summary, to three digits |
| Percentile.PercentileIgnoresOrder | ai/scripts/benchmark_pgvector_latency.py:37-44 | only the multiset of values matters |
| Percentile.SummaryIsOrdered | ai/scripts/benchmark_pgvector_latency.py:47-57 | min <= p50 <= p95 <= max and min <= mean <= max after rounding |
| Comparison.RecoveredAndRegressed | ai/scripts/run_alias_query_expansion_v1.py:171-187 | recovered and regressed are the two differences of the hit sets |
| Comparison.MeanChangeIsNetRecovery | ai/scripts/run_alias_query_expansion_v1.py:165-229 | the exact change in mean hit@5 is recovered minus regressed per positive case |
| Comparison.ReportedDeltaIsAccurate | ai/scripts/run_alias_query_expansion_v1.py:213-228 | the reported six-digit delta is within one millionth of it |
| Comparison.MissingRateIsZero | ai/scripts/run_alias_query_expansion_v1.py:213-228 | a run without a hit rate counts as zero in the delta |
| EnvLoader.Environ.Set | backend/config/env.py:154-156 | a new key is added at the end, nothing else changes |
| EnvLoader.LoadEnvLines | backend/config/env.py:123-158 | the direct loader's mapping and keys, or the first malformed line, with the keys written before it kept |
| EnvLoader.LoadBackendEnvLines | backend/config/env.py:200-243 | the staged loader's mapping and result |
| EnvLoader.Merge | backend/config/env.py:238-243 | the target gains exactly the file's missing keys |
| EnvLoader.ErrorIsFirstBadLine | backend/config/env.py:138-150 | loading fails iff a line is malformed, and names the first |
| EnvMeaning.LineMeans | backend/config/env.py:116-153 | a line is blank, malformed or a key with its value, quotes removed, as spelled out on its characters, and is read as that |
| EnvLoader.FirstNonemptyValueWins | backend/config/env.py:152-156 | an absent key gets its first nonempty value, a present one keeps its own |
| EnvLoader.StagedRefinesDirect | backend/config/env.py:200-243 | outside test settings staging a well-formed file ends where the direct loader does |
| EnvLoader.MalformedFileIsAtomicWhenStaged | backend/config/env.py:222-223 | a malformed file leaves the staged target unchanged, with the same error |
| EnvLoader.DirectLoaderKeepsThePrefix | backend/config/env.py:137-156 | the direct loader has then written exactly what the earlier lines load, and left the target unchanged iff every key they give a value is present already |
| EnvLoader.DirectLoaderMayWriteBeforeFailing | backend/config/env.py:137-156 | a two-line file that leaves a key behind |
| EnvLoader.SecondCallLoadsNothing | backend/config/env.py:152-158 | loading again changes nothing |
| EnvLoader.TestSettingsLoadNothingElse | backend/config/env.py:214-236 | under test settings at most the settings key is set, and exactly when |
| LineEndings.TwoPassesAreOne | ai/evaluation/file_integrity.py:20-23 | the two replacements are a single left-to-right pass |
| LineEndings.CanonicalHasNoCr | ai/evaluation/file_integrity.py:20-23 | no CR remains |
| LineEndings.CanonicalIsIdempotent | ai/evaluation/file_integrity.py:12-23 | canonical bytes are their own canonical form |
| LineEndings.ReencodingReadsBackIff | ai/evaluation/file_integrity.py:13-18 | a re-encoded text reads back iff no CR break stands directly before an LF break |
| LineEndings.UniformReencodingReadsBack | ai/evaluation/file_integrity.py:13-18 | one convention throughout always reads back |
| LineEndings.MixedReencodingCanLoseALine | ai/evaluation/file_integrity.py:20-23 | two line breaks coded CR and LF come back as one |

## Left out

- File, JSON, JSONL, JSON-Schema, Git and report I/O: rows arrive decoded; schema validity, the text digest, the natural
  logarithm, similarity scores, argsort and the policy service are parameters.
- Embedding models, NumPy, pgvector, SQL, Neo4j, OpenAI, MCP and telemetry code: foreign behaviour.
- Floating point: numbers are reals, so the order of additions and binary rounding do not matter.
- Python crashes on unhashable or non-iterable JSON values, such as `set(None)`: the model reads such values as empty.
- JSON equality is structural: `True`, `1` and `1.0` differ except where pages are compared.
- Case mapping is ASCII only, for `record_type`.
- `evidence_unit_ids` given as a string is read as its characters; Python's substring test on longer ids is not modelled.
- Diagnostic messages, related lines and the sorting of reported id lists: diagnostics carry code, file and line; sorted
  lists of a score are sets.
- The overlay's contract header, file hashes and manifest: only the in-memory transformation is modelled.
- Profiles.BuildProfileChunks: without chunk and parent ids, and without what chunks copy or unite from their source rows
  (pages, evidence ids, document and verification fields).
- Profiles.ProfileStatistics: without the lineage restore rate, which counts those copied fields.
- `evaluate_three_model_cases` beyond its group hit and rank: its other fields are plain counters.
- `_select_eligible_corpus_rows` and the preflight checks: single filters over fixed profile fields.
- ndcg, recall and the alias metrics of the v1 scorer's result.
- Baseline.RunCases: a result keeps the number of ranked rows and the score, not the listed rows, the latency, the split and
  the policy metadata.
- Latency measurement, run manifests and the remaining fields of the run summary (means and rates).
- Comparison.MeanChangeIsNetRecovery: stated for hit@5 only, because only that metric has recovered and regressed sets.
- Lexical.MixedTerms: starts from tokens; normalising and matching the text (NFKC, case folding, regular expression) is not
  modelled, and the index starts from term lists.
- Lexical.BM25Index.Scores: takes the documents as a ghost argument, because the index stores only their statistics.
- Web, Django URL and ASGI files, PostgreSQL options, privacy masking, query scope and intent policies, fixed case tables.
