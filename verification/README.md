# Company graph: verified models

This project models the computations of the company graph that carry real guarantees, and proves those guarantees for
every input: the three hand-written searches for the longest `PRECEDES` chain, the reports over the same graph, four
printers and parsers, and the state machines for limits, retries and chat. `dafny verify dfyconfig.toml` checks all of
it.

## How the modules fit together

- `Paths` defines simple paths, cycles and the longest simple path with no reference to any search.
  `CriticalPathSearch`/`CriticalPath`, `ComplexityDepth` and `KeyActivitySearch`/`KeyActivityPath` are the three
  searches, each as a class whose fields are the locals the source's closures mutate, proved against `Paths`.
- `KeyActivityRows`, `KeyActivityScore`, `KeyActivityRanking` and `KeyActivityTheorems` are the scoring around the
  third search: what a row says, the loops that compute it, and the theorems about rankings and handoffs.
  `KeyActivityWitness` has the graphs on which the search says less than its comments, `Counting` the handshake law.
- `GraphIndex`, `ComplexityReport`, `CriticalPathReport`, `SystemReports` and `SystemMap` are the reports, and
  `ReportTheorems` relates them to each other.
- `Csv`, `SpecMarkdown`/`SpecTables`, `HashRoute`/`RouteCatalogue` and
  `YamlBlock`/`YamlScalars`/`YamlLayout`/`YamlLines`/`YamlText` are the printers and parsers. Where the source has
  only one direction, the model supplies the other: a reader following section 2 of RFC 4180, a reader of Markdown
  tables, and a layout of documents as YAML lines. `FormQuery` shows that what the router assumes of the platform's
  query codec can be met.
- `RateLimit`, `Resilience`, `Retry`, `ChatQuota`, `ChatHistory`, `ChatAgent`, `ChatTurns` and `ChatInterleaving` are
  the state machines. Runs are sequences of events, and the properties hold after every one of them. `ChatTurns` has
  the turns of a conversation one after the other, `ChatInterleaving` lets their steps interleave.
- `Ordering`, `Text` and `Wrappers` are shared: the stable library sort, splitting and joining, `Option` and `Result`.

Code that changes state in the source is a method over fields or loops here, proved equal to a specification function
or to a property; the whole-run theorems are about those functions. The clock of the searches is an arbitrary sequence
of readings, the rate limiter's one that never goes back; replies of the language model and answers of the network are
arbitrary functions of a counter, `localeCompare` is an arbitrary total preorder and betweenness an arbitrary function
of the graph.

## Main results

- The searches: `CriticalPath.LongestChainForJourney`, `ComplexityDepth.LongestChainLength` and
  `KeyActivityPath.ComputeCriticalPath` against `Paths.LongestIs`, with `ReportTheorems.DepthAgreesWithCriticalPath`.
- The ranking: `KeyActivityRanking.ScoreActivities`, what its rows mean (`KeyActivityTheorems.CompositesAreWeighted`,
  `SubScoresAreShares`, `EvidenceIs`), and `RankingIgnoresOrder`.
- The reports: `ComplexityReport.ComputeComplexity`, `CriticalPathReport.ComputeCriticalPaths`,
  `SystemReports.ComputeConsolidation`, `SystemMap.ComputeSystemMap`.
- The formats: `YamlLines.ReadsWhatFits`, `YamlText.TextRoundTrip`, `HashRoute.RoundTrip`, `Csv.RoundTrip`,
  `SpecTables.SectionDetermines`.
- The runs: `RateLimit.IntervalsKeepLimitIff`, `Resilience.NextState`, `ChatQuota.CallGrantedIff`,
  `ChatInterleaving.MessageRefusedIff`, `ChatTurns.AllPersistedIffEarlierFit`.

## What the proofs brought to light

The model follows the code. In these places the code does less, or something other, than its text promises. Where a
promised property fails, the theorems named with it give its exact condition or a concrete witness.

- **Search comments.** `api/src/analytics/critical-path.ts:6` and `:112` speak of memoisation; there is none, so
  nothing here is about it. A cap below 1 acts like 1, because a start is always recorded
  (`CriticalPath.LongestChainForJourney`).
- **Depth flag.** The key-activity search flags `depth_cap` on reaching 20 nodes even when nothing follows
  (`api/src/derive/key-activity-score.ts:126`). On any graph, unless another budget fired first, the flag therefore
  means exactly that a path of 20 nodes begins at a start of the search (`KeyActivityPath.DepthFlagIsExact`), which
  without a cycle is any path of 20 nodes (`DeepOnAcyclic`). A chain of just 20 nodes is flagged
  (`KeyActivityWitness.FullChainIsFlagged`).
- **Chain length on cyclic graphs.** `criticalPathLength` is described as the longest acyclic chain
  (`api/src/derive/key-activity-score.ts:60`). Untruncated it is, exactly when some longest chain begins at a start of
  the search (`KeyActivityPath.LengthIsLongestIff`); on one graph with a cycle it is 4 and the longest chain 5
  (`KeyActivityWitness.DetourIsCutShort`).
- **Edge keys.** Edges are deduplicated by the text `from->to`. Two different edges share a key only when an id
  contains `->`; then one of them is dropped (`KeyActivityRows.KeptEdgesComplete`, `ArrowFreeKeys`). What is kept
  depends on the input order exactly when two different edges in scope share a key (`OrderMattersIff`, with
  `ClashDependsOnOrder` as an example).
- **Input order.** With distinct ids, without such a clash and with no budget fired, scores, ranks and evidence do not
  depend on the order of the input, the flag `onCriticalPath` aside (`KeyActivityTheorems.RankingIgnoresOrder`). The
  flag does not either where all longest chains go through the same activities (`RowsIgnoreOrder`); elsewhere nothing
  is claimed about it.
- **Rate limiter.** An interval as long as the window sees fewer than twice the limit, and for every limit and every
  window length of 1 or more some run reaches one less than that (`RateLimit.IntervalBound`, `BoundIsReached`); the
  limit itself holds exactly when the window length is at most 0 or the limit is 1 (`IntervalsKeepLimitIff`). With a
  negative window length every request opens a window anew (`AnswersAreExact`), and a window no longer keeps the limit
  (`WindowsKeepLimitIff`).
- **Circuit breaker.** The comment at `api/src/resilience.ts:27-28` says only consecutive successes close the circuit.
  That holds of every run that closes it exactly when the failure threshold is at most 1
  (`Resilience.ConsecutiveIffThresholdOne`).
- **Retry.** The first wait is not capped by the maximum; all waits are within it exactly when the first is
  (`Retry.WaitsKeepMaximum`).
- **Markdown.** The comment at `api/src/derive/spec-markdown.ts:16-17` promises `<br>`; the code writes a space
  (`SpecMarkdown.UnescapeUndoes`). A carriage return survives escaping, so a table row is one line of Markdown exactly
  when none of its texts has one (`SpecTables.RowReads`).
- **Routes.** `parseHash` does not decode path segments, so an entity with a reserved character comes back encoded,
  and a mode without an entity is lost; `HashRoute.RoundTrip` and `ReplacementAgrees` say exactly when nothing is
  lost. The hash `#/sme/review/a%20b` of an older release is read as one route and, once replaced, as another
  (`RouteCatalogue.MovedSpace`).
- **YAML.** Lines can be dropped without an error. A document is read to its end exactly when every line goes on with
  the list or text above it, is deeper than an entry with nothing after its colon, or returns to an open level
  (`YamlLines.NothingDroppedIff`); `EntryAfterList` and `LineBetweenLevels` are two that are not. A comment behind a
  double-quoted text that ends in a backslash is not removed (`YamlText.CommentIsRemoved`).
- **Overlapping turns.** Nothing keeps two turns of a conversation apart: the history is loaded at
  `api/src/chat/agent.ts:114`, the message stored at 158 and the answer at 323, with awaits between them. The stored
  indices stay contiguous (`ChatInterleaving.IndicesStayContiguous`), but the unique index refuses a message exactly
  when another row was stored since its turn loaded the history, or the newest row did not fit then, and an answer
  exactly when another row was stored since its message (`MessageRefusedIff`, `AnswerRefusedIff`). `AnswerIsLost` is a
  run of two turns that loses one.
- **Chat history.** For turns that do not overlap: if the newest stored message were larger than the whole history
  budget, the history would be empty, the next turn index 0 again, and the unique index would refuse it and every
  later turn (`ChatTurns.StuckForever`). The shipped limits exclude this: a message has at most 4000 characters
  (`api/src/chat/schemas.ts:19`) and a reply at most 4096 tokens (`api/src/chat/llm/anthropic.ts:55`), far below the
  92307 words that fit (`ShippedLimitsSuffice`), so it takes raised limits to get there.

## Model

| member | source | states |
|---|---|---|
| `Paths.LongestIs` | api/src/analytics/critical-path.ts:4-14 | the reference measure: the longest simple path is attained, no simple path is longer, and it is 0 only without nodes |
| `Paths.CycleIffSomePathCloses` | api/src/analytics/critical-path.ts:150-155 | a directed cycle exists exactly when some simple path has an edge back onto itself, self-loops included |
| `Paths.ReachedCycleCloses` | api/src/derive/key-activity-score.ts:133-137 | from a node that reaches a cycle, a simple path starting at that node closes one |
| `Paths.ExtendForward` | api/src/derive/key-activity-score.ts:131-151 | every simple path is a prefix of one that no edge extends, so recording only those loses no length |
| `Paths.ExtendBackward` | api/src/derive/key-activity-score.ts:84-85 | in an acyclic graph every simple path is the tail of one that starts at a node without predecessor |
| `CriticalPathSearch.AllHandledCovers` | api/src/analytics/critical-path.ts:149-184 | once every successor of the top is dealt with, no simple path extending the stack beats the best length, and one that closes a cycle has raised the flag |
| `CriticalPathSearch.ChainSearch.Record` | api/src/analytics/critical-path.ts:136-138 | the best chain is replaced only by a strictly longer stack and stays a simple path within the cap |
| `CriticalPathSearch.ChainSearch.SpendBudget` | api/src/analytics/critical-path.ts:157-176 | of the three budgets one fires only when it is really spent; a refused path is counted but not followed |
| `CriticalPathSearch.ChainSearch.Follow` | api/src/analytics/critical-path.ts:157-183 | one successor: the stack is restored on every exit, and without truncation everything behind the successor is covered |
| `CriticalPathSearch.ChainSearch.Visit` | api/src/analytics/critical-path.ts:150-184 | one turn of the successor loop: a back edge flags a cycle, any other is followed |
| `CriticalPathSearch.ChainSearch.Dfs` | api/src/analytics/critical-path.ts:144-185 | on every exit the stack and the on-path set are restored and the best chain is no shorter; untruncated, no simple path extending the stack is longer than the best |
| `CriticalPathSearch.ChainSearch.SearchFrom` | api/src/analytics/critical-path.ts:187-194 | one start node, with the stack empty again afterwards |
| `CriticalPathSearch.ChainSearch.SearchAll` | api/src/analytics/critical-path.ts:187-196 | over all starts, the number of search entries is the number of spent paths plus at most one per start |
| `CriticalPathSearch.ChainSearch.Push` | api/src/analytics/critical-path.ts:178-179 | stack and on-path set grow together |
| `CriticalPathSearch.ChainSearch.Pop` | api/src/analytics/critical-path.ts:181-182 | stack and on-path set shrink together and still hold the same nodes |
| `CriticalPathSearch.ChainSearch.Truncate` | api/src/analytics/critical-path.ts:160-161 | sets the flag together with a reason whose budget is spent, and keeps everything the search has established about the paths, so the state is sound again |
| `CriticalPath.EveryStartCovers` | api/src/analytics/critical-path.ts:187-194 | searching from every node covers every simple path and every cycle |
| `CriticalPath.LongestChainForJourney` | api/src/analytics/critical-path.ts:117-197 | for any clock: a simple path within the cap; without truncation exactly the longest and the cycle flag exact; depth_cap means length equal to the cap and a longer path exists; entries at most members plus path budget; wall_clock exactly when a reading reached the budget |
| `CriticalPathReport.CollectPrecedes` | api/src/analytics/critical-path.ts:245-253 | the successor lists hold exactly the PRECEDES edges between activities |
| `CriticalPathReport.Restrict` | api/src/analytics/critical-path.ts:261-266 | the restriction keeps exactly the edges with both ends in the journey |
| `CriticalPathReport.ReportJourney` | api/src/analytics/critical-path.ts:268-303 | one entry that shows the search's answer: chain, length, first, last, truncation surface, and a reason that names a budget really spent |
| `CriticalPathReport.ComputeCriticalPaths` | api/src/analytics/critical-path.ts:206-312 | one entry for every journey, each with the guarantees of the search on that journey's own graph, among them that path_budget and wall_clock name a spent budget and that the entries stay within members plus budget; of any two entries the earlier is at least as long, and of equal length comes first by name |
| `CriticalPathReport.ListJourneys` | api/src/analytics/critical-path.ts:255-304 | the loop gives the journeys in order one entry each, and an effort for exactly those |
| `CriticalPathReport.Name` | api/src/analytics/critical-path.ts:284-287 | the chain's ids in order, each with its node's name or the id itself |
| `CriticalPathReport.SortReport` | api/src/analytics/critical-path.ts:306-309 | sorting keeps one entry for every journey, longest chain first and then by name |
| `ComplexityDepth.DepthSearch.Dfs` | api/src/analytics/complexity.ts:108-118 | the on-path set is restored and no simple path within the cap that extends the current one is longer than the number kept |
| `ComplexityDepth.LongestChainLength` | api/src/analytics/complexity.ts:100-126 | on every graph the depth is the smaller of the cap (at least 1) and the longest simple path |
| `ComplexityReport.CollectPrecedes` | api/src/analytics/complexity.ts:188-191 | the pairs kept are exactly the PRECEDES edges between activities |
| `ComplexityReport.GroupByJourney` | api/src/analytics/complexity.ts:194-203 | the groups hold each activity once, under its journey |
| `ComplexityReport.BuildSuccessors` | api/src/analytics/complexity.ts:209-216 | successors are exactly the kept pairs inside the journey |
| `ComplexityReport.UnionOver` | api/src/analytics/complexity.ts:220-227 | the distinct systems or roles are the union over the journey's activities |
| `ComplexityReport.ScoreJourney` | api/src/analytics/complexity.ts:206-246 | depth, distinct systems and distinct roles are the graph's own, and the score is their weighted product |
| `ComplexityReport.ComputeComplexity` | api/src/analytics/complexity.ts:140-254 | one entry for every journey, with exact sub-scores; every score is the product of the three scaled by the product of the weights, and of any two entries the earlier has the higher score, or the same one and comes first by name |
| `ComplexityReport.DefaultScores` | api/src/analytics/complexity.ts:234-237 | with all weights one, a score is depth times distinct systems times distinct roles |
| `ComplexityReport.ZeroScores` | api/src/analytics/complexity.ts:234-237 | with positive weights a score is zero exactly when one of the three sub-scores is |
| `ComplexityReport.EntryCounts` | api/src/analytics/complexity.ts:206-246 | an entry says how many activities the journey has, how many systems they use and roles execute them, and its longest chain, or 20 where that is longer |
| `ComplexityReport.SortReport` | api/src/analytics/complexity.ts:248-251 | sorting keeps one entry for every journey, highest score first and then by name |
| `ComplexityReport.GroupIsMembers` | api/src/analytics/complexity.ts:194-203 | a journey's group is exactly its members, without repetition |
| `GraphIndex.IndexNodes` | api/src/analytics/complexity.ts:145-156 | the label sets partition the nodes by kind, and the names are those of the last node with the id |
| `GraphIndex.LabelsRead` | api/src/analytics/complexity.ts:145-156 | an id is an activity, system, role or journey exactly when a node with that id has the label |
| `GraphIndex.NameIsLast` | api/src/analytics/complexity.ts:145-156 | an id's name is that of the last node with it |
| `GraphIndex.UnknownNamesItself` | api/src/analytics/critical-path.ts:284-287 | an id without a node is its own name |
| `GraphIndex.ScanEdges` | api/src/analytics/complexity.ts:158-192 | first PART_OF edge wins; systems and roles per activity are exactly those of the matching edges |
| `GraphIndex.FirstPartOfWins` | api/src/analytics/complexity.ts:167-174 | an activity belongs to a journey exactly when the first PART_OF edge that puts it into any journey puts it into that one |
| `GraphIndex.RelationsRead` | api/src/analytics/complexity.ts:175-192 | an activity uses a system, a role executes it and activities precede each other exactly where an edge of that type joins nodes with those labels |
| `GraphIndex.OfJourney` | api/src/analytics/complexity.ts:194-227 | a journey's activities are those whose first PART_OF edge names it, and its systems and roles are theirs |
| `GraphIndex.JourneyGraphIs` | api/src/analytics/critical-path.ts:261-266 | the reference graph of a journey has an edge exactly where a PRECEDES edge joins two members |
| `GraphIndex.SameEdgesSameAnswers` | api/src/analytics/complexity.ts:209-216 | two successor tables with the same edges have the same longest path and the same cycles |
| `GraphIndex.ScanEdge` | api/src/analytics/complexity.ts:167-192 | one edge extends the tables to the tables of one more edge |
| `GraphIndex.EdgeSnoc` | api/src/analytics/complexity.ts:168-187 | what one more edge changes: the journey only if there was none, the systems and roles by its far end |
| `SystemReports.CollectUsage` | api/src/analytics/single-system.ts:103-119 | per journey: exactly the systems its activities use, and how many of its activities use one |
| `SystemReports.ReportOne` | api/src/analytics/single-system.ts:122-132 | a journey is reported exactly when its activities use one distinct system |
| `SystemReports.ComputeSingleSystem` | api/src/analytics/single-system.ts:67-140 | the report holds exactly the journeys with one distinct system, each once, with that system and its use count; the most used come first, equal ones by name |
| `SystemReports.RefsSortedByName` | api/src/analytics/consolidation.ts:103-105 | every system of the set once, the earlier before the later by name |
| `SystemReports.CandidateOf` | api/src/analytics/consolidation.ts:100-119 | an activity is a candidate exactly when it uses two systems or more; its systems are listed by name |
| `SystemReports.TwoSystemsOverlap` | api/src/analytics/consolidation.ts:100-101 | two different systems make an activity a candidate, and one alone does not |
| `SystemReports.ComputeConsolidation` | api/src/analytics/consolidation.ts:63-128 | exactly the activities with two or more systems, each once, with its systems by name; those with most systems come first, equal ones by name |
| `SystemReports.ListCandidates` | api/src/analytics/consolidation.ts:99-119 | the loop lists exactly the activities with two or more systems, each once |
| `SystemReports.AddUsage` | api/src/analytics/single-system.ts:108-119 | one activity extends the per-journey tables to one more activity |
| `SystemReports.UsageOfJourney` | api/src/analytics/single-system.ts:103-119 | the per-journey tables are the systems and the users that the graph gives the journey |
| `SystemReports.ReportJourneys` | api/src/analytics/single-system.ts:121-132 | the loop reports exactly the single-system journeys, each once |
| `SystemReports.SortCandidates` | api/src/analytics/consolidation.ts:122-125 | sorting keeps exactly the candidates, most systems first and then by name |
| `SystemMap.CollectSystems` | api/src/analytics/system-map.ts:44-51 | only nodes labelled as systems, each with its name |
| `SystemMap.SystemNameIsLast` | api/src/analytics/system-map.ts:44-51 | a system's name is that of the last system node with its id |
| `SystemMap.CountEdges` | api/src/analytics/system-map.ts:53-75 | degree counts every edge end at a system, integration count only the ends of the listed integrations |
| `SystemMap.EndCountIs` | api/src/analytics/system-map.ts:53-60 | a degree is the number of edges that start at the system plus the number of those that end there |
| `SystemMap.IntegrationsConcat` | api/src/analytics/system-map.ts:62-75 | an edge is listed exactly when it is INTEGRATES_WITH between two systems, in the order of the edges |
| `SystemMap.ComputeSystemMap` | api/src/analytics/system-map.ts:43-93 | one row for every system with exact counts; most integrations first, then most edges, then by name; the integrations are the system-to-system INTEGRATES_WITH edges in order |
| `SystemMap.EndsCountedTwice` | api/src/analytics/system-map.ts:67-68 | edge ends summed over both ends' systems are twice the edges |
| `SystemMap.IntegrationsWithinDegree` | api/src/analytics/system-map.ts:58-68 | a system's integrations never exceed its degree |
| `SystemMap.IntegrationsConserved` | api/src/analytics/system-map.ts:53-83 | integration counts sum to twice the listed integrations, and each is at most the degree |
| `SystemMap.CountEdge` | api/src/analytics/system-map.ts:59-60 | one edge adds one count at each of its ends that is a system |
| `SystemMap.ListSystems` | api/src/analytics/system-map.ts:77-83 | one row for every system, with counts that default to 0 |
| `ReportTheorems.SingleSystemIffOneDistinctSystem` | api/src/analytics/single-system.ts:121-132 | on any graph a journey is in the single-system report exactly when its complexity entry has one distinct system |
| `ReportTheorems.CandidatesAreNotSingleSystem` | api/src/analytics/consolidation.ts:100-113 | no consolidation candidate's journey is in the single-system report |
| `ReportTheorems.DepthAgreesWithCriticalPath` | api/src/analytics/complexity.ts:218-218 | with the same cap the critical-path length never exceeds the complexity depth and equals it unless the path or clock budget fired |
| `KeyActivitySearch.ChainScorer.RecordPath` | api/src/derive/key-activity-score.ts:96-111 | every recording counts one path, whether or not it raises anything; a path of two nodes or more leaves every node of it with at least its length, and the best stays the largest entry |
| `KeyActivitySearch.ChainScorer.StopHere` | api/src/derive/key-activity-score.ts:119-130 | says which of clock and depth stopped the search, with that check really met, and that the current path is then recorded |
| `KeyActivitySearch.ChainScorer.Visit` | api/src/derive/key-activity-score.ts:132-150 | one successor: a back edge flags a cycle, any other is followed and the path budget checked after the return; once it is spent the search stops, and it stops for nothing but that or a late reading of the clock |
| `KeyActivitySearch.ChainScorer.CheckPathBudget` | api/src/derive/key-activity-score.ts:145-149 | the search is stopped exactly when it was before or as many paths as the budget are recorded; the first reason stays |
| `KeyActivitySearch.ChainScorer.Dfs` | api/src/derive/key-activity-score.ts:118-152 | the path is restored and the tables only grow; untruncated, every maximal path that extends the current one is accounted for at each of its nodes; what is recorded extends the current path, no path twice, and at most one path beyond the budget |
| `KeyActivitySearch.ChainScorer.SearchSources` | api/src/derive/key-activity-score.ts:154-157 | untruncated, the tables are complete for the given sources |
| `KeyActivitySearch.ChainScorer.Sweep` | api/src/derive/key-activity-score.ts:158-164 | untruncated, every node is a start or in the table; the starts are determined by the graph and the sorted ids, and so is the start of the path a depth_cap names |
| `KeyActivitySearch.RaisedKeeps` | api/src/derive/key-activity-score.ts:106-110 | raising the entries along a path keeps every entry attained by a recorded path and the best the largest |
| `KeyActivitySearch.AllHandledCovers` | api/src/derive/key-activity-score.ts:132-151 | once every successor is dealt with and a path without extension is recorded, every maximal path that extends it is accounted for |
| `KeyActivitySearch.ChainScorer.RaiseAll` | api/src/derive/key-activity-score.ts:108-110 | every node of the path is raised to at least its length, no other entry changes |
| `KeyActivitySearch.ChainScorer.Conclude` | api/src/derive/key-activity-score.ts:151-151 | a path that nothing extended is recorded, and the current path is then covered |
| `KeyActivitySearch.ChainScorer.SearchFrom` | api/src/derive/key-activity-score.ts:154-157 | one start: the path is empty again and, untruncated, the start is covered |
| `KeyActivityPath.BuildGraph` | api/src/derive/key-activity-score.ts:71-82 | successor lists and in-degrees are exactly those of the edges, successors sorted |
| `KeyActivityPath.TidyGraph` | api/src/derive/key-activity-score.ts:71-82 | without repeated edges no successor is listed twice |
| `KeyActivityPath.ChooseSources` | api/src/derive/key-activity-score.ts:84-85 | the starts are the nodes without incoming edge, or all nodes when there is none |
| `KeyActivityPath.AcyclicTable` | api/src/derive/key-activity-score.ts:96-111 | on an acyclic graph a complete table gives, for each node, the node count of the longest path through it, and no entry exactly when that is below 2 |
| `KeyActivityPath.ReachedCyclesAreFlagged` | api/src/derive/key-activity-score.ts:132-137 | once every node is reached, every cycle has been flagged |
| `KeyActivityPath.ExactTablesAgree` | api/src/derive/key-activity-score.ts:81-111 | two complete tables for the same starts are equal, so the order of the search does not show |
| `KeyActivityPath.AcyclicResult` | api/src/derive/key-activity-score.ts:166-176 | on an acyclic graph the whole result is the one of the longest paths |
| `KeyActivityPath.ComputeCriticalPath` | api/src/derive/key-activity-score.ts:70-177 | whichever budget fired: every depth is the length of a simple path through the node, the flagged nodes form one of the reported length, and the budget named was spent, over recorded paths of which only single nodes occur twice; without a fired budget cycle flag and table are exact and the length below the cap, on an acyclic graph the longest path's |
| `KeyActivityPath.DepthFlagIsExact` | api/src/derive/key-activity-score.ts:126-130 | on every graph, cyclic or not, unless another budget fired first: flagged depth_cap exactly when a path of 20 nodes begins at a start of the search |
| `KeyActivityPath.DeepOnAcyclic` | api/src/derive/key-activity-score.ts:126-130 | on an acyclic graph that is exactly when some path has 20 nodes or more |
| `KeyActivityPath.LengthIsLongestIff` | api/src/derive/key-activity-score.ts:60-62 | on any graph an untruncated length never exceeds the longest chain and equals it exactly when some longest chain begins at a start of the search |
| `KeyActivityPath.Search` | api/src/derive/key-activity-score.ts:87-164 | both passes: cycle flag and table exact unless a budget fired |
| `KeyActivityPath.Result` | api/src/derive/key-activity-score.ts:166-176 | a best path of fewer than two nodes counts as none; the flagged nodes form a chain of the reported length |
| `KeyActivityPath.FinishedTable` | api/src/derive/key-activity-score.ts:154-164 | complete tables over starts and entries that cover every node are exact, and every cycle is flagged |
| `KeyActivityWitness.FullChainIsFlagged` | api/src/derive/key-activity-score.ts:126-130 | a chain of exactly 20 nodes, with nothing after the twentieth, is flagged depth_cap |
| `KeyActivityWitness.ChainLongest` | api/src/derive/key-activity-score.ts:60-62 | the longest path of a chain of n nodes has n nodes, for every n |
| `KeyActivityWitness.DetourIsCutShort` | api/src/derive/key-activity-score.ts:60-62 | a cyclic graph of six nodes on which an exact table reports 4 although a chain of 5 exists |
| `KeyActivityWitness.DetourRoots` | api/src/derive/key-activity-score.ts:84-85 | the search of that graph starts at one node only |
| `KeyActivityRows.FirstByIdIs` | api/src/derive/key-activity-score.ts:192-202 | deduplication keeps the first occurrence of every id, and every id |
| `KeyActivityRows.KeptEdgesComplete` | api/src/derive/key-activity-score.ts:207-216 | the filter keeps exactly the in-scope edges without self-loops if and only if no two of them share a key text |
| `KeyActivityRows.KeptAre` | api/src/derive/key-activity-score.ts:203-216 | only edges between two different activities in scope are kept, and of every key among them one |
| `KeyActivityRows.OrderMattersIff` | api/src/derive/key-activity-score.ts:207-216 | which edges survive the filter depends on their order exactly when two different in-scope edges share a key text |
| `KeyActivityRows.ArrowFreeKeys` | api/src/derive/key-activity-score.ts:212-213 | ids without an arrow never share a key |
| `KeyActivityRows.ClashDependsOnOrder` | api/src/derive/key-activity-score.ts:212-215 | two different edges with the key `a->b->c`: which one survives depends on their order |
| `KeyActivityRows.RowLeOrder` | api/src/derive/key-activity-score.ts:326-331 | the ranking comparison is a total preorder |
| `KeyActivityScore.Deduplicate` | api/src/derive/key-activity-score.ts:196-202 | the list of first occurrences and the set of their ids |
| `KeyActivityScore.FilterEdges` | api/src/derive/key-activity-score.ts:207-216 | the first edge of each key, self-loops and foreign ends dropped |
| `KeyActivityScore.BuildNeighbours` | api/src/derive/key-activity-score.ts:248-253 | each activity's neighbours are the other ends of its edges, a mutual pair counted once |
| `KeyActivityScore.CountHandoffs` | api/src/derive/key-activity-score.ts:256-279 | the numbers of neighbours with non-empty disjoint role sets and system sets |
| `KeyActivityScore.CriticalPathScore` | api/src/derive/key-activity-score.ts:289-295 | the three-way case is always depth divided by the critical-path length |
| `KeyActivityScore.ScoreRow` | api/src/derive/key-activity-score.ts:284-321 | the row's scores and whole evidence, with the composite over those scores: raw betweenness, in-degree, out-degree, depth, handoffs and the flag of the critical path |
| `KeyActivityScore.CountAllHandoffs` | api/src/derive/key-activity-score.ts:255-279 | the counts of every activity |
| `KeyActivityScore.LargestHandoff` | api/src/derive/key-activity-score.ts:280-280 | the largest total, 0 when there is none |
| `KeyActivityScore.MeasureBetweenness` | api/src/derive/key-activity-score.ts:233-236 | the betweenness of every activity and its maximum, at least 0 |
| `KeyActivityRanking.Rank` | api/src/derive/key-activity-score.ts:326-343 | sorted by composite descending, then timestamp, then id; ranks 1 to n; nothing lost |
| `KeyActivityRanking.ScoreActivities` | api/src/derive/key-activity-score.ts:188-343 | one row for each distinct activity with its whole evidence, exact facts; composites never rise down the ranking, equal ones follow the timestamp and then the id; the rows show the answer of the chain search: its flags, its depths, each attained by a path also under truncation, a cycle flag that is never raised without a cycle, and a truncation reason whose budget was spent |
| `KeyActivityRanking.DepthsAreExact` | api/src/derive/key-activity-score.ts:238-242 | untruncated, the cycle flag is exact, every depth is the longest maximal chain through the activity, and without a cycle the longest path through it |
| `KeyActivityRanking.ScoreAll` | api/src/derive/key-activity-score.ts:284-321 | one row per activity, flagged exactly when on the critical path |
| `KeyActivityRanking.Number` | api/src/derive/key-activity-score.ts:333-343 | the rank is the place in the sorted list, nothing else changes |
| `KeyActivityTheorems.OneRowEach` | api/src/derive/key-activity-score.ts:284-343 | the rows' ids are distinct and are exactly the activities' ids |
| `KeyActivityTheorems.EvidenceIs` | api/src/derive/key-activity-score.ts:303-320 | a row shows the first activity with its id, the library's betweenness for it, and the numbers of activities with an edge to it and from it |
| `KeyActivityTheorems.CompositesAreWeighted` | api/src/derive/key-activity-score.ts:300-301 | the composites of two rows differ by the weighted differences of their three sub-scores, and a row whose sub-scores are zero has composite zero |
| `KeyActivityTheorems.SubScoresAreShares` | api/src/derive/key-activity-score.ts:285-298 | each sub-score times its largest value is the row's own evidence, and zero where the largest is zero |
| `KeyActivityTheorems.LargestAreOfRows` | api/src/derive/key-activity-score.ts:236-280 | the largest betweenness and the largest number of handoffs are attained by rows and exceeded by none |
| `KeyActivityTheorems.HandoffsAreSeparations` | api/src/derive/key-activity-score.ts:256-279 | a row's handoffs are the activities joined to it by an edge that have roles, or systems, as it has, but none in common |
| `KeyActivityTheorems.RowsShowTheSearch` | api/src/derive/key-activity-score.ts:289-317 | depth, length and flag of a row are the chain search's answer for its activity, zero where it has none |
| `KeyActivityTheorems.RankingIgnoresOrder` | api/src/derive/key-activity-score.ts:323-343 | for distinct ids, no key clash and no fired budget, permuting activities or edges changes no score, no rank and no evidence but the flag of the critical path, which is left open |
| `KeyActivityTheorems.RowsIgnoreOrder` | api/src/derive/key-activity-score.ts:323-343 | where all longest chains go through the same activities the rows are equal, flag included |
| `KeyActivityTheorems.HandoffsCountedTwice` | api/src/derive/key-activity-score.ts:244-279 | role handoffs, and system handoffs, summed over the rows are twice the number of adjacent unordered pairs with non-empty disjoint sets |
| `KeyActivityTheorems.DegreesCountEdges` | api/src/derive/key-activity-score.ts:308-312 | over all rows the in-degrees, and the out-degrees, add up to the number of kept edges |
| `KeyActivityTheorems.SameFacts` | api/src/derive/key-activity-score.ts:188-280 | permuted input without key clash determines the same facts |
| `Counting.Handshake` | api/src/derive/key-activity-score.ts:248-279 | degrees of a symmetric irreflexive relation sum to twice its unordered pairs |
| `Ordering.SortIs` | api/src/analytics/complexity.ts:248-251 | the library sort keeps the elements and, for a total preorder, sorts them |
| `Ordering.SortedUnique` | api/src/derive/key-activity-score.ts:323-331 | sorted lists of the same elements are equal when only equal elements tie |
| `Ordering.SortStringsCanonical` | api/src/derive/key-activity-score.ts:81-85 | sorting ids forgets their input order |
| `Ordering.StringLeIs` | api/src/derive/key-activity-score.ts:328-330 | ids and timestamps compare at the first character in which they differ, a prefix first |
| `Csv.ToCsv` | api/src/analytics/ai-candidates.ts:238-259 | byte order mark, then header and one record per candidate, which an RFC 4180 section 2 reader reads back |
| `Csv.ReadsField` | api/src/analytics/ai-candidates.ts:215-220 | a written field is read back whatever it contains, up to the next comma or line end |
| `Csv.ReadsRecord` | api/src/analytics/ai-candidates.ts:241-256 | a written record is read back with the same number of the same values |
| `Csv.RoundTrip` | api/src/analytics/ai-candidates.ts:238-259 | any list of non-empty records, with arbitrary strings, is read back unchanged |
| `Csv.ExportReadsBack` | api/src/analytics/ai-candidates.ts:222-259 | the export of any candidates reads back as the header and their records of eight values |
| `Csv.ExportIsInjective` | api/src/analytics/ai-candidates.ts:238-259 | equal exports come from candidates with equal records |
| `Csv.ColumnsAre` | api/src/analytics/ai-candidates.ts:222-256 | each value of a candidate stands under the heading that names it, lists joined in order |
| `Csv.QuotedIff` | api/src/analytics/ai-candidates.ts:215-220 | a field is quoted exactly when it holds a comma, a quote or part of a line end |
| `Csv.DocumentEnds` | api/src/analytics/ai-candidates.ts:239-258 | the text begins with the byte order mark and ends with a line end |
| `RateLimit.RateLimiter.CheckRateLimit` | api/src/middleware/rate-limit.ts:16-51 | the answer and the new store of one request |
| `RateLimit.RateLimiter.CleanupExpiredEntries` | api/src/middleware/rate-limit.ts:54-61 | exactly the expired entries are deleted |
| `RateLimit.AnswersAreExact` | api/src/middleware/rate-limit.ts:37-50 | for every configuration a request is admitted exactly when its window has admitted fewer than the limit, and `remaining` is what is left; with a negative window length every request opens its own |
| `RateLimit.WindowBound` | api/src/middleware/rate-limit.ts:23-45 | in any run each window of non-negative length admits at most the limit |
| `RateLimit.WindowsKeepLimitIff` | api/src/middleware/rate-limit.ts:23-45 | every window of every run keeps the limit exactly when the window length is not negative |
| `RateLimit.IntervalBound` | api/src/middleware/rate-limit.ts:23-45 | for every configuration, any closed interval as long as a window admits fewer than twice the limit per identifier |
| `RateLimit.BoundIsReached` | api/src/middleware/rate-limit.ts:23-45 | for every limit and every window length of 1 or more, a run with twice the limit less one admitted within one window length |
| `RateLimit.IntervalsKeepLimitIff` | api/src/middleware/rate-limit.ts:23-45 | every interval of one window length keeps the limit exactly when the window length is at most 0 or the limit is 1 |
| `RateLimit.CleanupInvisible` | api/src/middleware/rate-limit.ts:53-61 | cleanups inserted anywhere change no answer |
| `RateLimit.LiveWindowsAreExact` | api/src/middleware/rate-limit.ts:16-61 | for every configuration, after any run the store has an entry for a window that is still open exactly when a request was admitted into it, and the entry counts those |
| `RateLimit.CleanupRemovesExpired` | api/src/middleware/rate-limit.ts:54-61 | after any run a cleanup removes exactly the entries whose window is over, and leaves the others as they are |
| `RateLimit.WindowOfRequest` | api/src/middleware/rate-limit.ts:19-50 | a request is answered for the window that is still open, or opens one of full length |
| `Resilience.CircuitBreaker.Start` | api/src/resilience.ts:34-41 | when a call is admitted and what that does to the state |
| `Resilience.CircuitBreaker.OnSuccess` | api/src/resilience.ts:53-62 | the state after a completed success |
| `Resilience.CircuitBreaker.OnFailure` | api/src/resilience.ts:64-70 | the state after a completed failure |
| `Resilience.CountersAreExact` | api/src/resilience.ts:53-70 | over every interleaving: the failure count is that since the last success, the last failure time that of the last failure, the probe count that since the last entry to HALF_OPEN |
| `Resilience.NextState` | api/src/resilience.ts:33-70 | for every run and event, the next state from what the run holds: time since the last failure, successes since HALF_OPEN, failures since a success |
| `Resilience.AdmissionIff` | api/src/resilience.ts:34-41 | a closed or half-open circuit admits every call, an open one exactly when more than the recovery timeout has passed since the last failure |
| `Resilience.ClosedMeansBelowThreshold` | api/src/resilience.ts:64-70 | CLOSED implies fewer failures than the threshold in every feasible run exactly when the threshold is at least 1 |
| `Resilience.OpenAdmission` | api/src/resilience.ts:34-41 | from OPEN a call is admitted exactly when more than the recovery timeout has passed since the last failure |
| `Resilience.ClosesByThirdSuccess` | api/src/resilience.ts:53-62 | CLOSED is entered only by the third success completed since the latest entry to HALF_OPEN |
| `Resilience.OpensByThreshold` | api/src/resilience.ts:64-70 | OPEN is entered exactly by a failure that brings the count to the threshold |
| `Resilience.ConsecutiveIffThresholdOne` | api/src/resilience.ts:27-29 | every feasible run that closes the circuit has had no failure since it entered HALF_OPEN, exactly when the threshold is at most 1 |
| `Resilience.ForgivenFailure` | api/src/resilience.ts:27-29 | for every threshold of 2 or more, a feasible run that closes the circuit after a failure among its probes |
| `Resilience.FailingCallsOpen` | api/src/resilience.ts:64-70 | as many failing calls as the threshold open the circuit, fewer do not |
| `Retry.Execute` | api/src/resilience.ts:88-109 | the first success within the attempts wins, otherwise the last error; the first wait is the initial delay, each later one the previous times the multiplier or the maximum, whichever is less |
| `Retry.WaitForm` | api/src/resilience.ts:90-104 | for every multiplier from 0 and every maximum, negative ones included: from the second wait on the second one multiplied on, capped at the maximum where the waits move towards it |
| `Retry.WaitsKeepMaximum` | api/src/resilience.ts:90-104 | every wait is within the maximum exactly when the first one is, for every configuration |
| `SpecMarkdown.EscapeIsPerCharacter` | api/src/derive/spec-markdown.ts:14-28 | nine successive replacements are one map over characters |
| `SpecMarkdown.UnescapeUndoes` | api/src/derive/spec-markdown.ts:14-28 | one-pass unescaping gives the text back exactly when it has no newline |
| `SpecMarkdown.EverySignIsEscaped` | api/src/derive/spec-markdown.ts:14-28 | every pipe, and every other sign of Markdown, stands in escaped text after an odd run of backslashes |
| `SpecMarkdown.EscapesNothingElse` | api/src/derive/spec-markdown.ts:14-28 | escaping leaves a text alone exactly when it has no backslash, no sign of Markdown and no newline |
| `SpecMarkdown.LineBreaks` | api/src/derive/spec-markdown.ts:14-28 | no newline survives escaping; a carriage return survives exactly where the text has one |
| `SpecTables.RowReads` | api/src/derive/spec-markdown.ts:105-107 | a row of any number of cells is read back as the texts of its cells, whatever they hold, with as many cells; it has no newline, and a carriage return exactly when one of the texts has |
| `SpecTables.EscapeSays` | api/src/derive/spec-markdown.ts:14-28 | an escaped text is one cell, and is read back as that text with newlines as spaces |
| `SpecTables.OnOneLineIs` | api/src/derive/spec-markdown.ts:14-28 | a text on one line has a space for each newline and is otherwise the same |
| `SpecTables.KeyColumns` | api/src/derive/spec-markdown.ts:101-107 | rank, name and score stand under their headings, and the check mark stands for a marked activity |
| `SpecTables.KpiColumns` | api/src/derive/spec-markdown.ts:122-127 | the same for the coverage matrix |
| `SpecTables.CapabilityColumns` | api/src/derive/spec-markdown.ts:165-170 | the same for the capabilities |
| `SpecTables.FmtSays` | api/src/derive/spec-markdown.ts:30-33 | an optional text is one cell, read back as a dash when there is nothing to show |
| `SpecTables.TableReads` | api/src/derive/spec-markdown.ts:101-108 | header, rule and rows make a table that reads as its columns and texts, every line as wide as the header |
| `SpecTables.TableRows` | api/src/derive/spec-markdown.ts:103-108 | the lines before are kept, and each row reads as the texts of its record, in order |
| `SpecTables.RenderSection` | api/src/derive/spec-markdown.ts:92-110 | for every section of this form the lines added read back as the notice with its reason, the fixed text, or the table of all records |
| `SpecTables.RenderKeyActivities` | api/src/derive/spec-markdown.ts:92-110 | for every document the lines added are one section, read back as the notice with its reason, the empty text, or the table of all activities |
| `SpecTables.RenderCoverageMatrix` | api/src/derive/spec-markdown.ts:112-133 | the same for the coverage matrix |
| `SpecTables.RenderCapabilities` | api/src/derive/spec-markdown.ts:153-176 | the same for the capabilities |
| `SpecTables.SectionDetermines` | api/src/derive/spec-markdown.ts:92-110 | equal lines come from documents that agree on the section: the same reason on one line, or the same texts in the same rows |
| `SpecTables.KeyActivitiesReadBack` | api/src/derive/spec-markdown.ts:101-108 | equal lines come from equal lists of key activities when no name has a newline |
| `SpecTables.UnbrokenSplits` | api/src/derive/spec-markdown.ts:215-215 | cutting the joined document at newlines gives back its lines |
| `HashRoute.EncodeFixesPlain` | pwa/src/route.ts:336-337 | percent-encoding leaves a text alone exactly when all its characters are unreserved |
| `HashRoute.UnreservedAre` | pwa/src/route.ts:336-337 | letters, digits and nine marks are the characters that encoding leaves alone |
| `HashRoute.HexIs` | pwa/src/route.ts:336-337 | the digits of an escape are those of encodeURIComponent, upper case |
| `HashRoute.EncodeIsSafe` | pwa/src/route.ts:336-337 | an encoded part holds no slash and no question mark |
| `HashRoute.ParamTransform` | pwa/src/route.ts:206-227 | the three transforms as the parts they return, undefined ones left out |
| `HashRoute.ApplyAliases` | pwa/src/route.ts:236-273 | real tabs are left alone; then the first tab row, then the first bare row, else nothing |
| `HashRoute.TabRowMoves` | pwa/src/route.ts:249-262 | the first row for the surface and tab decides where a hash moves and what its transform changes |
| `HashRoute.BareRowMoves` | pwa/src/route.ts:264-272 | only without such a row the surface's first default moves it, and without one it stays |
| `HashRoute.ToHash` | pwa/src/route.ts:330-341 | surface, tab, entity and mode joined by slashes, mode only with an entity, then the query |
| `HashRoute.HashSays` | pwa/src/route.ts:330-341 | the printed text, part by part |
| `HashRoute.ParseHash` | pwa/src/route.ts:275-328 | the route of a hash and the hash that replaces it |
| `HashRoute.ParsedIsNamed` | pwa/src/route.ts:309-327 | whatever the text, the route names an existing surface and a real or virtual tab of it |
| `HashRoute.PathReads` | pwa/src/route.ts:276-290 | the parts between slashes are surface, tab, entity and mode, and the pairs after the question mark the parameters |
| `HashRoute.PathAlone` | pwa/src/route.ts:276-283 | the same where there is no question mark |
| `HashRoute.UnknownSurfaceLeadsHome` | pwa/src/route.ts:309-310 | an unknown surface leads to the default route |
| `HashRoute.UnknownTabFallsBack` | pwa/src/route.ts:312-327 | on a known surface a tab that is neither real nor virtual gives way to the first one, and the rest of the route stays |
| `HashRoute.LastPairWins` | pwa/src/route.ts:285-290 | a parameter has the value of the last pair with its name |
| `HashRoute.WrittenOfHash` | pwa/src/route.ts:276-290 | splitting a printed hash gives back surface, tab, parameters and the encoded entity and mode |
| `HashRoute.RoundTrip` | pwa/src/route.ts:275-341 | printing and parsing a route that names a tab gives it back exactly when entity and mode are absent or non-empty and unreserved and a mode has an entity |
| `HashRoute.ReplacementAgrees` | pwa/src/route.ts:292-307 | a moved hash lands on a real tab, its replacement is not moved again, and both give the same route exactly when the moved entity and mode survive printing |
| `HashRoute.ReplacedIff` | pwa/src/route.ts:292-307 | a hash is replaced exactly when it names no real tab and some alias applies, by what is printed for the route it is moved to; the answer is read from that route |
| `HashRoute.SpacesAreLost` | pwa/src/route.ts:279-283 | an entity `a b` comes back as `a%20b`: segments are not decoded |
| `HashRoute.ReadParams` | pwa/src/route.ts:285-290 | later pairs overwrite earlier ones; an empty query gives no parameters |
| `HashRoute.NamedStays` | pwa/src/route.ts:243-247 | a real or virtual tab is never moved by an alias |
| `HashRoute.ParsedOfHash` | pwa/src/route.ts:275-341 | printing and parsing keeps everything but the encoding of entity and mode, and drops a mode without entity |
| `RouteCatalogue.CatalogueIsWellFormed` | pwa/src/route.ts:18-234 | the shipped surfaces, virtual tabs and aliases satisfy what the theorems assume: clean ids, every alias lands on a real tab, none starts at a virtual one |
| `RouteCatalogue.ShippedRouter` | pwa/src/route.ts:275-341 | the three router theorems for the shipped tables |
| `RouteCatalogue.MovedEntity` | pwa/src/route.ts:292-307 | an old hash `#/sme/review/x` is replaced by one that gives the same route exactly when x is unreserved |
| `RouteCatalogue.MovedSpace` | pwa/src/route.ts:292-307 | `#/sme/review/a%20b` is replaced by a hash that gives another route |
| `FormQuery.FaithfulCodec` | pwa/src/route.ts:287-287 | a codec that writes queries as forms do meets what the theorems assume of URLSearchParams |
| `FormQuery.FormReads` | pwa/src/route.ts:340-340 | form escaping over UTF-8 is undone by reading, for every text |
| `FormQuery.EncodedReads` | pwa/src/route.ts:336-337 | percent-encoding is undone by reading its escapes as UTF-8, for every text |
| `YamlBlock.Parser.ReadItems` | scripts/stitch-tokens-to-css.ts:111-121 | the scalars of the leading items of the block, cursor after them |
| `YamlBlock.Parser.ReadText` | scripts/stitch-tokens-to-css.ts:140-147 | the contents of the leading lines at least as deep, cursor after them |
| `YamlBlock.Parser.ReadField` | scripts/stitch-tokens-to-css.ts:127-158 | key and value of one entry with everything nested under it, or the offending line |
| `YamlBlock.Parser.ParseBlock` | scripts/stitch-tokens-to-css.ts:104-161 | the imperative parser computes the functional one and moves the cursor to the same place |
| `YamlBlock.ParseLines` | scripts/stitch-tokens-to-css.ts:163-163 | the parser ends on every list of lines with a value or the line that has no colon |
| `YamlScalars.DecimalReads` | scripts/stitch-tokens-to-css.ts:99-99 | every natural number is read back from its decimal text |
| `YamlScalars.OneMoreDigit` | scripts/stitch-tokens-to-css.ts:99-99 | appending a digit to a number gives ten times the number plus the digit |
| `YamlScalars.NegativeReads` | scripts/stitch-tokens-to-css.ts:99-99 | a minus in front negates |
| `YamlScalars.FractionReads` | scripts/stitch-tokens-to-css.ts:100-100 | with k digits after the point, the number times ten to the k is the integer of all its digits |
| `YamlScalars.NumbersIff` | scripts/stitch-tokens-to-css.ts:99-100 | a scalar is a number exactly when it is an optional minus, digits, and possibly a point and digits |
| `YamlScalars.NullReads` | scripts/stitch-tokens-to-css.ts:92-92 | the empty text, a tilde and null are the null value |
| `YamlScalars.TruthReads` | scripts/stitch-tokens-to-css.ts:93-94 | true and false are the truth values |
| `YamlScalars.SingleQuotedReads` | scripts/stitch-tokens-to-css.ts:98-98 | between single quotes any text stands for itself |
| `YamlScalars.PlainTextReads` | scripts/stitch-tokens-to-css.ts:101-101 | a scalar that is none of these stands for itself |
| `YamlBlock.Parser.ReadValue` | scripts/stitch-tokens-to-css.ts:137-158 | the branches on the text after the colon: block scalar, nested block, empty mapping, scalar |
| `YamlLayout.FieldReads` | scripts/stitch-tokens-to-css.ts:127-158 | a printed entry is read back with its key, and the cursor stops right after its nested lines |
| `YamlLayout.BlockReads` | scripts/stitch-tokens-to-css.ts:104-161 | a nested mapping or list laid out with children deeper and siblings level is read back exactly, cursor just past it |
| `YamlLayout.EntriesRead` | scripts/stitch-tokens-to-css.ts:124-161 | a run of entries is read back as one mapping, later keys overwriting |
| `YamlLayout.DocumentReads` | scripts/stitch-tokens-to-css.ts:104-163 | the document round trip; lines that follow the first block and are shallower change nothing |
| `YamlLayout.ValueReads` | scripts/stitch-tokens-to-css.ts:137-158 | whatever follows a key, printed, is read back with its nested lines |
| `YamlLines.ReadsWhatFits` | scripts/stitch-tokens-to-css.ts:104-163 | on every list of lines the parser stops exactly where one pass with a stack of open levels does: at the first line that has no place, or no colon |
| `YamlLines.NothingDroppedIff` | scripts/stitch-tokens-to-css.ts:104-163 | a document is read to its end exactly when every line goes on with the list or text above, is deeper than an entry with nothing after its colon, or returns to an open level |
| `YamlLines.DroppedLinesDoNotMatter` | scripts/stitch-tokens-to-css.ts:163-163 | the value is that of the lines before the first one without a place |
| `YamlLines.FieldsScan` | scripts/stitch-tokens-to-css.ts:124-161 | a mapping consumes exactly the lines that the pass accepts at its level and below |
| `YamlLines.LayoutsFit` | scripts/stitch-tokens-to-css.ts:104-163 | whatever the layout writes is read to its end |
| `YamlLines.EntryAfterList` | scripts/stitch-tokens-to-css.ts:108-121 | `- x` and `k: v` at one level: the entry is dropped |
| `YamlLines.LineBetweenLevels` | scripts/stitch-tokens-to-css.ts:124-161 | `a:`, `x:`, `y: z` at levels 0, 2, 1: the last line is dropped |
| `YamlText.StripComment` | scripts/stitch-tokens-to-css.ts:68-77 | a line up to the first comment sign outside double quotes |
| `YamlText.CleanLines` | scripts/stitch-tokens-to-css.ts:67-87 | one line per text line that is not blank, with its indentation and trimmed content |
| `YamlText.KeptIs` | scripts/stitch-tokens-to-css.ts:68-77 | a line is kept up to its first comment sign that follows an even number of unescaped double quotes |
| `YamlText.LineIs` | scripts/stitch-tokens-to-css.ts:79-87 | a line is what is kept of it without the white space at its ends, at the level of the white space before it |
| `YamlText.EntryReads` | scripts/stitch-tokens-to-css.ts:124-157 | a line on its own that has a colon and does not begin with a dash and a space is one entry: trimmed key, and the scalar behind the colon or an empty mapping |
| `YamlText.ItemReadsAlone` | scripts/stitch-tokens-to-css.ts:108-122 | a dash, or a dash and a space with any white space, and a text are a list of that scalar |
| `YamlText.NeitherFails` | scripts/stitch-tokens-to-css.ts:128-131 | a line that is neither is an error, and names itself |
| `YamlText.WhiteSpaceIs` | scripts/stitch-tokens-to-css.ts:79-87 | the characters that trimming takes off, by code point |
| `YamlText.BlankLineVanishes` | scripts/stitch-tokens-to-css.ts:80-81 | a line with nothing but white space before its comment is not there |
| `YamlText.TextRoundTrip` | scripts/stitch-tokens-to-css.ts:66-164 | a printed document, as text, parses to the value it was printed from |
| `YamlText.QuotedScalarReads` | scripts/stitch-tokens-to-css.ts:95-97 | the two replacements undo the usual escaping of any text |
| `YamlText.KeptAfterQuoted` | scripts/stitch-tokens-to-css.ts:71-76 | after a quoted scalar the scan is outside the quotes unless the text ends in a backslash |
| `YamlText.CommentIsRemoved` | scripts/stitch-tokens-to-css.ts:71-76 | a comment behind a quoted scalar is removed exactly when its text does not end in a backslash |
| `YamlText.PrintedLinesRead` | scripts/stitch-tokens-to-css.ts:67-87 | printed lines are read back with the same indentation and content |
| `YamlText.ParseYaml` | scripts/stitch-tokens-to-css.ts:66-164 | the reader is the parser on the cleaned lines, whose parts `LineIs`, `ReadsWhatFits` and `YamlScalars` describe |
| `ChatQuota.Quota.IncrementQuotaOrFail` | api/src/chat/quota.ts:42-64 | refused, with nothing changed, exactly when 50 calls of the conversation or 500 of the day are counted; otherwise both counts go up by one and no other changes |
| `ChatQuota.Quota.IsQuotaExhausted` | api/src/chat/quota.ts:35-38 | exhausted exactly when 50 calls of the conversation or 500 of the day are counted |
| `ChatQuota.RefusalIsFinal` | api/src/chat/quota.ts:35-38 | once a turn of a conversation has been refused for the quota, that conversation and day starts no further call in any continuation |
| `ChatQuota.EveryRunKeepsInv` | api/src/chat/quota.ts:55-64 | over every interleaving of turns: each count is the calls it stands for and within its cap, each turn starts at most 5 calls, tool messages are paired |
| `ChatQuota.CallGrantedIff` | api/src/chat/agent.ts:190-197 | in every run, a ready turn with fewer than five tool calls starts a call exactly when fewer than 50 calls of its conversation and 500 of the day were started; otherwise it ends and nothing is counted |
| `ChatQuota.TurnDeclinedIff` | api/src/chat/quota.ts:35-38 | in every run, a new turn is declined exactly when 50 calls of its conversation or 500 of the day were started |
| `ChatQuota.ReplyGoesOn` | api/src/chat/agent.ts:247-281 | a reply with a tool call leads to another iteration with its use and result, any other ends the turn |
| `ChatQuota.CountsSumToCalls` | api/src/chat/quota.ts:42-64 | over every interleaving the conversation counts and the day counts each sum to the calls started |
| `ChatQuota.PairAppended` | api/src/chat/agent.ts:270-277 | appending a tool use and its result keeps every use followed by its own result |
| `ChatHistory.LoadConversationHistory` | api/src/chat/persistence.ts:366-396 | the history is the longest suffix of the newest messages whose size fits the budget |
| `ChatHistory.WindowIs` | api/src/chat/persistence.ts:366-396 | the history is the newest rows, at most the maximum of them |
| `ChatHistory.WindowFits` | api/src/chat/persistence.ts:366-396 | within that maximum, a number of newest rows fits the budget exactly when the history has as many |
| `ChatHistory.FittingSuffixes` | api/src/chat/persistence.ts:387-395 | the suffixes that fit the budget are exactly those no longer than the history that is loaded |
| `ChatHistory.EmptyHistory` | api/src/chat/persistence.ts:387-395 | the history is empty exactly when there is no message or the newest alone is too large |
| `ChatHistory.SumUp` | api/src/chat/persistence.ts:389-389 | the total size of the rows |
| `ChatAgent.RunLoop` | api/src/chat/agent.ts:177-286 | messages are the opening with the use and result of each tool call in order; at most 5 calls, each granted; out of scope exactly on a refused first reply; the budget flag exact; the text that of the last reply with any |
| `ChatAgent.LastTextWins` | api/src/chat/agent.ts:203-244 | the text is that of the last reply that has one, the first reply's without the classifier's prefix |
| `ChatAgent.TraceIs` | api/src/chat/agent.ts:270-277 | the messages are the opening and then, reply by reply, its first tool use and that tool's result |
| `ChatAgent.TraceIsPaired` | api/src/chat/agent.ts:270-277 | in the loop's messages each tool use is followed at once by the result with its id |
| `ChatTurns.Conversation.AppendMessage` | api/src/chat/persistence.ts:282-306 | the row is inserted unless its turn index is taken |
| `ChatTurns.Conversation.NextIndex` | api/src/chat/agent.ts:113-121 | the next index is the number of rows, or 0 again when the newest row is too large to load |
| `ChatTurns.Conversation.PersistTurn` | api/src/chat/agent.ts:113-169 | what a turn that no other overlaps stores, whether refused, answered, or ended by an exception before or after the user's message: all of it exactly when the newest stored message fits, and nothing otherwise |
| `ChatTurns.IndicesStayContiguous` | api/src/chat/agent.ts:118-121 | after any sequence of turns that do not overlap the stored indices are exactly 0 to n-1 |
| `ChatTurns.AllPersistedIffEarlierFit` | api/src/chat/agent.ts:113-178 | for turns one after the other, nothing is lost exactly when the last text of every turn that another storing turn follows fits the history budget |
| `ChatTurns.StuckForever` | api/src/chat/agent.ts:113-169 | for turns one after the other, once the newest message does not fit every later turn stores nothing |
| `ChatTurns.FitsIff` | api/src/chat/persistence.ts:359-364 | a message fits the history budget exactly up to 92307 words |
| `ChatTurns.ShippedWindow` | api/src/chat/persistence.ts:366-396 | a turn sees the newest rows, at most 20 of them and 120000 tokens, and as many as that allows |
| `ChatTurns.EstimateIs` | api/src/chat/persistence.ts:359-364 | the estimate is the least whole number that is 1.3 times the words or more |
| `ChatTurns.ShippedLimitsSuffice` | api/src/chat/schemas.ts:19-19 | with messages within the request schema and answers of at most 92307 words every turn that no other overlaps is stored |
| `ChatTurns.Conversation.AppendNext` | api/src/chat/persistence.ts:282-306 | on contiguous rows an append works exactly at the end |
| `ChatInterleaving.OpenTurns.Begin` | api/src/chat/agent.ts:113-134 | loading the history of a new turn, with the refusal beyond the quota, as one step of the model |
| `ChatInterleaving.OpenTurns.StoreMessage` | api/src/chat/agent.ts:154-170 | storing the user's message at the index computed when the history was loaded, as one step |
| `ChatInterleaving.OpenTurns.StoreReply` | api/src/chat/agent.ts:321-325 | storing the answer at the next index, as one step |
| `ChatInterleaving.OpenTurns.Abandon` | api/src/chat/agent.ts:190-282 | a turn that throws while it is open stores nothing more |
| `ChatInterleaving.IndicesStayContiguous` | api/src/chat/persistence.ts:63-76 | however the steps of turns interleave, the stored indices are exactly 0 to n-1 |
| `ChatInterleaving.MessageRefusedIff` | api/src/chat/agent.ts:113-170 | a user's message is refused exactly when another row was stored since its turn loaded the history, or the newest row did not fit then |
| `ChatInterleaving.AnswerRefusedIff` | api/src/chat/agent.ts:154-325 | an answer is refused exactly when another row was stored since the message of its turn |
| `ChatInterleaving.RefusalStoredIff` | api/src/chat/agent.ts:114-132 | a refusal beyond the quota is stored at the next index exactly when the newest row fits the history |
| `ChatInterleaving.EndedTurnsStay` | api/src/chat/agent.ts:190-326 | a turn that threw or ended stays so and stores nothing, whatever other turns do |
| `ChatInterleaving.FittingRowsStay` | api/src/chat/agent.ts:113-121 | where every stored text fits, every turn loads the next free index |
| `ChatInterleaving.AnswerIsLost` | api/src/chat/persistence.ts:75-75 | two overlapping turns with texts as short as you like: the first answer is refused |
| `ChatInterleaving.SerialTurns` | api/src/chat/agent.ts:113-325 | turns that do not overlap store what the sequential model says |

## Left out

- Databases, HTTP, Redis, Kafka and calls to the language model: rows and replies are inputs, and the quota
  transaction is one atomic step.
- `fetchGraph` and the `run…` wrappers around the reports: they only pass the loaded graph on.
- The order in which maps and sets are iterated: loops over them take elements in any order, so the results hold for
  every order, and rows that compare equal may come in any order.
- Floating point: scores, weights and delays are real numbers, and numbers in YAML are exact.
- Strings are sequences of Unicode characters, not UTF-16 units; `sort()` on ids compares characters, which differs
  from the source for characters above U+FFFF beside U+E000 to U+FFFF. Lone surrogates do not occur.
- `localeCompare` and betweenness are parameters.
- KeyActivityTheorems.RankingIgnoresOrder: leaves the flag of the critical path open where several longest paths
  compete, because the search keeps the one it meets first; `RowsIgnoreOrder` covers the other graphs.
- `analyzeGraph` and `findCycles` in `api/src/analytics/graph.ts`: library calls, and a deduplication that does not
  merge rotations of a cycle.
- The choice of AI candidates and their attributes: only their CSV export is modelled, with the score given as the
  text it prints as.
- Bullet lists, the title and metadata of the Markdown document, and the formatting of numbers: a number is the text
  it prints as, free of pipes, backslashes and line breaks.
- Retry.WaitForm: negative multipliers have no closed form here; `Retry.WaitsKeepMaximum` and the schedule of
  `Retry.Execute` cover them.
- `URLSearchParams` is a printer and a reader of pairs that are assumed to undo each other, as those of `FormQuery`
  do; `history.replaceState` is the second result of `ParseHash`. Labels and groups of surfaces play no part in
  routing.
- `__proto__` as a key of a YAML mapping or a query parameter, which JavaScript objects treat specially, and the line
  number in the YAML error: the error is the offending line.
- The checks and the CSS output of the token script around its YAML reader.
- Role routing, progress, citations, highlights and token counts of a chat turn, and the creation of conversations;
  the classifier's verdict is part of a reply. The size estimate of a message is an arbitrary function, and the
  source's own only where the shipped limits are at issue. A reply's length in words is bounded by its tokens, each
  word having one at least.
- The metrics of the circuit breaker, which repeat its counters, and the registry of breakers.
- Loops that the source writes in one function are split here into several methods where their proofs are separate,
  and the three Markdown sections with a table share one method.
- React views, the service worker, sessions, permissions and seed scripts.
