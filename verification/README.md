# Verified models of the code graph, session and chat cores

Dafny models of the parts of this repository whose correctness is hardest to see,
with proofs about every input, every run or every reachable state.

- **The code index** (`GraphBuild`, `GraphLaws`, `Incremental*`, `IndexHistory`,
  `IndexLinks`): which nodes and links a build holds, said of the calls and imports of
  the files; the incremental build as a fast form of the full build, what chains of builds keep, and
  exactly which links they hold. Parsing a file, resolving an import, reading path
  aliases and hashing are arbitrary functions
  (`Indexer`); `IndexerOk` says what is asked of them: symbols carry the path of their
  file, ids are unique in a file and tell the file they belong to, callers belong to
  the file, and hashes do not collide.
- **The index store** (`IndexStore`, `IndexProtocol`, `IndexHazards`, `IndexOverlap`):
  each committed statement, each query and each lock operation is one step of a state
  machine in which a build may crash anywhere. The protocol is proved for any notion of
  a build (`Rules`), of which the incremental one is an instance. Three assumptions
  stand in `IndexProtocol.Enabled`: a request does not rebuild the published sha, the
  files of a request have distinct paths, and a lock expires only when no live build
  works under it. `IndexHazards` says what happens without the first and `IndexOverlap`
  what happens without the last.
- **Refresh tokens** (`RefreshSessions`, `RefreshRotation`): the repository and the
  service as objects over a table, and all interleavings of their statements as a state
  machine. Uuids are fresh; a signed token stands for its hash.
- **Graphs and trees**: cycle rejection by depth-first search (`Requirements`),
  breadth-first distances (`Walks`, `Distances`, `Neighborhood`), the greedy cut of the
  directory tree into components and what each component owns (`ComponentCut`,
  `ComponentSelection`, `Candidates`, `Matching`), the join behind component
  dependencies and the impact of a change (`Dependenc*`, `JoinCounts`, `Impact*`),
  and the directory overview with its drill-down (`DirectoryTree`, `Drilldown*`).
- **Printers and parsers**: server-sent events over arbitrary chunks (`SseStream`; a
  subset of sections 9.2.5 and 9.2.6 of the WHATWG HTML Standard), the scanners for the
  first argument of a call (`CallScanner`, `CallArguments`), the normal form of routes
  (`Route*`) and the matching of endpoints before and after a change (`Contract*`).
- **The chat loop** (`ChatLoop`, `ChatLaws`), its citations (`ChatCitations`,
  `CitationLaws`) and the context budget (`Budget`). The model and the tools are
  arbitrary functions of the moment and of what they are given.

Code that works step by step is modelled by methods and classes, each proved against a
function or a predicate; the laws are lemmas about those.

## Where the code falls short of what is said of it

Each of these is stated as an if-and-only-if, or with a concrete input.

- The incremental build is documented to keep cross-file links
  (apps/ai-api/app/code_graph/incremental.py:35-40). It keeps those of changed files
  into unchanged ones. An unchanged caller of a file that changed keeps an edge to an id
  that may no longer exist, because ids contain the position of the symbol; the store
  then drops the edge. `IncrementalTheorems.IncrementalIsFull`,
  `IncrementalLimits.MovedCalleeIsLost`.
- The previous graph is documented to stay readable during a write
  (apps/ai-api/app/code_graph/cache.py:82-85). That holds unless the sha being written is
  the published one: the first statement clears it. `IndexHazards.ReadableThroughout`.
- The lock serialises the builds of a repository so that the clean-up of one does not
  erase what another has written (apps/ai-api/app/code_graph/cache.py:36-43), but it may
  expire under a slow build and is released by whoever finishes. A second build inside
  the first then leaves a whole index only at some points: with another sha, before the
  first has written anything or after it has dropped the last old rows; with the same
  sha (a retry), before the first clears its target or after it has moved the pointer,
  or where the two happen to write the same. In between, a look-up can find nothing, the
  published graph is erased, or the rows of both builds stand side by side.
  `IndexOverlap.OverlapOutcome`, `IndexOverlap.OverlapIsHarmless`,
  `IndexOverlap.OverlapLosesIndex`.
- Replaying a token is meant to end its family. A session that is being issued at that
  moment is inserted after the revocation and lives on.
  `RefreshRotation.RevocationIsFinal`.
- The address of a server before a path is meant not to matter for its normal form. The
  library cuts the query off before template expressions are replaced, so it does where
  an expression begins before the query and ends in it. `RouteExact.HostIgnored`,
  `RouteStraddling.HostIgnoredExactly`, `RouteExact.StraddlingMatters`.
- Normalising a route twice is not always normalising it once: stripping happens before
  the query is cut. `RouteLaws.KeptExactly`, `RouteStyles.QuoteBeforeQuery`.
- The drill-down recognises file nodes by a suffix of their id. A directory whose name
  ends with it is shown wrongly or not at all, and some symbol can then not be reached.
  `DrilldownLaws.ExpansionAgreesExactly`, `DrilldownChains.DrilldownIsExact`,
  `DrilldownChains.TaggedExample`.
- Component candidates are chosen by directory and counted by path. The two agree unless
  a file path is itself a chosen prefix or a directory is called `(root)`.
  `Candidates.CountsAgreeExactly`.

## Model

| member | source | states |
|---|---|---|
| GraphBuild.BuildGraph | apps/ai-api/app/code_graph/graph.py:23-72 | the dictionary of nodes, and each edge as often as it is made: by a symbol of a file, by an import that resolves, by a call whose name means the target - the only symbol so called in a file the caller's file imports, or the only one at all where no imported file has any - as one and the same list as `GraphOf` |
| GraphBuild.DefinePass | apps/ai-api/app/code_graph/graph.py:46-54 | the dictionary of nodes, the `defines` edges and the name index after all files, from the reused symbols on |
| GraphBuild.ImportPass | apps/ai-api/app/code_graph/graph.py:56-64 | one `imports` edge per import that resolves, counted import by import, and per file the set of its targets |
| GraphBuild.ReferencePass | apps/ai-api/app/code_graph/graph.py:66-72 | adds one `references` edge for each call, from its caller (the file where it has none or an empty one) to the only symbol so called in an imported file, or to the only one at all where no imported file has any; the edges of this kind are counted call by call |
| GraphBuild.DetectTestEdges | apps/ai-api/app/code_graph/graph.py:91-103 | the edges, followed by a `tests` copy of each `references` or `imports` edge that leaves a test file |
| GraphBuild.GroupedCandidates | apps/ai-api/app/code_graph/graph.py:75-82 | looking a name up in the name index finds the same candidates, in the same order, as filtering all symbols by name |
| GraphLaws.NodesAreSymbols | apps/ai-api/app/code_graph/graph.py:37-51 | the nodes of a full build are the symbols of the files that parse and a node per file, with distinct ids |
| GraphLaws.CallsAreLinked | apps/ai-api/app/code_graph/graph.py:63-88 | a full build holds a `references` edge once for each call of its file that goes from its caller, or the file, to what the name denotes: the only node so called, no file, in a file that an import leads to, or, where no import leads to one, the only one among all nodes |
| GraphLaws.ImportsAreLinked | apps/ai-api/app/code_graph/graph.py:53-61 | an `imports` edge once for each import of its file that leads to the target among the files that parse |
| GraphLaws.SymbolsAreDefined | apps/ai-api/app/code_graph/graph.py:45-51 | a `defines` edge once for each symbol of a file that parses, from the file, and no other |
| GraphLaws.TestsAreMarked | apps/ai-api/app/code_graph/graph.py:91-103 | as many `tests` edges as `references` and `imports` edges between the same two, where the first lies in a file whose path marks a test, and none elsewhere |
| Incremental.SelectFiles | apps/ai-api/app/code_graph/incremental.py:46-48 | the files as they came up to the cap; above it exactly as many as the cap, in the order of their paths, with no path behind one that is left out |
| Incremental.MergeReusedEdges | apps/ai-api/app/code_graph/incremental.py:101-114 | appends exactly the old edges that are not `tests` edges and leave an unchanged file, in their order |
| Incremental.BuildIncremental | apps/ai-api/app/code_graph/incremental.py:32-98 | the imperative build computes `IncrementalGraph` of the old graph and the selected files |
| Incremental.DetectChanged | apps/ai-api/app/code_graph/incremental.py:65-74 | in order, exactly the files that are new, have another hash than before, or held a method without a parent |
| IncrementalNodes.NodesAgree | apps/ai-api/app/code_graph/incremental.py:65-98 | over any index that holds exactly the nodes of some files, the incremental build of other files holds exactly the nodes of a full build of those |
| IncrementalNodes.UnchangedSource | apps/ai-api/app/code_graph/incremental.py:65-76 | a file taken as unchanged is one of the files the index was built from, and parses |
| IncrementalEdges.FreshScopeAgrees | apps/ai-api/app/code_graph/graph.py:38-54 | names and paths known when only changed files are parsed are those of a full build of all files |
| IncrementalEdges.ChangedFileEdges | apps/ai-api/app/code_graph/incremental.py:84-93 | the edges that leave a changed file are, with their multiplicity, those of the full build |
| IncrementalEdges.UnchangedFileEdges | apps/ai-api/app/code_graph/incremental.py:101-114 | the edges that leave an unchanged file are, with their multiplicity, those of the old graph |
| IncrementalTheorems.UnchangedExactly | apps/ai-api/app/code_graph/incremental.py:65-76 | a file is reused if and only if it was indexed with the same content, parses, and has no method without a parent |
| IncrementalTheorems.IncrementalIsFull | apps/ai-api/app/code_graph/incremental.py:32-98 | the incremental build equals the full one (nodes and edges as bags) if and only if the imports and calls of every reused file resolve to the same targets before and after |
| IncrementalTheorems.ReindexIsIdentity | apps/ai-api/app/code_graph/incremental.py:32-98 | indexing the same files again gives the same graph |
| IncrementalTheorems.UntouchedNamesSuffice | apps/ai-api/app/code_graph/incremental.py:32-98 | the builds agree when the known paths, the aliases and the candidates of every name the reused files call are the same |
| IncrementalTheorems.FinishedCount | apps/ai-api/app/code_graph/graph.py:91-103 | detecting test edges adds exactly one `tests` edge per `references` or `imports` edge of a test file and keeps every other count |
| IncrementalLimits.FirstBuildIsFull | apps/ai-api/app/code_graph/incremental.py:32-98 | the first build of an empty index stores the full build, and reading it back loses no edge |
| IncrementalLimits.FullClosed | apps/ai-api/app/code_graph/graph.py:23-72 | every edge of a full build has both ends among its nodes |
| IncrementalLimits.SelectionIsDeterministic | apps/ai-api/app/code_graph/incremental.py:42-48 | the capped selection does not depend on the order of the files and takes the smallest paths |
| IncrementalLimits.LinkLost | apps/ai-api/app/code_graph/incremental.py:101-114 | one reused file with a link that has moved is enough for the incremental build to differ from the full one |
| IncrementalLimits.MovedCalleeIsLost | apps/ai-api/app/code_graph/incremental.py:101-114 | a concrete repository in which a callee moves and its unchanged caller keeps an edge to the old id: its first build is read back, and whatever it is read back as, the second build differs from the full one |
| IndexHistory.BuildStep | apps/ai-api/app/code_graph/cache.py:261-302 | storing an incremental build and looking it up keeps the index invariant: exact nodes, exact `defines` edges, closed edges, exact `tests` edges |
| IndexHistory.ChainKeepsIndex | apps/ai-api/app/code_graph/cache.py:261-302 | after any number of builds and look-ups the nodes are those of a full build of the last files, every edge has both ends, and `tests` edges have not multiplied |
| IndexLinks.LinksAreFound | apps/ai-api/app/code_graph/incremental.py:101-114 | after any chain of builds a link is stored if and only if the last build that parsed the file it leaves found it and both its ends have been symbols of every build since; then it is stored as often as that build found it |
| IndexLinks.ChainIsFull | apps/ai-api/app/code_graph/incremental.py:32-114 | after any chain of builds the index equals the full build of the last files if and only if every link is found now as often as when its file was last parsed |
| IndexStore.IndexCache.BuildAndStore | apps/ai-api/app/code_graph/cache.py:81-212 | runs the statements in their order: clear the target, write it, move the pointer, drop other shas |
| IndexStore.IndexCache.AcquireLock | apps/ai-api/app/code_graph/cache.py:455-459 | takes the key only when it is free |
| IndexStore.IndexCache.LookUp | apps/ai-api/app/code_graph/cache.py:261-302 | a graph of the rows of the sha, None when there is no symbol row |
| IndexStore.WrittenGraph | apps/ai-api/app/code_graph/cache.py:138-184 | writing kind by kind leaves the nodes, the endpoints and exactly the edges with both ends, each as often as listed |
| IndexStore.WrittenReadsBack | apps/ai-api/app/code_graph/cache.py:261-302 | in whatever order the rows come back, a look-up of a complete write returns the graph that was written |
| IndexProtocol.StepKeepsInv | apps/ai-api/app/api/routes/index.py:70-95 | every lock operation, query, statement, failure and crash keeps the protocol invariant |
| IndexProtocol.ReachableInv | apps/ai-api/app/api/routes/index.py:70-95 | the invariant holds in every state reachable from an empty store |
| IndexProtocol.PublishedIndexIsWhole | apps/ai-api/app/code_graph/cache.py:81-212 | in every reachable state the rows at the published sha are exactly the graph of the last build that moved the pointer - symbols, endpoints, and each edge between two of its symbols as often as listed - and that graph is its incremental build over an outcome of the builds before |
| IndexProtocol.PublishedLookUp | apps/ai-api/app/code_graph/cache.py:214-302 | a look-up of the published sha reads that graph back, endpoints included: an outcome of the chain of published builds, with the exact nodes of the last one's files |
| IndexProtocol.FinishedBuildIsAlone | apps/ai-api/app/code_graph/cache.py:187-212 | when a build has run all its statements the pointer is on its sha, the rows there are a complete write of its graph and read back as it, and no row of the repository is left at another sha |
| IndexProtocol.BuildersExclude | apps/ai-api/app/api/routes/index.py:74-94 | two live builds never work on one repository, and each holds its lock |
| IndexProtocol.WriteBeforeTurn | apps/ai-api/app/code_graph/cache.py:130-184 | a statement before the pointer moves keeps the invariant and leaves every pointer and every row behind one as they are |
| IndexProtocol.WriteTurn | apps/ai-api/app/code_graph/cache.py:187-195 | the pointer moves to rows that are a complete write of the graph; no row changes, and nothing published of any other repository |
| IndexProtocol.WriteAfterTurn | apps/ai-api/app/code_graph/cache.py:197-212 | dropping old shas keeps the invariant and leaves every pointer and every row behind one as they are |
| IndexHazards.BuildAlone | apps/ai-api/app/code_graph/cache.py:81-212 | an undisturbed build stores its graph, points to it, leaves no other sha and touches no other repository |
| IndexHazards.ReadableThroughout | apps/ai-api/app/code_graph/cache.py:82-85 | the published graph stays untouched at every step of a build if and only if the build targets another sha |
| IndexOverlap.OverlapOutcome | apps/ai-api/app/code_graph/cache.py:453-462 | a second build between any two statements of a first one, with the same sha or another: the final pointer, the rows behind it, and no row at any other sha |
| IndexOverlap.OverlapIsHarmless | apps/ai-api/app/code_graph/cache.py:453-462 | the published rows are then a complete write of a graph built for their sha if and only if the first build had written nothing yet, or what it still drops or adds is nothing (cases by position, for both kinds of sha) |
| IndexOverlap.OverlapLosesIndex | apps/ai-api/app/code_graph/cache.py:453-462 | for graphs with symbols: a look-up finds nothing exactly when the shas differ and the second build comes after the first has written its symbols and before it drops old ones; a retry of the same sha after the first clear holds the symbols of both |
| RefreshSessions.RefreshSessionRepository.ConsumeSession | apps/backend/src/modules/auth/refresh-session.repository.ts:97-107 | compare-and-set: one row that is neither consumed, revoked nor expired becomes consumed, all other rows stay |
| RefreshSessions.RefreshSessionRepository.RevokeByFamily | apps/backend/src/modules/auth/refresh-session.repository.ts:109-122 | exactly the rows of the family that were not revoked get the time and the reason, every other row and every key stays, none is left open, and the number of rows changed is returned |
| RefreshSessions.RefreshSessionRepository.RevokeAllForUser | apps/backend/src/modules/auth/refresh-session.repository.ts:124-137 | the same for the rows of a user |
| RefreshSessions.RefreshSessionRepository.DeleteExpiredSessions | apps/backend/src/modules/auth/refresh-session.repository.ts:139-147 | exactly the rows of the user that expired more than thirty days ago go, the others stay as they are, and no session that could be consumed is lost |
| RefreshSessions.RevokedForGood | apps/backend/src/modules/auth/refresh-session.repository.ts:97-122 | no session of a revoked family can be consumed at any later time, and revoking again keeps the first time and reason |
| RefreshSessions.AuthService.ConsumeRefreshToken | apps/backend/src/modules/auth/auth.service.ts:121-182 | for every token: unknown, of another user, consumed, revoked, lost to another request, or of a user that is missing or inactive, it is refused, the family of the row found (of the token, if unknown) is left without an open row, each of its open rows with the reason of that case, and every other row stays; otherwise exactly its row is consumed and its family goes on |
| RefreshSessions.AuthService.LogoutSession | apps/backend/src/modules/auth/auth.service.ts:198-201 | revokes the family if there is one, otherwise everything of the user |
| RefreshRotation.StepKeepsInv | apps/backend/src/modules/auth/auth.service.ts:112-182 | every interleaved step of logins, refreshes, logouts and deletions keeps the rotation invariant |
| RefreshRotation.RotationIsLinear | apps/backend/src/modules/auth/auth.service.ts:112-182 | in every run each family has at most one live session, issuances in flight counted, and no token is exchanged twice |
| RefreshRotation.DeadFamilyStaysDead | apps/backend/src/modules/auth/auth.service.ts:139-182 | a family with no live session and no issuance in flight never gets one again, and none of its tokens is accepted |
| RefreshRotation.ReplayIsCaught | apps/backend/src/modules/auth/auth.service.ts:139-165 | presenting a token that was exchanged: whatever happened before and whatever others do in between, the request revokes that family, none of its sessions is open afterwards, and it is over for good unless an issuance is in flight |
| RefreshRotation.AloneIsServed | apps/backend/src/modules/auth/auth.service.ts:121-182 | a request whose steps nothing interleaves with leaves the table, and goes on or not, exactly as the contract of `AuthService.ConsumeRefreshToken` says: the protocol and the method are one |
| RefreshRotation.RevocationIsFinal | apps/backend/src/modules/auth/refresh-session.repository.ts:109-122 | revoking a family leaves a run in which another of its tokens is exchanged if and only if an issuance is in flight at that moment |
| RefreshRotation.BothHappen | apps/backend/src/modules/auth/auth.service.ts:112-135 | a login is such an issuance in flight, and once it has issued there is none: both sides of the condition are reached |
| Requirements.CheckDependencies | apps/ai-api/app/chat/requirements.py:46-66 | terminates, and accepts exactly the proposals with distinct keys, none `feature`, no unknown dependency and no cycle; an accepted one has an order of work |
| Requirements.DependencyCheck.Visit | apps/ai-api/app/chat/requirements.py:53-62 | a finished visit leaves the key and everything it depends on finished, and a failed one means an unknown key or a cycle |
| Requirements.ScheduledIsSound | apps/ai-api/app/chat/requirements.py:46-66 | tasks that can be put in an order of work have neither unknown dependencies nor cycles |
| Distances.Distances | apps/ai-api/app/code_graph/snapshot.py:40-57 | maps exactly the symbols some chain of `references` edges leads to from a changed one, reversed on request, each to the length of a shortest chain |
| Walks.BallIsWalks | apps/ai-api/app/code_graph/snapshot.py:40-57 | what lies within n steps is what some walk of at most n steps reaches |
| Walks.BallDistance | apps/ai-api/app/code_graph/snapshot.py:40-57 | the distance of a symbol is the first ball that contains it |
| Neighborhood.SymbolsAround | apps/ai-api/app/code_graph/viz.py:167-192 | shows exactly the symbols within `depth` undirected hops of the focus and the edges between them; nothing for an unknown id |
| Neighborhood.ShownWithinDepth | apps/ai-api/app/code_graph/viz.py:167-192 | a symbol is shown if and only if some undirected walk of at most `depth` edges joins it to the focus |
| Neighborhood.ShownExactly | apps/ai-api/app/code_graph/viz.py:175-191 | the same along paths of edges, and for edges: each is shown as often as it is stored if both its ends are that near, and else not |
| Neighborhood.NeighborWalk | apps/ai-api/app/chat/tools.py:259-289 | lists every known symbol, no file, that some path of at most `depth` steps over such symbols leads to, once, with the length of a shortest path, and as a callee or caller of a symbol one step nearer according to the direction of an edge |
| Paths.StepTowards | apps/ai-api/app/code_graph/viz.py:27-29 | the directory one level below another on the way to a third, whose parent is the upper one |
| Paths.DirectoryExact | apps/ai-api/app/code_graph/viz.py:22-24 | a path is its directory, a slash and a name; without a slash it lies at the root |
| Sorting.SortSorts | apps/ai-api/app/architecture/matching.py:31-32 | sorting by any total order leaves the list sorted |
| Sorting.SortStable | apps/ai-api/app/architecture/matching.py:31-32 | elements that tie keep the order they had |
| Matching.OwnerIsFirstLongest | apps/ai-api/app/architecture/matching.py:34-38 | the first match in the sorted list is a component with a longest matching prefix, the first one listed of equally long ones; none is found only where none matches |
| Matching.OwnerIsLongest | apps/ai-api/app/architecture/matching.py:17-38 | said of all components: the owner found has a longest prefix of those that cover the path - the empty one, `(root)` for a path without a slash, the path itself or a beginning of it that a slash follows |
| Matching.ComponentIndex.Resolve | apps/ai-api/app/architecture/matching.py:26-38 | the index built from the components finds that owner |
| ComponentSelection.OwnCounts | apps/ai-api/app/architecture/candidates.py:18-23 | the number of symbols directly in each directory |
| ComponentSelection.ExpandDirectories | apps/ai-api/app/architecture/candidates.py:36-45 | all directories above the given ones |
| ComponentSelection.ChildrenMap | apps/ai-api/app/architecture/candidates.py:26-33 | for each directory exactly the directories whose parent it is |
| ComponentSelection.SubtreeCounter.Subtree | apps/ai-api/app/architecture/candidates.py:58-62 | the memoised recursion returns the number of symbols in the directory or anywhere below it |
| ComponentSelection.SelectCut | apps/ai-api/app/architecture/candidates.py:48-86 | the loop ends with the greedy cut: always the heaviest splittable directory, ties broken by name |
| ComponentSelection.SelectPrefixes | apps/ai-api/app/architecture/candidates.py:48-86 | the cut in sorted order without repetition |
| ComponentCut.FinalCutOk | apps/ai-api/app/architecture/candidates.py:64-86 | the cut covers the tree: children of a split directory are in it, a split one is kept exactly if it has symbols of its own, and it is full or nothing can be split |
| ComponentCut.FinalCutIsGreedy | apps/ai-api/app/architecture/candidates.py:64-86 | the cut is reached from the top-level directories by splits, each of a directory with the most symbols of those that can be split (the last by name of several), whose subdirectories take its place, beside it if it has symbols of its own; the splits end when there are enough components or none can be split |
| ComponentCut.OwnershipExact | apps/ai-api/app/architecture/candidates.py:117-139 | a prefix that was not split owns its whole subtree, a split prefix that was kept owns exactly its direct symbols |
| ComponentCut.OwnerOf | apps/ai-api/app/architecture/candidates.py:117-139 | every symbol has an owner |
| Candidates.CountSymbols | apps/ai-api/app/architecture/candidates.py:117-135 | for each prefix of the cut the number of symbols whose path the index resolves to it, the sum being the number of symbols with an owner, and the owner of each |
| Candidates.CountsAgreeExactly | apps/ai-api/app/architecture/candidates.py:48-135 | every symbol is counted where its directory belongs if and only if every path is settled: not itself a prefix, nor below a directory called `(root)` (at the top: not a prefix that goes before `(root)`); then each prefix counts exactly its share of the tree, and all symbols are counted |
| Candidates.OwnerAgreesExactly | apps/ai-api/app/architecture/matching.py:17-38 | for every symbol: its path and its directory lead to the same component if and only if its path is settled |
| Candidates.CountEdges | apps/ai-api/app/architecture/candidates.py:141-154 | the internal edges of a prefix are those between two of its symbols, the outgoing and incoming ones those with just the one end in it and an owner at the other |
| Candidates.EdgesConserved | apps/ai-api/app/architecture/candidates.py:141-154 | every edge between owned symbols is internal once, or outgoing once and incoming once |
| DependencySummary.AddToCounts | apps/ai-api/app/architecture/dependencies.py:74-87 | one more entry raises the count of its key by one and of no other, and adds its evidence unless there are eight pieces |
| DependencySummary.SummaryExact | apps/ai-api/app/architecture/dependencies.py:70-98 | one dependency per key that occurs, counting its entries, with the evidence of the first eight: min(count, 8) |
| DependencySummary.DependencyAccumulator.Result | apps/ai-api/app/architecture/dependencies.py:89-98 | the dependencies sorted by falling count, then source, target and kind, none lost |
| Dependencies.HashJoinIsNestedLoop | apps/ai-api/app/architecture/dependencies.py:147-185 | the join over the provider index finds the entries of a nested loop over equal method and route, in its order |
| Dependencies.BuildDependencies | apps/ai-api/app/architecture/dependencies.py:101-185 | one dependency for each source, target and kind that edges or calls go from and to, with their number and the first eight of them as evidence: an edge of the kind from a symbol owned by the source to one owned by the target, or a consumer and a provider that agree in method and route, evidence in that direction; by falling count, then source, target and kind |
| Dependencies.EntriesAreLinks | apps/ai-api/app/architecture/dependencies.py:119-185 | what is registered under a key is, in order, the evidence of the edges and calls that go from its source to its target |
| Dependencies.IndexProviders | apps/ai-api/app/architecture/dependencies.py:147-156 | for every method and route exactly its providers, in order |
| JoinCounts.HttpCountIsPairs | apps/ai-api/app/architecture/dependencies.py:147-185 | between two components the `http` dependency counts the (consumer, provider) pairs with equal method and route owned by them, and is listed when there is one |
| JoinCounts.NoSelfDependency | apps/ai-api/app/architecture/dependencies.py:132-134 | no component depends on itself |
| Impact.TouchComponents | apps/ai-api/app/architecture/impact.py:31-42 | touched are exactly the owners of changed files, each with its changed paths once; unmapped are the files without owner |
| Impact.ListSymbols | apps/ai-api/app/architecture/impact.py:44-66 | for every touched component the first ten of its symbols in changed files, repository by repository in the order the files name them |
| Impact.BuildImpact | apps/ai-api/app/architecture/impact.py:18-120 | touched: exactly the owners of changed files in order of their ids, with those files and the first ten of their symbols there; reached: what the dependencies register, most dependencies first, then by the names of component and neighbour; exactly the files without owner and the repositories without index |
| ImpactLaws.ReachedIsOutside | apps/ai-api/app/architecture/impact.py:87-105 | no reached component is touched, and each is reached through a touched one |
| ImpactLaws.ReachedCountsEntries | apps/ai-api/app/architecture/impact.py:68-105 | the reached counts add up to the symbol edges and calls with exactly one touched end, and each count is the number of those between its two components in its direction |
| ImpactLaws.ReachedKinds | apps/ai-api/app/architecture/impact.py:81-84 | a reached component lists each kind of dependency it is reached by once |
| ImpactLaws.ReachedIsExact | apps/ai-api/app/architecture/impact.py:68-116 | what is returned as reached, said of edges and calls: one item per untouched component, touched neighbour and direction between which there is an edge or a call in that direction, with the number of those and exactly their kinds; none is missing |
| DirectoryTree.SerializeDirectoryTree | apps/ai-api/app/code_graph/viz.py:67-122 | every directory with the size of its subtree, and a node for the files of those that have files and subdirectories |
| DirectoryTree.ExpandModule | apps/ai-api/app/code_graph/viz.py:195-227 | the loops compute `Expanded`: leaf view, or modules and the edges between them |
| DirectoryTree.ExpandNeighborhood | apps/ai-api/app/code_graph/viz.py:152-192 | a focus that names a module node is expanded as that directory, any other shows what lies around that symbol, an unknown one nothing |
| DirectoryTree.JoinBuckets | apps/ai-api/app/code_graph/viz.py:139-148 | exactly the pairs of different buckets joined by an edge of an overview kind |
| DrilldownLaws.BucketIsStep | apps/ai-api/app/code_graph/viz.py:209-218 | the bucket of a symbol is the next directory on the way to it |
| DrilldownLaws.ExpansionAgreesExactly | apps/ai-api/app/code_graph/viz.py:195-227 | expanding a directory with subdirectories shows exactly its children and its own files, with the counts of the overview, if and only if no name that matters ends with the suffix of file nodes |
| DrilldownLaws.OverviewExact | apps/ai-api/app/code_graph/viz.py:67-122 | said of paths: the nodes of the overview are one for each directory some symbol lies in or below, with the number of those symbols, and one for the own files of each directory that has some and has symbols further below, with the number of its own |
| DrilldownLaws.ExpectedInOverview | apps/ai-api/app/code_graph/viz.py:98-120 | all of these are nodes of the overview, with the same counts |
| DrilldownLaws.ExpansionConserves | apps/ai-api/app/code_graph/viz.py:125-149 | the counts an expansion shows add up to the subtree count of the directory |
| DrilldownLaws.EdgesShown | apps/ai-api/app/code_graph/viz.py:125-149 | an agreeable expansion shows an edge of a kind between two different modules if and only if some edge of this kind, no `defines` edge, goes from a symbol in the one to a symbol in the other |
| DrilldownLaws.LeafShown | apps/ai-api/app/code_graph/viz.py:230-246 | a directory without subdirectories and a node for own files show the symbols directly in the directory and the edges between two of them, each as often as stored |
| DrilldownChains.ChainExists | apps/ai-api/app/code_graph/viz.py:195-246 | where no directory name ends with the suffix of file nodes, every symbol is reached by opening one node after the other from a top-level directory |
| DrilldownChains.ChainIsUnique | apps/ai-api/app/code_graph/viz.py:195-246 | there is only one such chain |
| DrilldownChains.DrilldownIsExact | apps/ai-api/app/code_graph/viz.py:195-246 | every symbol is reached in exactly one way if and only if no directory name ends with the suffix of file nodes; otherwise some symbol is not reached at all |
| DrilldownChains.TaggedExample | apps/ai-api/app/code_graph/viz.py:195-227 | a concrete path for which an expansion does not agree and the symbol is reached in no way |
| SseStream.ConsumeSseStream | apps/frontend/src/api/sse.ts:11-37 | the loop over chunks yields the events of the complete frames received and keeps the rest |
| SseStream.FrameExact | apps/frontend/src/api/sse.ts:1-9 | of any frame only the first line that begins with `data:` counts: without the blanks around it, it yields the event it reads as, if that is truthy |
| SseStream.NoDataNoEvent | apps/frontend/src/api/sse.ts:1-3 | a frame without such a line yields nothing |
| SseStream.SplitAppend | apps/frontend/src/api/sse.ts:24-28 | splitting may resume from the unfinished part of the buffer |
| SseStream.RoundTrip | apps/ai-api/app/api/routes/agent.py:53-55 | for any events and any cutting of the written stream, followed by any unfinished frame, the client yields exactly the events, in order |
| SseStream.PrefixSafety | apps/frontend/src/api/sse.ts:11-37 | at every moment what has been yielded is a prefix of what was sent |
| CallScanner.CallBody | apps/ai-api/app/code_graph/http_endpoints.py:101-123 | the text up to the parenthesis that closes the call, all of it if there is none |
| CallScanner.FirstArgument | apps/ai-api/app/code_graph/http_endpoints.py:126-147 | the text up to the first comma outside of strings and brackets |
| CallScanner.QuotedArgument | apps/ai-api/app/code_graph/http_endpoints.py:82-98 | the text between the quotes of a leading string literal |
| CallScanner.CallBodyExact | apps/ai-api/app/code_graph/http_endpoints.py:101-123 | the body of a well-formed call is exactly what stands between its parentheses |
| CallScanner.FirstStringArgument | apps/ai-api/app/code_graph/http_endpoints.py:82-147 | for a call whose first argument starts with a string literal, with any escapes and any balanced text after it, the three scanners return exactly the text between the quotes |
| CallArguments.FirstArgumentExact | apps/ai-api/app/code_graph/http_endpoints.py:126-147 | for any argument - characters, string literals with escapes, balanced brackets of three kinds, commas inside of them: the first argument is all of it, whether a comma follows or not |
| CallArguments.CallEndExact | apps/ai-api/app/code_graph/http_endpoints.py:101-123 | the call ends at the parenthesis that closes it, or with the text |
| CallArguments.OpenLiteralNoText | apps/ai-api/app/code_graph/http_endpoints.py:82-98 | a literal that is not closed has no text |
| CallArguments.NoQuoteNoText | apps/ai-api/app/code_graph/http_endpoints.py:82-85 | an argument that does not begin with a quote has none either |
| RouteLaws.NormalizeShape | apps/ai-api/app/code_graph/http_endpoints.py:14-36 | the normal form of every accepted route starts with a slash, has no doubled slash, no query or fragment, no slash at the end unless it is the root, and no parameter left to rename; which form it is say `RouteExact.SegmentsExact` and the laws below it |
| RouteExact.SegmentsExact | apps/ai-api/app/code_graph/http_endpoints.py:14-36 | a route of any segments - fixed, `:name`, `{name}`, `${expression}` - normalises to the route in which exactly the parameters are `{param}` and every fixed segment is as it was |
| RouteExact.BaseIgnored | apps/ai-api/app/code_graph/http_endpoints.py:23-30 | a base address in front of the path, a template expression with anything up to the first slash, is ignored |
| RouteExact.HostIgnored | apps/ai-api/app/code_graph/http_endpoints.py:19-21 | so is the address of a server, None if the library rejects it, for every path in which no expression begins before the query and ends in it |
| RouteStraddling.HostIgnoredExactly | apps/ai-api/app/code_graph/http_endpoints.py:19-24 | on paths without a colon an accepted address is ignored if and only if no expression does that |
| RouteExact.StraddlingMatters | apps/ai-api/app/code_graph/http_endpoints.py:19-24 | a family of routes for which the address makes a difference: ``/${x?y}`` is `/{param}` alone and `/${x` behind an address |
| RouteExact.QueryIgnored | apps/ai-api/app/code_graph/http_endpoints.py:23-24 | query and fragment are ignored unless an expression reaches into them |
| RouteStraddling.QueryIgnoredExactly | apps/ai-api/app/code_graph/http_endpoints.py:23-24 | behind a path without a colon: if and only if none does |
| RouteExact.SlashIgnored | apps/ai-api/app/code_graph/http_endpoints.py:34-35 | a slash at the end is ignored |
| RouteExact.DoubleIgnored | apps/ai-api/app/code_graph/http_endpoints.py:32 | a doubled slash is ignored |
| RouteExact.SlashAdded | apps/ai-api/app/code_graph/http_endpoints.py:29-30 | a route that begins with neither a slash nor an address is read as if it had the slash |
| RouteExact.LooseEndsIgnored | apps/ai-api/app/code_graph/http_endpoints.py:15 | white space around a route, and quotes inside of it, are ignored |
| RouteExact.NothingIsRoot | apps/ai-api/app/code_graph/http_endpoints.py:15-17 | white space and quotes alone are the root |
| RouteLaws.KeptExactly | apps/ai-api/app/code_graph/http_endpoints.py:14-36 | a normalised route is kept by normalising again if and only if it does not end in white space or a quote and has no template expression |
| RouteLaws.NormalizeIdempotent | apps/ai-api/app/code_graph/http_endpoints.py:14-36 | normalising is idempotent on every route without white space, quotes and dollar signs |
| RouteNormal.PathSubIdempotent | apps/ai-api/app/code_graph/http_endpoints.py:33 | renaming path parameters twice is renaming them once |
| RouteStyles.StylesAgree | apps/ai-api/app/code_graph/http_endpoints.py:10-36 | a route declared with `:name`, declared with `{name}` or called with `${name}` has one normal form, whatever the parameter is called |
| RouteStyles.QuoteBeforeQuery | apps/ai-api/app/code_graph/http_endpoints.py:14-36 | a route that normalising twice changes |
| ContractChanges.ExtractContractChanges | apps/ai-api/app/code_graph/cross_repo_impact.py:50-94 | the changes of every file with a path, sorted by path, type, method and route; changes that tie stay in the order they were found |
| ContractChanges.MatchTouched | apps/ai-api/app/code_graph/cross_repo_impact.py:61-68 | the first pass and what it leaves on both sides; every removal finds its element |
| ContractChanges.MatchModified | apps/ai-api/app/code_graph/cross_repo_impact.py:70-81 | the second pass and what it leaves on both sides |
| ContractLaws.EndpointsConserved | apps/ai-api/app/code_graph/cross_repo_impact.py:50-84 | each old endpoint is in exactly one touched, modified or removed change, each new one in exactly one touched, modified or added one |
| ContractLaws.AllConserved | apps/ai-api/app/code_graph/cross_repo_impact.py:50-94 | over all files and as returned: each endpoint there was is in exactly one change, and each endpoint there is |
| ContractLaws.TouchedExactly | apps/ai-api/app/code_graph/cross_repo_impact.py:61-68 | an identity is touched, once, exactly when it stands once in the new file and at least once in the old one |
| ContractLaws.TouchedPairs | apps/ai-api/app/code_graph/cross_repo_impact.py:61-68 | a touched pair joins the first endpoint of its identity in the old file with the only one in the new file |
| ContractLaws.ModifiedExactly | apps/ai-api/app/code_graph/cross_repo_impact.py:70-81 | a handler is modified, once, exactly when it has a name and one endpoint of it is left on each side |
| ContractLaws.ModifiedPairs | apps/ai-api/app/code_graph/cross_repo_impact.py:70-81 | a modified pair has one role, path and symbol name |
| ContractLaws.UniqueIdentitiesMatch | apps/ai-api/app/code_graph/cross_repo_impact.py:50-84 | with unique identities the touched ones are the intersection, and none is both removed and added |
| ContractExact.TouchedByFields | apps/ai-api/app/code_graph/cross_repo_impact.py:61-68 | said of the fields: a role, method and normalised route is touched, once, if and only if the new file has it once and the old one at least once |
| ContractExact.TouchedJoins | apps/ai-api/app/code_graph/cross_repo_impact.py:61-68 | it joins the first such endpoint of the old file with the one of the new |
| ContractExact.ModifiedByFields | apps/ai-api/app/code_graph/cross_repo_impact.py:70-81 | a role, path and name is modified, once, if and only if there is a name and in each of the two files one endpoint of it is in no touched change |
| ContractExact.ModifiedJoins | apps/ai-api/app/code_graph/cross_repo_impact.py:70-81 | it joins two endpoints with equal role, path and name |
| ChatLoop.Converse | apps/ai-api/app/chat/agent.py:158-358 | the loop over completions and tool calls computes `Iterations` of the model's and the tools' behaviour, of which `ChatLaws.LoopIsSound` says what it means |
| ChatLoop.AnswerCall | apps/ai-api/app/chat/agent.py:234-331 | one message, one record, two events more: a result that fits in 48,000 characters is answered by its own text with its own figures and citations, a failure by its error, one that does not fit, a repeat and a skipped call each by a notice of its own with no items and no citations; everything before stays |
| ChatLaws.LoopIsSound | apps/ai-api/app/chat/agent.py:158-358 | whatever the model and the tools answer: one to nine completions, each asked with all messages so far, all but the last asking for tools, every call answered by one message and one record in order - by what and with which figures as under `AnswerCall` - the record numbered like its reply, the events those of the records, the citations those of the results that fit, and `truncated` exactly after a stop or nine completions |
| ChatLaws.AnswerKeeps | apps/ai-api/app/chat/agent.py:242-297 | the counters decide every call as its history alone does: skip after a stop, repeat if made before, run otherwise |
| ChatLaws.RunsAtMostOnce | apps/ai-api/app/chat/agent.py:242-265 | no tool runs twice with the same arguments |
| ChatLaws.SkippedExactly | apps/ai-api/app/chat/agent.py:247-255 | a call is skipped if and only if an earlier one stopped the loop, so no tool runs after a stop |
| ChatLaws.WithinBudget | apps/ai-api/app/chat/agent.py:268-290 | the accepted results take at most 48,000 characters |
| ChatLaws.SignatureExact | apps/ai-api/app/chat/agent.py:33-34 | calls of tools whose names have no colon count as identical if and only if name and arguments are |
| ChatCitations.ValidateCitations | apps/ai-api/app/chat/agent.py:37-76 | the round robin takes whole rounds and a beginning of the next one, as much as fits or everything |
| CitationLaws.ValidExact | apps/ai-api/app/chat/agent.py:53-63 | the valid citations are known and distinct, and every known one is among them in some copy |
| CitationLaws.ValidNext | apps/ai-api/app/chat/agent.py:53-62 | in the order they were collected: one more is kept, at the end, if and only if a workspace holds its path and its symbol, if it names one, and no kept one agrees with it in repository, path, line and symbol |
| CitationLaws.GroupsInOrder | apps/ai-api/app/chat/agent.py:62 | repositories have their turn in the order in which they were first cited |
| CitationLaws.CitationsAreFair | apps/ai-api/app/chat/agent.py:65-76 | min(12, number of valid) citations; each repository contributes a prefix of its own; one that gets at least two fewer than another has been used up |
| CitationLaws.AnswerCitations | apps/ai-api/app/chat/agent.py:37-76 | the citations of an answer are collected ones some workspace of the repository holds, no two agree in repository, path, line and symbol, and there are min(12, number of different such) of them |
| Budget.Select | apps/ai-api/app/code_graph/budget.py:26-99 | a candidate gets its body if and only if those before it in rank order leave room in the share for bodies and there are not yet twenty, one without a body its signature by the same rule with the other share and fifty; the budget is kept when the changed symbols fit, otherwise only they are given; `truncated` if and only if somebody is left out or comes after the limit |
| Budget.CandidatesAreRanked | apps/ai-api/app/code_graph/budget.py:56-60 | the candidates are the ranked symbols in their order, those known and with the id of no changed symbol |

## Left out

- Parsing with tree-sitter, import resolution and path aliases (apps/ai-api/app/code_graph/indexer.py): functions without a body of their own in the models; `IndexerOk` states what is asked of them.
- Edge weights: every builder writes 1.0.
- IncrementalTheorems.IncrementalIsFull: ids and paths are compared as the code does, but two files in which a module id could equal a symbol id are excluded by `IndexerOk`.
- IndexStore.IndexCache.LookUp: the queries of one look-up see one state of the rows; readers outside the lock, whose queries may straddle a write, are not claimed to see one graph.
- IndexStore.IndexCache.AcquireLock: the key expires in the source; here that is the step `Expire` of `IndexProtocol`, not part of this contract.
- IndexProtocol.PublishedIndexIsWhole: without the assumptions named above it does not hold; `IndexHazards` and `IndexOverlap` give the cases.
- Endpoints in `IndexProtocol`: they are stored, published and dropped with the graph, but no build reads them back, so a build may write any list of them.
- Neo4j, Redis, Postgres, transactions across statements, and the project graph (apps/ai-api/app/code_graph/cache.py:341-450).
- JWT signatures, password hashes and cookies; registration and login checks (apps/backend/src/modules/auth/auth.service.ts:48-110).
- Snapshots beyond distances (apps/ai-api/app/code_graph/snapshot.py:60-362), and of requirement proposals everything but the dependency check.
- Candidates.CountSymbols: evidence, file counts, endpoint counts and the list of candidates itself are not modelled.
- Dependencies.BuildDependencies: the statistics that accompany the dependencies are not modelled.
- Impact.BuildImpact: the counts in the statistics and the rounded coverage ratio are not modelled.
- ContractChanges.ExtractContractChanges: the endpoints of a file's text are an arbitrary function of path and content; the id of a change, a hash of its content, is not modelled. Resolving impacts across repositories is left out.
- DirectoryTree.SerializeDirectoryTree: labels, file statistics and the small-graph view (apps/ai-api/app/code_graph/viz.py:57-64) are not modelled; a set of nodes is iterated in some order.
- SseStream.RoundTrip: characters, not bytes; JSON text has no raw line break, no blank at either end, reads back, and is an object. An event the client's check takes for empty is not sent by the server.
- RouteNormal.Normalize: which hosts the URL library rejects is a parameter; the rejection is the None result.
- RouteExact.HostIgnored: that the condition is also necessary is stated for paths without a colon (`RouteStraddling.HostIgnoredExactly`); a parameter `:name` may swallow the expression and with it the difference.
- RouteExact.QueryIgnored: the same holds of a query (`RouteStraddling.QueryIgnoredExactly`).
- RouteExact.SlashAdded: for routes without a dollar sign that do not begin with `{param}`; with a base address in front, `RouteExact.BaseIgnored` says what is ignored.
- CallScanner.FirstStringArgument: which calls the extractors look at (regular expressions over the text) is left out.
- GraphBuild.IsTestPath: lower-casing is that of ASCII letters.
- ChatLoop.Converse: token counts, costs, durations, token events and the proposal added at the end are not modelled; notes are English renderings of the Portuguese ones; a cancelled request is not modelled.
- ChatCitations.ValidateCitations: adding the sha of the workspace to each citation is left out.
- Budget.Select: the two fractions of the budget are arbitrary numbers, which covers every rounding.
- Tools other than the neighbour walk, the cache of workspaces, and reading of files (apps/ai-api/app/chat/tools.py).
- PageRank, the review graph, findings, queues, usage accounting, React pages and Nest modules.
