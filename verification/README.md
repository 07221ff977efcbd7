# PBR, modelled and proved in Dafny

PBR is a Buf-compatible registry of Protocol Buffers modules. This project models the parts of it that
carry state or meaning, in the form the Go source has, and proves what they promise:

- **Dependency graphs** (`Graph`, `GraphTheorems`, `GraphConflicts`, `GraphReads`, `GraphRuns`, `Resolvers`,
  `ResolverV1Beta1`, `ResolverV1`, `ResolverAgreement`). The recursive walk with newest-wins conflict handling and
  edge redirection is specified once, as a function on commit ids. Both resolvers of the source are classes that
  update their selection map, commit list and edge list in place, and each is proved to refine that function; the
  theorems about the resolved graph are about the function, and every finite dependency relation on older
  commits arises in some run of uploads.
- **The content-addressed store** (`Buckets`, `Docstore`, `StoreInvariant`, `Uploads`, `UploadTheorems`,
  `ListedBlobs`, `Commits`, `PushExamples`, `SoloStarts`, `SoloUploads`, `SoloRuns`, `RegistryObject`). `Uploads` is a
  state machine in which each store operation of an upload is one step, so that any number of uploads interleave and
  may stop anywhere. `RegistryObject` is the registry as an object whose methods change the stores, proved against the
  relation in `Commits`. `SoloStarts`, `SoloUploads` and `SoloRuns` prove that an undisturbed upload of the machine
  does exactly what that relation says, from its first step to its last.
- **Canonical encodings and digests** (`Ordering`, `Digests`, `Lines`, `Manifests`, `Merkle`, `Forgeries`,
  `Retrieval`). The hash is a parameter of every theorem. Because two strings with the same 64-byte hash always exist,
  a theorem that needs more never assumes that hashes are injective: it concludes "or here are two different strings,
  both of them really hashed or stored, with the same hash" (`Digests.Collision`).
- **Listing and login tokens** (`Listing`, `ListingRuns`, `Tokens`, `TokenRenewal`, `TokensInFlight`, `AuthService`).
  Pages are followed while commits are created in between; the token tables are a machine of separately locked steps
  with a clock, and an object.

## What the proofs found

- A file path with a newline makes a manifest that reads back with an entry nobody uploaded
  (`Manifests.NewlineForgesEntry`); a path with a trailing carriage return, or one that makes its line
  longer than the scanner's limit, is not read back either. The round trips hold exactly without these.
- With a version conflict the resolved graph can have a cycle, although the stored dependency relation is
  acyclic (`GraphConflicts.ConflictMakesCycle`); it has one exactly when winning commits that were expanded need
  each other in a circle (`CyclicExactly`), and never when the modules themselves do not (`AcyclicModules`). A run of
  three uploads gives such a graph (`GraphRuns.CycleArises`).
- A newer version of a module that was already expanded is listed but not expanded; the comment at
  internal/service/graph.go:248-250 says otherwise, and the model follows the code at line 251. The answer then
  lacks that version's dependencies and has edges from the superseded one
  (`GraphConflicts.ConflictLosesDependency`; exactly when: `DependenciesLost`, `EdgesStartListed`).
- docs/architecture.md:117 says that the graph is built from buf.lock files; the code reads the stored
  dependency ids, and so does the model. docs/hashing.md:241-248 restricts the B5 digest to some files;
  the code hashes every uploaded file, and so does the model.
- A label with an empty name is stored but cannot be resolved, because the empty reference stands for the
  default label (`PushExamples.EmptyLabelUnresolved`; exactly when: `Commits.GivenLabelsResolve`).
- The lookup for files that were pushed before goes over all modules and checks the module afterwards, so a
  re-push is sure to reuse a commit only if no other module holds the same files
  (`PushExamples.SecondCopyOfSameFiles`; exactly when: `Commits.ReuseIsCertain`).
- That lookup ignores dependencies: the same files pushed with other dependencies answer with the old commit, whose
  dependencies and digest are the old ones (`PushExamples.UpdatedDependencyIgnored`; exactly when:
  `Commits.AnswerCarriesDeps`, `Commits.AnswerCarriesDigest`).
- A request that looked its token up before a re-login may be accepted after it, even one whose entry had expired by
  then, if another request is about to renew that entry (exactly which: `TokensInFlight.InFlightExactly`).
- Commit ids are minted and stored in two steps, so a commit can be stored below a page token that was given out
  before. A listing then also returns that commit (exactly when: `ListingRuns.ListingDuringUploads`); it is still
  complete and ends.
- A request that found a token expired may delete it after another one has renewed it
  (`TokenRenewal.RenewedThenDeleted`; exactly when: `TokenRenewal.ActivityKeepsAlive`).
- A manifest is not told apart from one whose last two entries are written as a single path with a newline
  (`Forgeries.JoinedManifest`). So every tree with two or more files in some module, newlines or not, has a different
  tree with the same B5 digest, without any hash collision (`Forgeries.TwinTree`); exactly which trees a digest commits
  to is `Forgeries.CommittedExactly`. Among trees without newlines in their paths it commits to each
  (`Merkle.MerkleCommitment`).
- For the same reason a stored manifest can list a blob that is not stored; exactly for which uploads:
  `ListedBlobs.ListedExactly`, and over all runs `ListedBlobs.ListedInRuns`.

## Assumptions

- Commit ids are numbers: the UUIDs of version 7 (section 5.7 of RFC 9562) are written as 32 lower-case hex
  digits, whose string order is the order of the numbers. A new id is larger than all ids minted before.
- A character is one byte, so string comparison is byte comparison.
- The functions that give owner and module ids are parameters; where two names collide, the model does what
  the code does (the second module cannot be created). Module ids have 32 characters.
- The resolvers read one state of the stores. `GraphReads.ReadsOfRun` lets every lookup of the specified walk see
  another, later state of a run of uploads, and proves that the answer is the same.
- A page of a listing reads one state of the commit table; what happens between pages is in `Listing` and
  `ListingRuns`.
- A generated login token differs from every token configured or generated before.
- Owner names without a slash are a premise where it matters, and only there (`Resolvers.KeyInjective`).

## Model

| member | source | states |
|---|---|---|
| `Graph.AbsorbConsistent` | internal/service/graph.go:198-246 | One dependency: after select, replace, redirect and append, selected and listed commits are still the same, one per module; the i-th edge leads from an expanded commit to the selected commit of the module that the i-th stored dependency met names; no selection, position or edge went backwards. |
| `Graph.AppendFollows` | internal/service/graph.go:236-246 | Appending an edge to the commit selected by then keeps what all edges mean, when that commit is no older than the dependency. |
| `Graph.VisitConsistent` | internal/service/graph.go:163-259 | The same holds at the end of every recursive call, on any store, cyclic or not; selections only move to larger ids and every listed position keeps its module. |
| `Graph.VisitOnce` | internal/service/graph.go:163-259 | A call expands the commit it is given and then exactly one commit of each module that it selects for the first time; no module is expanded twice. |
| `Graph.VisitAccounts` | internal/service/graph.go:163-259 | A call meets exactly the locally resolvable dependencies of the commits it expands, each as often as it is stored: none is lost, none is invented. |
| `Graph.VisitFounded` | internal/service/graph.go:163-259 | Every selected commit is a requested one or a dependency that was met, and can be reached from the requested commits over stored dependencies. |
| `Graph.ListedOncePerModule` | internal/service/graph.go:45-84 | Requested position i always holds a commit of the module requested there; the result lists each module once if and only if the request named each module once. |
| `Graph.ResolveConsistent` | internal/service/graph.go:24-94 | For distinct requested modules the whole result is determined: list, selection and edges agree, every selected module is expanded exactly once, and the dependencies met are, as a multiset, the stored dependency edges of the expanded commits. |
| `Graph.WalkSize` | internal/service/graph.go:80-84 | The walk expands one commit per listed module, no more than the store has modules, and leaves as many edges as the expanded commits have locally resolvable dependencies. |
| `Graph.NewestWins` | internal/service/graph.go:198-234 | A commit is listed if and only if it is the largest among the commit requested for its module and all dependencies on that module of expanded commits, whatever order they were met in. |
| `Graph.MetMember` | internal/service/graph.go:184-246 | A dependency edge was met if and only if its source was expanded and its target is a locally resolvable stored dependency of that source. |
| `GraphTheorems.ExactWithoutConflict` | internal/service/graph.go:163-259 | Without two reachable versions of one module, the listed commits are exactly the reachable ones, each once, and the edges are exactly their locally resolvable stored dependency edges, with multiplicity. |
| `GraphTheorems.ExactOnlyWithoutConflict` | internal/service/graph.go:198-234 | The listed commits are exactly the reachable ones if and only if no two reachable commits are versions of one module. |
| `GraphTheorems.VisitKeepsOwn` | internal/service/graph.go:198-246 | With older dependencies, while a listed commit is being expanded only selections of older commits change, the commit itself stays listed, and every edge of the whole subtree is appended from a commit that is listed at that moment. |
| `GraphTheorems.ResolveKeepsOwn` | internal/service/graph.go:80-84 | The same for the whole request, requested position by requested position. |
| `GraphConflicts.ExpandedConsidered` | internal/service/graph.go:198-234 | An expanded commit is still listed at the end if and only if no newer version of its module was considered. |
| `GraphConflicts.EdgeMeaning` | internal/service/graph.go:198-246 | With or without conflicts: there is an edge from a to b if and only if a was expanded, b is the newest considered version of its module, and a has a locally resolvable dependency on some version of that module. |
| `GraphConflicts.CyclicExactly` | internal/service/graph.go:198-246 | The resolved graph has a cycle if and only if there is a cyclic sequence of expanded commits, each the newest considered version of a module that the one before it depends on. |
| `GraphConflicts.OnCycleNotSuperseded` | internal/service/graph.go:208-220 | Every commit on such a cycle is listed and was not superseded. |
| `GraphConflicts.AcyclicModules` | internal/service/graph.go:198-246 | Conflicts or not: when no modules below the request, all their reachable versions taken together, depend on each other in a circle, the resolved graph has no cycle. |
| `GraphConflicts.AcyclicLayered` | internal/service/graph.go:198-246 | The same from any ranking of the modules under which reachable dependencies only go down. |
| `GraphConflicts.KeptWhenExpanded` | internal/service/graph.go:251-256 | Each stored dependency of each listed commit has an edge to a listed version of its module if and only if every listed commit with dependencies was expanded. |
| `GraphConflicts.DependenciesLost` | internal/service/graph.go:248-256 | The answer loses dependencies if and only if a winner with dependencies came after an older version of its module had been expanded: the exact case in which the recursion is skipped and something is lost. |
| `GraphConflicts.ListedAllExpanded` | internal/service/graph.go:248-256 | Every listed commit was expanded if and only if no expanded commit was superseded. |
| `GraphConflicts.ConflictLosesDependency` | internal/service/graph.go:248-256 | A concrete graph with older dependencies and a request for two modules: a listed commit depends on a module that is missing from the answer, and an edge starts at a superseded commit that is not listed. |
| `GraphConflicts.EdgeSources` | internal/service/graph.go:236-246 | A commit is the source of an edge if and only if it was expanded and has a locally resolvable dependency. |
| `GraphConflicts.EdgesStartListed` | internal/service/graph.go:215-220 | Only edge targets are redirected: all edges start at listed commits if and only if no expanded commit with dependencies lost to a newer version of its module. |
| `GraphConflicts.ConflictMakesCycle` | internal/service/graph.go:215-220 | A concrete graph with older dependencies and two requested modules for which the resolved graph has a cycle. |
| `GraphRuns.EveryGraphArises` | internal/registry/module.go:184-270 | Every finite dependency relation on older commits, of uploads with different files digests and of modules whose ids do not clash, is the graph of the last state of some run of uploads. |
| `GraphRuns.CycleArises` | internal/service/graph.go:215-220 | In particular a run whose resolved graph has a cycle, whatever three different contents are uploaded. |
| `GraphRuns.LossArises` | internal/service/graph.go:248-256 | ... and a run whose answer lacks a dependency of a listed commit. |
| `Resolvers.LookupDep` | internal/service/graph.go:288-307 | A dependency is reported if and only if its commit and module are known here, with the owner and name of its module and the hex of its files digest. |
| `Resolvers.ResolveDeps` | internal/service/graph.go:286-308 | The reported dependencies are the locally resolvable stored ones, in stored order. |
| `Resolvers.GetStoredDeps` | internal/service/graph.go:271-311 | Fails exactly when the named module or its commit is unknown; otherwise returns the locally resolvable dependencies in stored order. |
| `Resolvers.DepObjectV1Beta1` | internal/service/graph.go:190-196 | Computing owner and module id from names and decoding the printed files digest never fails and gives the commit object that the stored record has. |
| `Resolvers.DepObjectV1` | internal/service/graph_v1.go:240-266 | The lookup of a dependency that getStoredDeps reported cannot fail, so the fallback object with the files digest is never built. |
| `Resolvers.FindRoot` | internal/service/graph.go:97-161 | Finds a root if and only if the reference denotes it: an id denotes that stored commit under its module's names; a label of a named module, the empty one or none standing for main, denotes the commit it leads to; a name that spells the id of one of the module's commits denotes that commit first. |
| `Resolvers.RootResolves` | internal/service/graph.go:97-161 | A reference that resolves gives a stored commit of the named module, under the key owner/name. |
| `Resolvers.KeyInjective` | internal/service/graph.go:188-188 | Two modules share a key only if owner and name agree, when owner names hold no slash. |
| `Resolvers.SlashFreeRootsStay` | internal/service/graph.go:80-84 | With slash-free owner names, the commit found at each requested position when its turn comes is a commit of the module requested there. |
| `ResolverV1Beta1.GraphV1Beta1.ReplaceListed` | internal/service/graph.go:208-214 | (v1beta1) The loop that overwrites the first listed commit with the losing id, in place; nothing changes if it is not listed. |
| `ResolverV1Beta1.GraphV1Beta1.RedirectEdges` | internal/service/graph.go:215-220 | (v1beta1) The loop that redirects, in place, every edge to the loser; sources and all other edges stay. |
| `ResolverV1Beta1.GraphV1Beta1.SelectDep` | internal/service/graph.go:198-234 | (v1beta1) Selection, list and edges after one dependency was entered: new module, newer version, same or older version. |
| `ResolverV1Beta1.GraphV1Beta1.AppendEdge` | internal/service/graph.go:236-246 | (v1beta1) The edge goes to the commit selected for the module by then; where all edges meant what they should before, they do after. |
| `ResolverV1Beta1.GraphV1Beta1.DepObject` | internal/service/graph.go:190-196 | (v1beta1) The commit object built for a dependency carries the ids and the digest that are stored for that commit. |
| `ResolverV1Beta1.GraphV1Beta1.AbsorbDep` | internal/service/graph.go:184-246 | (v1beta1) One round up to the edge refines one step of the specification walk, and tells whether the module was known. |
| `ResolverV1Beta1.GraphV1Beta1.ProcessDep` | internal/service/graph.go:184-257 | (v1beta1) A whole round, with the recursion only for a module not seen before; the recursive call cannot fail. |
| `ResolverV1Beta1.GraphV1Beta1.GetGraphForModule` | internal/service/graph.go:163-259 | (v1beta1) Fails, changing nothing, exactly when the commit is not one of the named module; otherwise turns the object into the state the specification walk gives. Terminates on any store. |
| `ResolverV1Beta1.GraphV1Beta1.EnterRoots` | internal/service/graph.go:45-78 | (v1beta1) The first loop: succeeds if and only if every reference resolves, and then lists them in order, the last one of a module being selected. |
| `ResolverV1Beta1.GraphV1Beta1.GetGraph` | internal/service/graph.go:24-94 | (v1beta1) Succeeds if and only if all references resolve and every requested position still holds a commit of its module when its turn comes; then list, selection and edges are those of the specification walk. |
| `ResolverV1.GraphV1.ReplaceListed` | internal/service/graph_v1.go:192-198 | (v1) The loop that overwrites the first listed commit with the losing id, in place; nothing changes if it is not listed. |
| `ResolverV1.GraphV1.RedirectEdges` | internal/service/graph_v1.go:199-204 | (v1) The loop that redirects, in place, every edge to the loser; sources and all other edges stay. |
| `ResolverV1.GraphV1.SelectDep` | internal/service/graph_v1.go:184-215 | (v1) Selection, list and edges after one dependency was entered: new module, newer version, same or older version. |
| `ResolverV1.GraphV1.AppendEdge` | internal/service/graph_v1.go:217-225 | (v1) The edge goes to the commit selected for the module by then; where all edges meant what they should before, they do after. |
| `ResolverV1.GraphV1.DepObject` | internal/service/graph_v1.go:240-266 | (v1) The commit object built for a dependency carries the ids and the digest that are stored for that commit. |
| `ResolverV1.GraphV1.AbsorbDep` | internal/service/graph_v1.go:175-225 | (v1) One round up to the edge refines one step of the specification walk, and tells whether the module was known. |
| `ResolverV1.GraphV1.ProcessDep` | internal/service/graph_v1.go:175-234 | (v1) A whole round, with the recursion only for a module not seen before; the recursive call cannot fail. |
| `ResolverV1.GraphV1.GetGraphForModule` | internal/service/graph_v1.go:154-236 | (v1) Fails, changing nothing, exactly when the commit is not one of the named module; otherwise turns the object into the state the specification walk gives. Terminates on any store. |
| `ResolverV1.GraphV1.EnterRoots` | internal/service/graph_v1.go:53-78 | (v1) The first loop: succeeds if and only if every reference resolves, and then lists them in order, the last one of a module being selected. |
| `ResolverV1.GraphV1.GetGraph` | internal/service/graph_v1.go:32-95 | (v1) Succeeds if and only if all references resolve and every requested position still holds a commit of its module when its turn comes; then list, selection and edges are those of the specification walk. |
| `ResolverAgreement.ResolveBoth` | internal/service/graph_v1.go:154-236 | Both resolvers run on the same store and request: both succeed or both fail, with the same commit ids and edges in the same order, each with its own kind of digest; with slash-free owners they succeed if and only if all references resolve. |
| `ResolverAgreement.SlashFreeSucceeds` | internal/service/graph.go:80-84 | With slash-free owner names a request whose references resolve is never refused. |
| `Digests.HexRoundTrip` | internal/storage/storage.go:100-102 | Decoding printed hex gives the bytes back, for all byte strings. |
| `Digests.HexDigits` | internal/storage/storage.go:100-102 | Byte i is printed as two lower-case hex digits, the higher four bits first. |
| `Digests.HexDecodeExact` | internal/storage/storage.go:114-127 | The decoder gives a byte string if and only if the text is its printed form up to letter case. |
| `Digests.DigestRoundTrip` | internal/storage/storage.go:95-127 | Print then parse is the identity if and only if the algorithm holds no colon. |
| `Digests.DigestParsesExactly` | internal/storage/storage.go:114-127 | What the parser accepts, and as what: an algorithm without a colon, a colon, and the Base16 of the value in either case. |
| `Digests.DigestParsePrint` | internal/storage/storage.go:95-127 | What the parser accepts prints back as itself with lower-case hex. |
| `Digests.DigestStringInjective` | internal/storage/storage.go:95-97 | Equal printed digests with colon-free algorithms are equal digests. |
| `Digests.ModuleDigestRoundTrip` | internal/storage/storage.go:56-86 | Print then parse is the identity if and only if the digest is a B4 or B5 digest of 64 bytes. |
| `Digests.ModuleDigestStringInjective` | internal/storage/storage.go:56-58 | Module digests of one type with equal printed forms are equal. |
| `Ordering.LeqIsByteOrder` | internal/storage/manifest.go:38-40 | The order of the sorts is the byte order of Go strings: a string comes before those it is a prefix of, and otherwise the first different byte decides. |
| `Manifests.SerializeManifest` | internal/storage/manifest.go:34-47 | The builder loop over the sorted copy gives a text with one line for each entry, in byte order of the paths, each with algorithm, colon, Base16, two spaces, path and newline, and nothing else. |
| `Manifests.ManifestTextExactly` | internal/storage/manifest.go:34-47 | For distinct paths there is exactly one such text. |
| `Manifests.ParseManifest` | internal/storage/manifest.go:50-76 | The scanner loop gives the specified result, empty lines, bad separators, bad digests and over-long lines included. |
| `Manifests.ParseExactly` | internal/storage/manifest.go:50-76 | A text is read as a list of entries if and only if no line has 65536 or more characters and each line that is not blank says, in order, one of them: a digest, the first two spaces in the line, and the path, but for one carriage return at the end. |
| `Manifests.ManifestRoundTrip` | internal/storage/manifest.go:34-76 | Parsing a printed manifest gives its entries sorted by path if and only if no path holds a newline, ends in a carriage return or exceeds the line limit. |
| `Manifests.AnySortRoundTrip` | internal/storage/manifest.go:34-76 | The same whatever order the sort leaves entries with equal paths in: any arrangement by path is read back if and only if all paths are legal. |
| `Manifests.NewlineSharesText` | internal/storage/manifest.go:43-45 | One file whose path holds a newline and two files without print the same manifest. |
| `Manifests.TextRoundTrip` | internal/storage/manifest.go:50-76 | The same without the sort: printed lines parse to exactly the printed entries if and only if all paths are legal. |
| `Manifests.ParsedDigests` | internal/storage/manifest.go:50-76 | With newline-free paths a successful parse reads exactly the printed digests, in order. |
| `Manifests.NewlineForgesEntry` | internal/storage/manifest.go:43-45 | A path with a newline prints a manifest that parses to an entry that was never uploaded. |
| `Manifests.SerializeCanonical` | internal/storage/manifest.go:34-47 | For distinct newline-free paths, two entry lists print the same text if and only if they are permutations of each other. |
| `Manifests.SerializeInjective` | internal/storage/manifest.go:34-47 | Equal texts come from the same entries up to order, distinct paths or not. |
| `Manifests.B4IsManifestHash` | internal/storage/manifest.go:196-203 | A B4 digest is the hash of the manifest text. |
| `Manifests.ComputeB5Digest` | internal/storage/manifest.go:158-190 | The loop that checks and collects dependency digests: fails exactly when one is not B5; otherwise the digest is the hash of a text whose first line is "shake256:" and the Base16 of the hash of the manifest text, and whose other lines are the printed dependency digests in byte order, with single newlines between them. |
| `Manifests.B5TextExactly` | internal/storage/manifest.go:172-179 | There is exactly one such text for a files digest and a list of dependency digests, whatever the order of the list. |
| `Lines.LinesLaidOut` | internal/storage/manifest.go:174-179 | The lines of a text cover it completely: each stands at its place, with one newline after each but the last. |
| `Manifests.B5OrderInvariant` | internal/storage/manifest.go:158-190 | The B5 digest does not depend on the order of entries (with distinct paths) or of dependency digests. |
| `Manifests.B5InputInjective` | internal/storage/manifest.go:172-179 | The hashed string determines the files digest and, up to order, the dependency digests. |
| `Merkle.FilesFromText` | internal/storage/manifest.go:34-47 | Equal manifest texts come from equal files, unless two of their contents collide. |
| `Merkle.B4Commitment` | internal/storage/manifest.go:196-203 | Equal B4 digests come from equal files, or two different strings hashed for them collide. |
| `Merkle.OwnDigests` | internal/storage/manifest.go:158-190 | One level, whatever the paths: equal B5 digests mean equal files digests and equal dependency digests up to order, or a collision among the strings hashed at this level. |
| `Merkle.OwnCommitment` | internal/storage/manifest.go:158-190 | One level, without newlines in paths: equal B5 digests mean equal files and equal dependency digests up to order, or such a collision. |
| `Forgeries.UniqueManifest` | internal/storage/manifest.go:43-45 | A manifest has its text to itself if and only if it has no entries, or a single one whose path cannot be read as a smaller path, a newline and the line of an entry with a larger one. |
| `Forgeries.JoinedManifest` | internal/storage/manifest.go:34-47 | Every manifest of two or more entries is, character by character, also the manifest of one entry fewer: the last two joined into one path. |
| `Forgeries.TwinTree` | internal/storage/manifest.go:158-190 | Every tree in which some module has two or more files has a different tree with the same B5 digest, for every hash, with nothing new hashed and so without any new collision. |
| `Forgeries.SafeCommitment` | internal/storage/manifest.go:158-190 | If every module of a tree has at most one file, with a path that forges no second one, equal digests mean the same tree or a collision. |
| `Forgeries.CommittedExactly` | internal/storage/manifest.go:158-190 | So the B5 digest commits to a tree if and only if each of its modules has at most one file, with a path that forges no second one - when no two strings hashed for the tree itself collide. |
| `Forgeries.PlainTreeSafe` | internal/storage/manifest.go:158-190 | For a tree without newlines in its paths that condition says just that no module has two files. |
| `Forgeries.NewlineNeedsNoCollision` | internal/storage/manifest.go:43-45 | An example of two such trees, with a hash that has no collision among the strings hashed for them. |
| `Merkle.MerkleCommitment` | internal/storage/manifest.go:158-190 | Equal B5 digests of two dependency trees, whose paths hold no newline, mean the same tree at every level, up to order of files and dependencies, or two different strings hashed for the two trees have the same hash. |
| `Merkle.SameTreeSameDigest` | internal/storage/manifest.go:158-190 | The other direction: the same tree, written down in any order at any level, has the same digest. |
| `Docstore.RecordRoundTrip` | internal/storage/docstore.go:356-393 | A commit record survives the document form if and only if its files algorithm holds no colon and its module digest is a B4 or B5 digest of 64 bytes. |
| `Docstore.DecodedFields` | internal/storage/docstore.go:356-379 | Decoding changes no id and no dependency list. |
| `Docstore.LabelKeyInjective` | internal/storage/docstore.go:408-410 | Two label keys coincide if and only if module id and label name do. |
| `Docstore.FindModule` | internal/storage/docstore.go:179-191 | The query by owner and name finds the module under the id computed from these names, or nothing. |
| `Listing.SortCommitsByIdDesc` | internal/storage/docstore.go:395-404 | The exchange sort, in place: descending by id and a permutation of what was there. |
| `Listing.CollectCommits` | internal/storage/docstore.go:302-316 | Whatever order the store iterates in, exactly the decoded commits of the module are collected, each once. |
| `Listing.StartIndex` | internal/storage/docstore.go:321-330 | The index after the token, or 0 for no or an unknown token. |
| `Listing.TakePage` | internal/storage/docstore.go:332-341 | The page loop: the commits from the start index on, as many as the limit or as there are, and the id of the last one as the token exactly when more follow. |
| `Listing.ListCommits` | internal/storage/docstore.go:290-342 | The whole call: with what remains to be returned - all commits of the module, or those below a token that names one of them - the page has the smaller of the limit (100 by default) and their number, it holds the newest of them, newest first, and its last id is the next token if and only if there are more than the limit. |
| `Listing.DescendingUnique` | internal/storage/docstore.go:395-404 | There is only one descending sequence of a set of ids, so the result cannot depend on the algorithm. |
| `Listing.UnknownTokenRestarts` | internal/storage/docstore.go:322-330 | A token that names no commit of the module gives the first page again. |
| `Listing.PageTakesLargest` | internal/storage/docstore.go:321-341 | A page holds exactly the largest ids still to return, and its token bounds what is left, which is not empty. |
| `Listing.FollowComplete` | internal/storage/docstore.go:290-342 | Following tokens while commits with any ids are created in between: nothing twice, nothing out of order, nothing invented, everything the module had at the first page is returned by the end, and the end comes within as many pages as there are commits to return. |
| `Listing.FollowExactly` | internal/storage/docstore.go:290-342 | A listing that ended is exactly the first page's table, newest first, if and only if no commit was created below the token then current; it then ends within as many pages as that table has commits. |
| `ListingRuns.ListingDuringUploads` | internal/storage/docstore.go:290-342 | The same for pages read at any states of any run of uploads: complete, ordered and ending whatever is uploaded meanwhile, and exactly the first table if and only if no step between two pages inserted a commit of the module below the token then current. |
| `ListingRuns.LateInsert` | internal/registry/module.go:235-252 | Such a step exists whenever an upload holds a minted id below the token of a page: ids are minted and inserted in two steps. |
| `Buckets.BlobKeyInjective` | internal/storage/blob.go:25-32 | Different SHAKE256 digests have different blob keys, sharding included. |
| `Buckets.ManifestKeyInjective` | internal/storage/manifest.go:28-30 | Different SHAKE256 digests have different manifest keys. |
| `Buckets.BlobKeyText` | internal/storage/blob.go:25-32 | A blob lies under shake256, the first two hex digits of its hash, and all of them. |
| `Buckets.ManifestKeyText` | internal/storage/manifest.go:28-30 | A manifest lies under manifests, shake256 and the hex digits of its hash. |
| `Buckets.BlobIsNoManifest` | internal/service/service.go:166-171 | Blobs and manifests, which share one bucket, never share a key. |
| `Buckets.WriteBlob` | internal/storage/blob.go:66-92 | Writing a blob, even over an object with the same key, keeps: every object lies under a key computed from its content, and every manifest lists stored blobs. |
| `Buckets.WriteManifest` | internal/storage/manifest.go:110-141 | Writing a manifest whose blobs are stored keeps the same. |
| `Buckets.BlobIntegrity` | internal/storage/blob.go:35-45 | What is read under a digest has that digest. |
| `Buckets.ManifestIntegrity` | internal/storage/manifest.go:91-107 | What is read as a manifest under a digest has that digest and is a printed manifest of stored blobs. |
| `Buckets.ListedBlobsStored` | internal/registry/module.go:125-152 | Every blob that a readable manifest lists is in the bucket, when it was printed from stored entries and lists no digest that was not printed. |
| `ListedBlobs.AnyBlobKeyInjective` | internal/storage/blob.go:25-32 | A digest of any algorithm and length, as a manifest may list it, has the key of a SHAKE256 blob only if it is that blob's digest. |
| `ListedBlobs.ListedExactly` | internal/registry/module.go:125-152 | Every bucket that keeps its promises and holds an upload holds every blob that the upload's manifest lists, if and only if the manifest, read back, lists only digests of the uploaded files: a condition on the upload alone. |
| `ListedBlobs.UploadListed` | internal/registry/module.go:125-152 | In every run, once an upload of such files is done, every blob its manifest lists is stored in every later state, or another stored text has the hash of the manifest. |
| `ListedBlobs.ListedInRuns` | internal/registry/module.go:125-152 | The same boundary over all runs: in every state of every run in which an upload of these files is done, all listed blobs are stored, if and only if the manifest lists only digests of these files. |
| `Retrieval.SortEntries` | internal/storage/manifest.go:36-40 | Sorting files by path and then taking manifest entries is sorting the entries. |
| `Retrieval.ReadBack` | internal/storage/blob.go:35-92 | Stored blobs read back as what was put in, or a stored object collides with an uploaded content. |
| `Retrieval.StoreThenRead` | internal/registry/module.go:112-152 | For files with distinct paths: once blobs and manifest of an upload are in the bucket, reading returns exactly its paths and contents, sorted by path, if and only if its paths are legal - or a collision is exhibited. |
| `Retrieval.DownloadExactly` | internal/registry/module.go:112-152 | What is meant by that for distinct paths: each file once, with its content and the SHAKE256 digest of its content, in byte order of the paths - and nothing else. |
| `StoreInvariant.AddModuleKeeps` | internal/registry/registry.go:118-164 | Creating a module keeps all store promises and changes no module, commit or object. |
| `StoreInvariant.PutBlobKeeps` | internal/storage/blob.go:48-93 | Putting a blob keeps all store promises. |
| `StoreInvariant.PutManifestKeeps` | internal/storage/manifest.go:110-141 | Putting a manifest of stored blobs keeps all store promises. |
| `StoreInvariant.AddedCommit` | internal/storage/docstore.go:344-354 | An inserted record reads back as it was and its module, manifest, dependencies and digest are as promised. |
| `StoreInvariant.AddCommitKeeps` | internal/storage/docstore.go:344-354 | Inserting a new record whose manifest and dependencies are stored keeps all store promises. |
| `StoreInvariant.MoveLabelKeeps` | internal/storage/docstore.go:451-459 | Moving a label to a stored commit of its module keeps all store promises. |
| `Uploads.HitHasFiles` | internal/registry/module.go:214-233 | A commit found by the printed files digest and reused has the upload's module and files. |
| `Uploads.StoreStepKeeps` | internal/registry/module.go:184-270 | Each store operation of an upload keeps the store promises, whatever others did in between. |
| `Uploads.UploadStepKeeps` | internal/registry/module.go:184-270 | Each step keeps what the upload has put in place: digests read, blobs and manifest stored, minted id larger than all dependencies, commit stored before labels. |
| `Uploads.StillApart` | internal/registry/module.go:235-252 | Ids minted by different uploads differ from each other and from all stored ids, at every step. |
| `Uploads.StepKeeps` | internal/service/upload.go:59-139 | Every step of every upload, and every start of one, keeps all promises and only grows the stores. |
| `Uploads.RunKeeps` | internal/service/upload.go:59-139 | All promises hold in every state of every interleaving of any number of uploads, stopped anywhere. |
| `Uploads.RunGrows` | internal/service/upload.go:59-139 | Over any run stored modules and commits never change and objects never disappear. |
| `Uploads.FailureStep` | internal/service/upload.go:84-131 | A step fails an upload if and only if its module id is taken by another name or its next dependency is not stored; the refusal of dependencies without B5 digests never happens. |
| `Uploads.FailureReason` | internal/service/upload.go:84-131 | Every upload that has failed in a run did so in a state with one of these two reasons. |
| `UploadTheorems.LabelsLead` | internal/registry/module.go:58-72 | In every reachable state a label that is found leads to a stored commit of its own, stored module. |
| `UploadTheorems.FilesStored` | internal/registry/module.go:125-152 | In every reachable state a stored commit's manifest is in the bucket and was printed from entries whose blobs are all there; so is every blob that a reader finds listed, unless the text lists digests that were not printed in it. |
| `UploadTheorems.StoredDigest` | internal/service/upload.go:115-131 | In every reachable state dependencies are stored and have smaller ids, and the stored module digest is what ComputeB5Digest gives for the stored manifest and the stored digests of the dependencies. |
| `UploadTheorems.StoredCatalog` | internal/service/graph.go:271-311 | In every reachable state no stored dependency is skipped by the graph walk, and dependencies have smaller ids. |
| `UploadTheorems.RegistryGraph` | internal/service/graph.go:24-94 | On every reachable registry, with conflicts or without: what the edges are, when exactly there is a cycle, that there is none unless modules depend on each other in a circle, when exactly dependencies are lost, and that the answer is exactly what the request leads to if and only if there is no conflict; then it has no cycle. |
| `UploadTheorems.ReadYourUpload` | internal/service/download.go:46-65 | For files with distinct paths: an upload that ended, with a new or reused commit, is downloaded by that id in every later state of the run as exactly its paths and contents, sorted, if and only if its paths are legal - or a collision is exhibited. |
| `GraphReads.ReadsOfRun` | internal/service/graph.go:163-311 | Uploads may go on during a walk: whichever later states its lookups see, each another one if need be, the answer is the graph of the state in which the request was resolved. |
| `UploadTheorems.StoredTreeDigest` | internal/registry/registry.go:105-115 | The stored module digest is the Merkle digest of the whole stored dependency tree. |
| `UploadTheorems.StoredCommitment` | internal/storage/manifest.go:158-190 | Two stored commits with the same module digest have the same manifests and the same dependency trees at every level, whatever their paths, or a collision among the strings hashed for them is exhibited. |
| `UploadTheorems.UploadedFiles` | internal/registry/module.go:184-206 | The files of that stored tree are the uploaded ones, in every later state, for every upload without newlines in its paths - or a collision is exhibited. |
| `Commits.EnsureBlobsStored` | internal/registry/module.go:190-200 | After the blob loop every content is in the bucket and nothing else but the bucket changed. |
| `Commits.NothingToStore` | internal/storage/blob.go:66-77 | Contents that are there already are not written again. |
| `Commits.LabelsAfter` | internal/registry/module.go:254-259 | After the label loop exactly the named labels of the module lead to the commit; every other (module, label) pair is as before. |
| `Commits.PushedShape` | internal/registry/module.go:184-270 | A push adds at most its own commit, changes no module and removes nothing; labels are exactly as LabelsAfter says. |
| `Commits.OtherRefsUnchanged` | internal/registry/module.go:58-96 | Every reference in the whole registry that does not name a moved label resolves as before. |
| `Commits.PushedRef` | internal/registry/module.go:58-96 | A reference that names a given label resolves to the commit of the push. |
| `Commits.GivenLabelsResolve` | internal/registry/module.go:58-72 | All given labels resolve to the commit if and only if none is empty, or the default label was given too, or the push reused the commit that the default label led to before: an empty label is stored but cannot be named. |
| `Commits.ReuseIsCertain` | internal/storage/docstore.go:275-288 | The global lookup is sure to find a commit to reuse if and only if some commit has these files and all that do belong to the pushing module. |
| `Commits.SameFilesSameDigest` | internal/storage/manifest.go:34-47 | Two orders of the same files with distinct paths have one files digest. |
| `Commits.RePush` | internal/registry/module.go:214-233 | Pushing the same files again, in any order, with any labels and dependencies, when only the module's own commits have them: one of these is returned as stored, bucket, modules and commits stay as they are, and only the named labels move. |
| `Commits.RePushLater` | internal/registry/module.go:214-233 | The same from the outcome of an earlier push, in any later state in which no other module holds these files; it is that push's own commit when the module has only one with them. |
| `Commits.AnswerCarriesDeps` | internal/registry/module.go:214-233 | Every answer to a push carries the pushed dependencies if and only if each commit of the module with the same files was stored with the same dependencies. |
| `Commits.AnswerCarriesDigest` | internal/registry/module.go:208-233 | Every answer carries the B5 digest of the pushed files and dependencies if and only if each commit of the module with the same files has it. |
| `PushExamples.UpdatedDependencyIgnored` | internal/registry/module.go:214-233 | Three pushes, for any hash, modules and files with different digests: the third, the same files with a new dependency, can only answer with the commit of the second, which has none. |
| `PushExamples.SecondCopyOfSameFiles` | internal/storage/docstore.go:275-288 | Three pushes, for any hash, modules and files: another module's commit with the same files hides the module's own, which gets a second commit like the first. |
| `PushExamples.EmptyLabelUnresolved` | internal/registry/module.go:58-72 | A push to the empty label, for any hash, module and files: the label is stored and cannot be resolved. |
| `Commits.PushedKeeps` | internal/registry/module.go:184-270 | A whole push keeps all store promises. |
| `Commits.PushedOutcome` | internal/registry/module.go:184-270 | What every push comes to: its commit is stored with its files, at most that commit is new, and labels moved exactly as given. |
| `SoloUploads.BlobsRun` | internal/registry/module.go:190-200 | Run alone, the machine's blob steps have the effect of the blob loop. |
| `SoloUploads.ManifestRun` | internal/storage/manifest.go:110-141 | Run alone, the machine's manifest steps have the effect of PutManifest. |
| `SoloUploads.CommitRun` | internal/registry/module.go:214-252 | Run alone, lookup, minting and inserting have the effect of the dedup branch or of the insert. |
| `SoloUploads.LabelsRun` | internal/registry/module.go:254-259 | Run alone, the machine's label steps have the effect of the label loop. |
| `SoloRuns.LeadsOnTheWay` | internal/registry/module.go:184-270 | Every state that an undisturbed upload passes through is a stage of the whole call: so many files, the manifest, the lookup, the new commit, so many labels. |
| `SoloRuns.SoloEnds` | internal/registry/module.go:184-270 | However many steps an undisturbed upload takes: when done, the stores changed as the whole-call relation says, with its commit; when failed, a dependency digest was not B5 and only files were stored. |
| `SoloUploads.SoloPush` | internal/registry/module.go:184-270 | The other way round: whatever the whole-call relation allows, the step machine does when the upload runs alone, with the same stores, the same minted id and the same commit. |
| `SoloStarts.LeadsEarly` | internal/service/upload.go:84-131 | Every state that an undisturbed upload passes through before its first blob is a stage of finding or creating its module and reading the digests of its dependencies. |
| `SoloStarts.SoloUpload` | internal/service/upload.go:84-139 | From the first step on: whatever UploadContent may do with a content that it accepts, the machine does when the upload runs alone, with the same stores, ids and commit. |
| `SoloStarts.SoloRefusal` | internal/service/upload.go:84-131 | A content that UploadContent refuses fails in the machine too, with nothing but the module added. |
| `SoloStarts.SoloUploadEnds` | internal/service/upload.go:84-139 | The converse: an undisturbed upload is done only if it was to be accepted, and then the stores changed as the whole call says; it failed only if it was to be refused. |
| `SoloStarts.UploadFromHere` | internal/service/upload.go:59-139 | Every run can go on with one more upload that runs alone to its end, done if and only if its module id is its own or free and its dependencies are stored. |
| `RegistryObject.Registry.PutBlob` | internal/storage/blob.go:48-93 | Write once: no object changes, at most the blob's is added, under the key spelt out, and the digest reads back as the content, or an object that was there before collides with it. |
| `RegistryObject.Registry.PutManifest` | internal/storage/manifest.go:110-141 | Write once: no object changes, at most the manifest's is added, under the key spelt out, and with stored blobs and legal paths the digest reads back as the entries sorted by path, or a collision is exhibited. |
| `RegistryObject.Registry.PutFiles` | internal/registry/module.go:190-200 | The loop that stores the blobs and builds the manifest entries, in file order. |
| `RegistryObject.Registry.FilesForCommit` | internal/registry/module.go:125-152 | The read loop: the files in manifest order, or the first error. |
| `RegistryObject.Registry.GetOrCreateModule` | internal/registry/registry.go:167-176 | Finds or creates the module; fails exactly when its id is taken by another name, changing nothing. All store promises are kept. |
| `RegistryObject.Registry.CreateModule` | internal/registry/registry.go:118-164 | Creates the module, or looks it up by name when the id is taken. |
| `RegistryObject.Registry.FindByFilesDigest` | internal/storage/docstore.go:275-288 | Some commit of any module with this printed files digest, if there is one. |
| `RegistryObject.Registry.UpdateLabel` | internal/registry/module.go:272-280 | The label leads to the commit; every other pair of module and label name leads where it did. |
| `RegistryObject.Registry.UpdateLabels` | internal/registry/module.go:254-259 | The label loop. |
| `RegistryObject.Registry.GetDepModuleDigests` | internal/registry/registry.go:105-115 | Succeeds if and only if all dependencies are stored, and gives their stored module digests in order. |
| `RegistryObject.Registry.CreateCommit` | internal/registry/module.go:184-270 | In place: fails exactly for a dependency digest that is not B5, leaving files but no commit; otherwise the stores change as `Commits.Pushed` says. |
| `RegistryObject.Registry.Commit` | internal/registry/module.go:184-270 | CreateCommit on what uploadContent passes: it succeeds, all store promises are kept, and the outcome is that of PushedOutcome. |
| `RegistryObject.Registry.UploadContent` | internal/service/upload.go:84-139 | The whole upload of one content. It succeeds if and only if the module's id is free or its own and the given dependencies - the detected ones if none are given - are stored. Then the given labels of the module, or "main" if none are given, lead to the commit it answers with and all other labels where they did; a new commit has exactly those dependencies, and otherwise no commit changed. Effects and answer are those of an undisturbed upload of the machine. |
| `RegistryObject.UploadMeans` | internal/service/upload.go:84-139 | Every outcome that the whole-call relation allows comes to that. |
| `Tokens.EnteredTokens` | internal/service/service.go:143-146 | The loop over the configured users, in any order: every user's token is entered, and a token that several share ends up with the entry of the last of them. |
| `Tokens.InitialCurrent` | internal/service/service.go:137-146 | So a token is live exactly when it is some configured user's, without expiry, and it is the current token of the user its entry names. |
| `Tokens.InitialTable` | internal/service/service.go:137-146 | The initial table of the machine is a table as the constructor of the service leaves it. |
| `Tokens.StepKeeps` | internal/service/service.go:317-339 | Every locked section, unlocked expiry read, clock tick and login step keeps that. |
| `Tokens.RunKeeps` | internal/service/oauth2.go:354-365 | It holds in every state of every interleaving of requests and logins. |
| `Tokens.OneLiveToken` | internal/service/oauth2.go:354-365 | A live token is the one the user table names for its user, so a user has at most one. |
| `Tokens.SpentNeverServes` | internal/service/service.go:317-339 | Once a token is out of the table and in no login's hands, it stays so, and no request that was not looked up by then is ever accepted with it. |
| `Tokens.OldTokenRefused` | internal/service/service.go:317-339 | After a re-login of its user or a "token expired" answer, no request that arrives later is accepted with the old token. |
| `TokensInFlight.InFlightExactly` | internal/service/service.go:317-339 | Over every continuation of every run: a request whose token is spent can still be accepted if and only if it was accepted already, is about to renew its entry, or found an entry that has not expired or that another request is about to renew (for a lifetime that is not negative). |
| `TokensInFlight.InFlightAfterRelogin` | internal/service/oauth2.go:354-365 | In particular after a re-login, for the old token. |
| `TokensInFlight.NeverAccepted` | internal/service/service.go:317-339 | Every other request with a spent token stays unaccepted in all later states. |
| `Tokens.SoloRequest` | internal/service/service.go:317-339 | Three steps of a request with nothing but the clock between them answer it and change the whole table as the interceptor's whole call does. |
| `Tokens.SoloLogin` | internal/service/oauth2.go:354-365 | The locked step of a login changes the tables as the whole call does. |
| `Tokens.AnswersAfter` | internal/service/service.go:317-339 | What one request means for the next: a token in force is granted to its user and stays in force for a lifetime from its renewal; an expired one is refused as expired, and unknown from then on; an unknown one is refused and changes nothing; no other token is concerned. |
| `Tokens.AnswersAfterLogin` | internal/service/oauth2.go:349-365 | A token is granted to its user until a lifetime after its login and then refused as expired; the token it replaces is unknown; no other is concerned. |
| `TokenRenewal.RunAdvances` | internal/service/service.go:334-339 | Token entries keep their user and expiries never move back. |
| `TokenRenewal.StepDrops` | internal/service/service.go:326-332 | A step takes a token out of the table if and only if it is a re-login of its user or the deletion by a request that found it expired, and then the token is spent. |
| `TokenRenewal.StaysInTable` | internal/service/service.go:317-339 | Over any stretch of any run a live token is still there, with the same entry, if and only if no such step occurred. |
| `TokenRenewal.ActivityKeepsAlive` | internal/service/service.go:326-339 | Until the lifetime has passed since a renewal, the token is in the table with its entry in force if and only if its user did not log in again and no request was served that had decided to delete it before the renewal. |
| `TokenRenewal.LoginExpiry` | internal/service/oauth2.go:349-365 | Over any run: whenever a login enters its token, the entry expires exactly a lifetime after the login appeared. |
| `TokenRenewal.LoginKeepsAlive` | internal/service/oauth2.go:349-365 | Until a lifetime has passed since a login appeared, its token is in the table with its entry in force if and only if its user did not log in again. |
| `TokenRenewal.RenewedThenDeleted` | internal/service/service.go:326-339 | The race, step by step: of two requests that looked one entry up, one is about to renew it when it expires, the other then finds it expired; the renewal succeeds, and the deletion that follows takes the token out for good. |
| `AuthService.Service.constructor` | internal/service/service.go:111-146 | Configured users and the admin, in any order: exactly their tokens are live, without expiry, each current for the user its entry names. |
| `AuthService.Service.Authenticate` | internal/service/service.go:317-343 | One request on the mutable tables: the answer, and the whole table after it: unknown and unchanged, expired and removed, or granted and renewed. |
| `AuthService.Service.Login` | internal/service/oauth2.go:349-365 | The expiry is a lifetime after the clock when the token was generated; the replacement section: old token out, new one in and current, all else unchanged. |

## Left out

- RPC handlers, request validation, error codes, logging, tracing and telemetry: plumbing around the modelled calls.
- Code generation plugins and their containers; OIDC discovery, user information and the device flow, except the replacement of the token.
- The bodies of SHAKE256, SHA-256 and the UUID generator: parameters, as said under Assumptions.
- The import pattern and the search for the file that an import names (internal/service/upload.go:17-46, 141-206): the detected dependencies are a parameter of `UploadContent`, as any list of ids.
- Failures of the bucket and of the document store: in the step machine an upload may stop before any operation, which covers them; in the registry object only the errors of the registry's own logic occur.
- Deletion of modules, labels and blobs: the run theorems are about uploads.
- Owner records, descriptions, timestamps, source control URLs and the host names on graph nodes and edges: they are stored and handed out but decide nothing that is modelled. getStoredDeps only yields dependencies of this registry's own host, so the test of the host before the recursion always succeeds.
- The order that `sort.Slice` gives to entries with equal paths: the model sorts stably; the canonical-form theorems ask for distinct paths.
- Parsing of buf.lock and the path and file-type filters of downloads: no modelled code depends on them.
- Configuration files, environment substitution and TLS.
- RegistryObject.Registry.UploadContent: one content of an upload; a request with several contents is a sequence of such calls that stops at the first failure.
- AuthService.Service.Authenticate: runs alone; the interleavings are in `Tokens`, and `Tokens.SoloRequest` proves that a run alone comes to the same.
