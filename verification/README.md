# Asset resolver: a verified model

This Dafny project models the caches and published artefacts of the asset resolver and proves
that each agrees with a simpler truth through concurrency, crashes, failing system calls and
conflicting writes. `dafny verify dfyconfig.toml` checks all of it.

Five components are modelled.

1. **Publication of a resolution namespace** (`Namespace`, `Publication`, `PublicationTheorems`,
   `SoloPublication`, `SoloRebuild`).
   Any number of publishers, each with a program counter, take the lock, check freshness, build in a
   private staging directory, verify it, remove an incomplete target and rename. Every system call may
   fail, a publisher may be killed between any two steps, and removing a directory is one step per file.
   A run may start from any target an older client left and from any pile of staging directories.
2. **The resolution-table build** (`ResolutionBuild`, `Rebuild`, `EndToEnd`). The two collecting loops, the
   join and the SQLite transaction are methods on a connection; the whole builder is then a sequence of
   small steps (page spills, rows in any order, files touched by others) that runs inside component 1, so
   that one theorem goes from the metadata files to the answers a published namespace gives.
   Hashing and parsing are uninterpreted functions.
3. **The two-level listfile cache** (`ListfileTable`, `ListfileCache`, `Listfile`, `ListfileRuns`,
   `ListfileTheorems`, `ListfileAgreement`). Memory maps over a local table over a community table; a table is a map with two
   unique keys, the id and the lower-cased path. The objects are classes proved against functions; the same
   lookups are then cut into atomic steps and interleaved over threads, processes, crashes and failures.
4. **The hotfix key importer** (`LittleEndian`, `HotfixRecords`, `PushOrder`, `FileOrder`, `HexText`, `Harvest`,
   `HarvestOrder`, `HarvestTheorems`, `HarvestFile`, `LookupDb2`, `LookupWriter`, `LookupExact`, `KeyStoreText`,
   `KeyStore`, `StoreMeaning`, `Importer`). Binary parsing with truncation checks, a stable sort, the event fold
   with its retention rule, the join, the WDC5 lookup reader against a writer, the additive text store, and the
   whole import over several caches.
5. **Identity-qualified paths and extraction** (`Identity`, `Paths`, `AtomicWrite`, `Extraction`,
   `ExtractionTheorems`, `ExtractionRuns`, `ExtractionWrites`, `Fnv`). Which path a request names, the
   temp-then-rename writer as a transition system, the provenance of every added file over runs in which the
   installed build is patched, one call at a time and with the steps of several processes interleaved, those
   runs with the writer's own steps in place of each rename, and the key that names a community cache.

Loops and updated objects are methods and classes whose contracts equate the result or the new state with
a specification function; the theorems are about those functions. What a specification function computes is
told a second time without it, in terms of the input alone: the positions of records in the parsed files
(`LastInBlocks`, `LastInPages`), the fields of a directory's files (`FreshExactlyWhen`), the text of a line
(`LineParsesExactlyWhen`), the records of a cache file (`HarvestFile`), the bytes of a lookup file
(`ReadsExactlyWhenHeld`), the lines and words of a store (`StoreExactlyWhen`), the roots of a path
(`ScopedExactlyWhen`). Where the repository's rule is not unconditional, the model gives the exact condition:

- Freshness can appear by deletion, because a left-over journal hides it. An interrupted removal of an
  incomplete namespace is harmless exactly when stripping its journal and WAL does not make it fresh
  (`LegacyRemovalIsSafeExactlyWhen`). What holds from every legacy namespace is proved without that condition:
  one publication, final once anyone was told Ok, and answered from its own metadata files. A target whose
  inspection fails is never replaced: every later caller is told an error
  (`UninspectableTargetsAreLeftAlone`).
- `docs/specs/listfile-resolution.md:12` prefers local rows over conflicting community rows. That holds for
  one lookup; over a run a lookup can evict the local row it conflicts with. No run loses a local row
  exactly when the two tables are coherent (`LocalRowsSurviveExactlyWhen`), and then every answer is that
  of the local rows laid over the community table. `Coherent` is stricter where local reads may fail.
- All answers for one id or path agree over every interleaving under the same coherence, and only then
  (`AnswersAgreeExactlyWhen`).
- Opens of the community cache serve their own source's rows exactly when a recorded path and whole-second
  mtime always stand for the same rows (`OpensServeTheSourceExactlyWhen`); an edit between the import and
  the second stat, or within one second, breaks it.
- Scoping a path twice is scoping it once exactly under `FixedPoint`, and a path qualified for another
  identity is refused exactly under `SeenAsForeign`: with the other's namespace as source root it is accepted.
- Writes to a set of destinations are atomic exactly when none of them could be another's temporary
  (`AtomicExactlyWhen`).
- Calls that extract with that writer cannot be told from calls whose rename is one step exactly when no file
  they test or write could be a temporary of one that some call writes (`CallsCannotTellExactlyWhen`).
- Extracted files are never replaced exactly when calls that write one path write the same bytes
  (`FilesStayExactlyWhen`).

Where the code and its own text differ, the model follows the code:

- The comment at `src/casc_cache.rs:250` says the first encoding key per content. The loop keeps the last
  entry that has any key and takes that entry's first key, while fetching the root file itself uses the
  first such entry (`src/casc_resolver.rs:867-885`).
- `docs/specs/installed-build-selection.md` names `.product.db`; the code reads `.build.info`.

Standing assumptions: processes publishing one namespace share one build config; the installation does not
change inside one call, only between calls; an mtime is a value that a rename keeps; archives are
content-addressed, so a decoding that misses no chunk is the plaintext behind its encoding key; live
processes have distinct process ids.

## Model

| member | source | states |
|---|---|---|
| Namespace.DeletionCanExposeFreshnessExactlyWhen | src/casc_cache.rs:155-178 | some remnant of a directory inspects as fresh if and only if the directory without its journal and WAL does |
| Namespace.FreshPassesOpen | src/casc_cache.rs:25-61 | what the locked inspection calls fresh a later lock-free open accepts, up to a missing resolution table, and serves its rows |
| Namespace.FreshExactlyWhen | src/casc_cache.rs:155-178 | the inspection says fresh if and only if the database's first metadata row has layout 2 and the whole seconds of both metadata files' times, and neither a journal nor a WAL lies beside it |
| Namespace.InspectionFailsExactlyWhen | src/casc_cache.rs:155-178 | it fails if and only if the database is no file and nothing before it says not fresh |
| Namespace.OpenServesExactlyWhen | src/casc_cache.rs:25-61 | opening serves rows if and only if they are the resolution table of a database so stamped, sidecars or not |
| Namespace.ResolvesExactlyWhen | src/casc_cache.rs:64-83 | a lookup answers if and only if the id has a row whose two columns hold sixteen bytes each |
| ResolutionBuild.RecordMapIsLastRecord | src/casc_cache.rs:231-245 | a fold of inserts holds a content key for an id exactly when the last record for the id has it |
| ResolutionBuild.EntryMapIsLastEntry | src/casc_cache.rs:247-260 | a fold of inserts holds an encoding key for a content key exactly when it is the first of the last entry for it that has any |
| ResolutionBuild.ClientRecordsAreTheBlocks | src/casc_cache.rs:231-245 | the last record for an id among those selected is the last one, by block and place, in a block whose locales include the client's |
| ResolutionBuild.EntriesAreThePages | src/casc_cache.rs:247-260 | the last non-empty entry for a content key is the last one by page and place |
| ResolutionBuild.BuiltRowsAreTheLast | src/casc_cache.rs:226-311 | the built table has the row (ck, ek) for an id exactly for the last record in a client-locale block and the last non-empty entry |
| ResolutionBuild.JoinedResolves | src/casc_cache.rs:64-83 | a lookup in the built table returns (ck, ek) exactly for the last record in a client-locale block and the last non-empty entry, by their places in the parsed blocks and pages |
| ResolutionBuild.JoinedStep | src/casc_cache.rs:295-307 | inserting one more id from the unordered map extends the join by that id's row or by nothing, so the order cannot matter |
| ResolutionBuild.CollectFdidToContentKeys | src/casc_cache.rs:231-245 | the two nested loops yield exactly the content key of each id's last record in a client-locale block |
| ResolutionBuild.CollectContentToEncodingKeys | src/casc_cache.rs:247-260 | the two nested loops yield exactly the first key of each content key's last entry that has any |
| ResolutionBuild.ResolveContentKeyFromEncoding | src/casc_resolver.rs:867-885 | finds the first key of the first non-empty entry for the content key, by page and place, or nothing exactly when no entry has one |
| ResolutionBuild.Connection.constructor | src/casc_cache.rs:262-264 | a connection, once open, starts on the committed tables with no transaction |
| ResolutionBuild.Connection.InitResolutionSchema | src/casc_cache.rs:266-283 | opens a transaction whose two tables are empty, or fails; the committed tables stay |
| ResolutionBuild.Connection.Insert | src/casc_cache.rs:299-305 | adds one row, or fails and changes nothing when the id already has one or SQLite refuses |
| ResolutionBuild.Connection.InsertResolutionRows | src/casc_cache.rs:285-311 | in any iteration order inserts exactly the join and counts its rows; fails exactly when preparing fails or some joined row is refused |
| ResolutionBuild.Connection.InsertResolutionMetadata | src/casc_cache.rs:313-324 | appends the mtimes and the schema version to the pending metadata, or fails |
| ResolutionBuild.Connection.Commit | src/casc_cache.rs:326-329 | makes the pending tables the committed ones, or fails and leaves them |
| ResolutionBuild.Connection.FillAndCommit | src/casc_cache.rs:189-199 | inserts, stamps and commits in that order: with no failure the join is committed under the mtimes read after the inserts, and any failure commits nothing |
| ResolutionBuild.Connection.BuildResolutionCache | src/casc_cache.rs:183-202 | succeeds exactly when reading, parsing, both stats and every SQLite call do; then the committed tables hold exactly the rows of the last records and entries under the mtimes read after the inserts, and otherwise they are untouched |
| Rebuild.BuilderInvKept | src/casc_resolver.rs:697-743 | every step of the builder, in any row order, page spill or outside touch, keeps: metadata bytes carry the build config's content keys, and the table so far is the join of the ids done so far |
| Rebuild.OnlyFinishedIsFresh | src/casc_cache.rs:163-167 | wherever the builder is stopped before its end, what it leaves has its journal beside the database, if any, and does not inspect as fresh |
| Rebuild.VerificationRejectsLateTouches | src/casc_cache.rs:190-197 | a finished build verifies exactly when both metadata files still have the mtimes recorded after the inserts |
| Rebuild.ServedAnswers | src/casc_resolver.rs:697-743 | a fresh directory that serves its table opens and answers every id as its metadata files prescribe |
| Publication.ReachableNext | src/casc_cache.rs:89-153 | a step from a reachable state leads to a reachable state |
| Publication.RemnantOfSafeIsNotFresh | src/casc_cache.rs:148-151 | no partially removed safe legacy namespace looks fresh |
| Publication.SafeFreshIsSettled | src/casc_cache.rs:142-153 | where the legacy namespace strips safely a fresh target is it or a published one and nobody is about to replace it, and a target that is not fresh is left of the legacy one |
| Publication.SettledStays | src/casc_cache.rs:93-96 | no step of any publisher changes a fresh target that nobody is about to replace, or starts a build |
| Publication.LockPreserved | src/casc_cache.rs:93-125 | every step keeps mutual exclusion: exactly the lock holder is inside, and a kill releases the lock |
| Publication.TargetMoves | src/casc_cache.rs:142-153 | a step that changes the target is a removal or a rename by the lock holder with a verified staging directory, never once the target is settled, and never while it is fresh if the legacy namespace strips safely |
| Publication.TargetPreserved | src/casc_cache.rs:142-153 | from any legacy namespace every step keeps: the target is absent, published, or left of the legacy one; a published one and a fresh legacy one are in place with nobody about to replace them; nothing is logged after a publication |
| Publication.ProcsPreserved | src/casc_cache.rs:93-105 | every step keeps each publisher's own facts: not-fresh-since-checked until it starts removing, staging verified, Ok only with a fresh target that nobody is about to replace |
| Publication.InvPreserved | src/casc_cache.rs:89-153 | the whole invariant is inductive over every step of every publisher |
| Publication.RunInv | src/casc_cache.rs:89-153 | the invariant holds in every state of every run from any target |
| PublicationTheorems.NoPartialNamespaceEverVisible | src/casc_cache.rs:86-105 | from an absent namespace, in every interleaving with crashes anywhere, every state shows none or a fresh one, and a fresh one never changes again |
| PublicationTheorems.FreshStays | src/casc_cache.rs:146-152 | once fresh, the target is the same in every later state, also from a safe legacy target |
| PublicationTheorems.SettledIsFinal | src/casc_cache.rs:93-105 | from any target, a fresh one that nobody is about to replace is the same in every later state, and so is the log of builds and publications |
| PublicationTheorems.OnePublicationNoLaterBuild | src/casc_cache.rs:93-105 | from any target a run renames into the namespace at most once, no build starts after it, and what it published is what is there |
| PublicationTheorems.OkMeansOpenable | src/casc_cache.rs:93-105 | from any target, whoever was told Ok finds, then and ever after, the same namespace, stamped with its metadata files' times and without sidecars, and a lock-free open passes its freshness check; if the legacy one strips safely it is the untouched legacy one or a published one |
| PublicationTheorems.FailedBuildersLeaveTheTarget | src/casc_cache.rs:98-104 | from any target, as long as no staging directory passes verification, builders that fail or die leave the target exactly as it was |
| PublicationTheorems.OrphansAreLeftAlone | src/casc_cache.rs:86-88 | in every run nobody takes over, changes, publishes or removes a staging directory that no publisher at work made |
| PublicationTheorems.KilledWhileRemoving | src/casc_cache.rs:148-151 | for every unsafe legacy directory a run exists in which a killed remover leaves it stripped and looking fresh |
| PublicationTheorems.FreshIsHandedOut | src/casc_cache.rs:93-96 | a caller that finds a fresh-looking target is told Ok without building |
| PublicationTheorems.UnsafeLegacyIsHandedOut | src/casc_cache.rs:146-151 | for every unsafe legacy directory some run tells a caller Ok over a remnant nobody verified |
| PublicationTheorems.LegacyRemovalIsSafeExactlyWhen | src/casc_cache.rs:142-153 | no reachable state hands out a remnant if and only if stripping the sidecars of an incomplete legacy namespace does not make it fresh |
| PublicationTheorems.UninspectableTargetsAreLeftAlone | src/casc_cache.rs:93-97 | from every reachable state with the lock free and a target whose inspection fails, in every interleaving nobody builds or publishes, the target stays and nobody is told Ok |
| SoloPublication.HealthyStepExists | src/casc_cache.rs:89-153 | until it is done, a lone publisher has a step that does not fail |
| SoloPublication.SoloStep | src/casc_cache.rs:89-153 | every step of a lone publisher that does not fail lowers its rank, and at rank zero it is done: Ok and a fresh target, or the inspection's error and the target as found |
| SoloPublication.SoloPublisherFinishes | src/casc_cache.rs:86-105 | from every reachable state with the lock free, whatever target and orphans lie around, a lone publisher with any builder that gets through takes a bounded number of steps besides waiting ones and ends with Ok and a fresh target, or, if the target could not be inspected, with that error and the target as found |
| EndToEnd.RealRunInv | src/casc_resolver.rs:682-695 | in every run from any target whose publishers use the real builder, every staging directory satisfies the builder's invariant and every published directory serves the table of its own metadata files |
| EndToEnd.WhateverIsPublishedAnswers | src/casc_resolver.rs:697-743 | in every such run from any target, what was ever published is what is visible, opens, carries the build config's content keys, and resolves an id to (ck, ek) exactly for the last client-locale record and the last non-empty entry |
| EndToEnd.OkMeansLegacyOrAnswers | src/casc_resolver.rs:682-743 | in every such run from a target that strips safely, whoever is told Ok has the untouched legacy namespace or one that answers so |
| EndToEnd.PublishedNamespaceAnswers | src/casc_resolver.rs:697-743 | in every such run from an absent namespace, a visible namespace opens, its files carry the build config's content keys, and an id resolves to (ck, ek) exactly for the last client-locale record and the last non-empty entry |
| SoloRebuild.ForwardLowersRank | src/casc_resolver.rs:697-733 | each forward step of the real builder, down to single rows, lowers its rank and keeps the recorded mtimes those of the files |
| SoloRebuild.RebuildGetsThrough | src/casc_resolver.rs:697-733 | the real builder, left in peace but for page spills, always has a forward step until it is finished, counts down, and finishes with a fresh directory |
| SoloRebuild.RealPublisherFinishes | src/casc_resolver.rs:682-733 | from every reachable state with the lock free and any target, a lone publisher whose builder takes files, rows and commit as separate steps makes at most rows + 16 + old files steps besides page spills, and where none is left it was told Ok and the target is fresh, or it was told why the target could not be inspected and that is as found |
| ListfileTable.Upsert | src/listfile_cache.rs:72-77 | INSERT OR REPLACE keeps exactly the rows that share neither key with the new one, plus the new one |
| ListfileTable.QueryPath | src/listfile_cache.rs:157-169 | finds the row of a path in any case mix, or nothing exactly when there is none |
| ListfileTable.QueriesAreInverse | src/listfile_cache.rs:144-169 | the path stored for an id, in any case mix, resolves back to that id |
| ListfileTable.LowerFoldsCase | src/listfile_cache.rs:72-77 | two paths have one lower-cased form if and only if they differ in the case of ASCII letters alone |
| ListfileTable.FoundExactlyInAnyCase | src/listfile_cache.rs:144-169 | a stored row is found by exactly the paths that differ from its own in letter case alone |
| ListfileCache.SplitOnce | src/listfile_cache.rs:280-282 | splits at the first separator only, and fails exactly when there is none |
| ListfileCache.ParsesExactlyWhenSpelled | src/listfile_cache.rs:283-285 | a text parses to n if and only if it is n in decimal, with any leading zeros and perhaps one plus, and n has 32 bits |
| ListfileCache.LineParsesExactlyWhen | src/listfile_cache.rs:280-285 | a line parses to a row if and only if it is such a number, a semicolon and the path |
| ListfileCache.InsertedIsLastClaims | src/listfile_cache.rs:278-289 | a fold of upserts holds a row exactly when it is the last to claim both of its keys |
| ListfileCache.ImportedIsLastClaims | src/listfile_cache.rs:269-291 | the imported table holds a row exactly when some line is its number, a semicolon and its path, and no later line gives a row with its id or with its path in any case mix |
| ListfileCache.CommunityDatabase.constructor | src/listfile_cache.rs:171-177 | a connection, once open, starts on the committed tables |
| ListfileCache.CommunityDatabase.InitCacheSchema | src/listfile_cache.rs:250-267 | the transaction starts with both tables empty, or fails |
| ListfileCache.CommunityDatabase.ImportRows | src/listfile_cache.rs:269-291 | the loop fills the pending table with the import of the lines, and fails exactly when the file, a line, the prepared statement or a parsed line's insert does |
| ListfileCache.CommunityDatabase.RecordMetadata | src/listfile_cache.rs:293-303 | appends path and mtime, and fails exactly when the stat or the insert does |
| ListfileCache.CommunityDatabase.RebuildCache | src/listfile_cache.rs:241-248 | commits the import with its stamp exactly when every step works, and otherwise commits nothing |
| ListfileCache.CommunityDatabase.EnsureCache | src/listfile_cache.rs:187-203 | result and committed database are those of the specification in every case: unopenable, unreadable, missing source with or without rows, fresh, stale, failing |
| ListfileCache.OpensExactlyWhen | src/listfile_cache.rs:187-248 | an open succeeds exactly when the database can be asked and, without a source, holds a row, or with one is stamped for it or can be told stale and rebuilt with every call working; only a rebuild changes it, to the rows of the lines and the last stamp |
| ListfileCache.OpensServeTheSourceExactlyWhen | src/listfile_cache.rs:187-239 | from no database, every successful open serves its own source's rows, in every sequence of opens, if and only if a recorded path and mtime that a later open finds again always stand for the same rows |
| ListfileCache.SecondOpenServesTheFirst | src/listfile_cache.rs:199-201 | where that fails two opens suffice: the second skips the rebuild and serves what the first imported |
| ListfileCache.SteadySourcesAreServed | src/listfile_cache.rs:219-239 | sources that hold still during an open and whose mtime identifies their lines are always served as they are |
| ListfileCache.LocalStore.Remember | src/listfile_cache.rs:54-81 | one transaction: the upsert of the row, or no change |
| Listfile.Listfile.constructor | src/listfile.rs:73-87 | starts with empty maps, no connection and nothing logged |
| Listfile.Listfile.CacheInMemory | src/listfile.rs:198-206 | keeps what either map already has, adds the rest, and tells whether both were there |
| Listfile.Listfile.LogLocalErrorOnce | src/listfile.rs:208-218 | afterwards the local error counts as logged |
| Listfile.Listfile.LogCommunityErrorOnce | src/listfile.rs:220-230 | afterwards the community error counts as logged, except that a missing source is passed over |
| Listfile.Listfile.Remember | src/listfile.rs:186-196 | updates both maps and persists exactly the rows not already cached under both keys |
| Listfile.Listfile.WithCommunityCache | src/listfile.rs:168-184 | opens at most once, opens again after a failure, the read-only reopening included, and returns the committed table or the exact failure, leaving database and connection as specified |
| Listfile.Listfile.LookupLocalFdid | src/listfile.rs:99-111 | answers from memory, else from the local table, caches what it reads, and logs exactly when a needed read failed |
| Listfile.Listfile.LookupLocalPath | src/listfile.rs:113-128 | the same for paths in any case mix |
| Listfile.Listfile.LookupCommunityFdid | src/listfile.rs:135-144 | answers from the community table, caches and persists the row, changes no row on a miss, and logs exactly the failures that are not a missing source |
| Listfile.Listfile.LookupCommunityPath | src/listfile.rs:146-166 | the same for paths |
| Listfile.Listfile.LookupFdid | src/listfile.rs:89-92 | answer, both maps, local store, community database, connection and logged flags are those of the specification, whichever reads and writes fail; the community is asked only after a local miss |
| Listfile.Listfile.LookupPath | src/listfile.rs:94-97 | the same for paths |
| Listfile.LookUpTwice | src/listfile.rs:168-184 | once a lookup has the community cache open, no later one opens it again, whatever became of the source |
| ListfileRuns.OverlayIsATable | src/listfile.rs:89-97 | over coherent tables the local rows laid over the community rows have unique paths |
| ListfileRuns.CommunityRowIsTrue | src/listfile.rs:135-166 | a community row found after a local miss belongs to the overlay |
| ListfileRuns.StoringATrueRow | src/listfile_cache.rs:72-77 | storing a row of the overlay evicts no row of it |
| ListfileRuns.StepIsOk | src/listfile.rs:89-206 | each atomic read, cache update, write or crash keeps local rows, all memories and all rows in flight inside the overlay, and any reply it gives is right |
| ListfileRuns.RunInv | src/listfile.rs:89-206 | that invariant holds after every interleaving of threads and processes |
| ListfileRuns.OneThreadStoresARow | src/listfile.rs:186-206 | over any tables and every interleaving, no two threads of one process are about to store the same row |
| ListfileRuns.StoresExactlyWhenUnknown | src/listfile.rs:186-206 | a thread stores the community row it found exactly when its memory lacks it under either key and the write works |
| ListfileTheorems.AnswersAreTheOverlay | src/listfile.rs:89-97 | over coherent tables every answer in every interleaving is the overlay's, and no answer means it has none or a read failed |
| ListfileTheorems.CacheIsTransparent | src/listfile.rs:89-206 | when the local rows start as copies, whatever fails, answers are the community's, none is missing while the community is readable, and the local rows stay copies |
| ListfileTheorems.IncoherenceLosesARow | src/listfile_cache.rs:72-77 | for every incoherent pair of tables a run of one lookup loses or changes a local row |
| ListfileTheorems.LocalRowsSurviveExactlyWhen | src/listfile.rs:186-196 | no run loses or changes a local row if and only if the two tables are coherent |
| ListfileTheorems.OnePathTwoIdsLosesTheLocalRow | src/listfile.rs:186-196 | looking up community id 2 of path a loses the local row (1, a) |
| ListfileTheorems.AnswersAreKept | src/listfile.rs:198-206 | memory only grows, and an answer given is in it afterwards |
| ListfileTheorems.FirstAnswerIsFinal | src/listfile.rs:99-128 | over any, even conflicting and changing, tables the first answer for an id or a path is the answer to every later call |
| ListfileTheorems.MapsStayDomainClosed | src/listfile.rs:198-206 | in every sequential run each cached path is a key of the path map and each id of the path map a key of the id map |
| ListfileTheorems.MemoriesStayDomainClosed | src/listfile.rs:198-206 | the same for every process over any two tables and every interleaving of threads, crashes and failures |
| ListfileTheorems.MemoriesOnlyGrow | src/listfile.rs:198-206 | over every interleaving a process that is not killed keeps every row of its memory as it is |
| ListfileTheorems.NormalisedPathsAreTheSameCall | src/listfile.rs:113-128 | a path and its lower-cased form are one question over any memory and tables: same answer, memory and stored row |
| ListfileTheorems.UninterruptedLookupIsACall | src/listfile.rs:89-206 | the atomic steps of one lookup, run without interruption, give the sequential call's answer, memory and stored row |
| ListfileAgreement.AnswersAgreeExactlyWhen | src/listfile.rs:89-206 | over all interleavings of threads, processes and failures, all answers for one id or path are the same if and only if the two tables are coherent |
| ListfileAgreement.IncoherentAnswersDiffer | src/listfile_cache.rs:72-77 | for every incoherent pair of tables three lookups of three processes give two different answers to one question |
| ListfileAgreement.TwoThreadsAlternate | src/listfile.rs:113-133 | in one process a thread answers the local id of a path that memory, and so its own next call, gives to the community's id |
| LittleEndian.LeToLe | scripts/import_dbcache_keys.py:22-23 | a number written little-endian reads back |
| LittleEndian.ToLeLe | scripts/import_dbcache_keys.py:22-23 | bytes read little-endian write back |
| LittleEndian.LeAppend | scripts/import_dbcache_keys.py:22-23 | each further byte counts 256 to the power of the bytes before it |
| HotfixRecords.DecodeEncoded | scripts/import_dbcache_keys.py:32-40 | one record decodes to what was encoded and leaves exactly the rest |
| HotfixRecords.SampleDecodes | scripts/import_dbcache_keys.py:33-37 | one record given byte by byte decodes to its fields, a push of -1 among them |
| HotfixRecords.ParsesExactlyEncodings | scripts/import_dbcache_keys.py:26-41 | a byte string parses to a record list if and only if it is that list's encoding under some ignored header bytes |
| HotfixRecords.TruncationIsExact | scripts/import_dbcache_keys.py:16-41 | a prefix of a cache parses exactly when it ends after the header or a record, and then to the records before the cut |
| PushOrder.SortSorts | scripts/import_dbcache_keys.py:41 | the result ascends by push and has the same records |
| PushOrder.SortIsStable | scripts/import_dbcache_keys.py:41 | records of one push value keep their order |
| PushOrder.SortSelect | scripts/import_dbcache_keys.py:38-41 | dropping records commutes with the sort |
| PushOrder.SortedIsDetermined | scripts/import_dbcache_keys.py:41 | two ascending lists that agree inside every push value are equal |
| PushOrder.SortForgetsInterleaving | scripts/import_dbcache_keys.py:41 | lists that agree inside every push value sort to the same list |
| FileOrder.KeptIsInFileOrder | scripts/import_dbcache_keys.py:38-39 | what is kept of a file is exactly its records of the two tables, in file order, each with its own push, table, row, status and payload |
| FileOrder.SortedKeptIsSelected | scripts/import_dbcache_keys.py:38-41 | sorted, it is exactly those records by push, and by place in the file inside one push |
| HexText.NumberPrintsReversed | scripts/import_dbcache_keys.py:60 | printing a little-endian number in hexadecimal prints its bytes in reverse |
| HexText.HexNumberReadsBack | scripts/import_dbcache_keys.py:60 | the text of a number that fits its width stands for that number, digit by digit |
| HexText.HexBytesAt | scripts/import_dbcache_keys.py:60 | each two characters stand for one byte |
| Harvest.ReadOne | scripts/import_dbcache_keys.py:33-37 | the four takes of the loop body decode one record or fail as the specification does |
| Harvest.ReadBody | scripts/import_dbcache_keys.py:30-40 | the offset loop terminates and collects exactly the two tables' records of the whole body, field by field and in file order |
| Harvest.ReadRecords | scripts/import_dbcache_keys.py:26-41 | returns exactly the two tables' records of the file, field by field, by push and by place inside one push, or the parse error |
| Harvest.ApplyRecords | scripts/import_dbcache_keys.py:51-60 | the loop ends with both folds of the events, and fails exactly when a valid payload has the wrong size, naming the row of the first such record |
| Harvest.NamesAreLastEvents | scripts/import_dbcache_keys.py:46-60 | a row has a name exactly when its last lookup record is valid and gives it, or it has none and the base lookup gives it |
| Harvest.KeysAreLastEvents | scripts/import_dbcache_keys.py:47-60 | a row has a key exactly when its last valid key record gives it, that record also being its last one unless a valid cached key exists |
| Harvest.MatchedIsLastNamed | scripts/import_dbcache_keys.py:61 | a name maps to the key of the last key row, in dict order, that goes by it |
| Harvest.AscendingIsUnique | scripts/import_dbcache_keys.py:62 | the sorted listing of a set is unique |
| Harvest.SortedRows | scripts/import_dbcache_keys.py:62 | lists a set of rows in ascending order |
| Harvest.MatchKeys | scripts/import_dbcache_keys.py:61 | the comprehension over the key rows computes the join |
| Harvest.HarvestCache | scripts/import_dbcache_keys.py:44-62 | from bytes to matched names and ascending unmatched rows as specified, errors and the row they name included |
| HarvestOrder.IndexIsInsertion | scripts/import_dbcache_keys.py:47-60 | the loop's bookkeeping of dict places is the event that inserted the row: its first valid key record, or without retention the first of the valid ones that end its key records |
| HarvestOrder.InsertionIsUnique | scripts/import_dbcache_keys.py:47-60 | at most one event inserted a row where it stands |
| HarvestOrder.OrderIsInsertionOrder | scripts/import_dbcache_keys.py:47-61 | the dict lists its rows in the order of the events that inserted them |
| HarvestTheorems.HarvestIsTheJoinOfLastEvents | scripts/import_dbcache_keys.py:44-62 | unmatched rows are exactly those with a key and no name by their last applicable events; a name is matched to a key exactly when it is that of the row, among the key rows of the name, inserted last |
| HarvestTheorems.EveryKeyRowIsReportedOnce | scripts/import_dbcache_keys.py:61-62 | every key row is unmatched or has its name among the matched, never both |
| HarvestTheorems.HarvestForgetsInterleaving | scripts/import_dbcache_keys.py:41-62 | record lists with the same key records and the same lookup records inside each push value harvest the same, failures included |
| HarvestTheorems.HarvestHasStoreShape | scripts/import_dbcache_keys.py:60-61 | over an empty base or one read by read_lookup, matched names are 16 and keys 32 upper-case hexadecimal digits |
| HarvestTheorems.BaseIsShaped | scripts/import_dbcache_keys.py:86-91 | every name read_lookup yields is 16 upper-case hexadecimal digits |
| HarvestFile.HarvestOfFile | scripts/import_dbcache_keys.py:44-62 | over the file's own records: the harvest fails exactly on an applying record of the wrong size; a row is unmatched exactly when it has a key and no name by the records that apply last; a name is matched to a key exactly when it is that of the key row of the name put there last |
| HarvestFile.HarvestFailsExactlyWhen | scripts/import_dbcache_keys.py:57-59 | the error names the row of the wrong-sized record that would have applied first |
| HarvestFile.HarvestListsExactly | scripts/import_dbcache_keys.py:61-62 | the returned listings are the nameless key rows in ascending order and the matched names with their keys |
| LookupDb2.WordsOfZeros | scripts/import_dbcache_keys.py:82 | a payload is all zeros exactly when every name in it is zero |
| LookupDb2.ReadRows | scripts/import_dbcache_keys.py:86-88 | the id loop applies the section's rows in order, reading only inside the input |
| LookupDb2.MakeCopies | scripts/import_dbcache_keys.py:89-90 | the copy loop takes each source's value at that moment and fails on the first missing source |
| LookupDb2.ReadBody | scripts/import_dbcache_keys.py:79-90 | one section's checks, takes and loops update the rows as its decoding says |
| LookupDb2.ReadSections | scripts/import_dbcache_keys.py:77-91 | the section loop applies the sections left to right up to the first that fails |
| LookupDb2.ReadLookupFile | scripts/import_dbcache_keys.py:65-91 | the whole reader equals its specification, errors included |
| LookupWriter.SectionReadsBack | scripts/import_dbcache_keys.py:78-90 | a written section decodes to itself, or to the unreadable error exactly when it is keyed and all zeros |
| LookupWriter.DescribedFileReadsBack | scripts/import_dbcache_keys.py:65-91 | any file with the supported layout whose sections lie anywhere reads as the left-to-right update |
| LookupWriter.WrittenFileIsDescribed | scripts/import_dbcache_keys.py:65-91 | the writer produces such a file for any number of sections, ids and copies |
| LookupWriter.ReadInvertsWrite | scripts/import_dbcache_keys.py:65-91 | the reader inverts the writer: rows, then copies, section by section, failing exactly where that update does |
| LookupExact.SectionDecodesExactlyWhen | scripts/import_dbcache_keys.py:78-90 | a header decodes to a section if and only if the file holds that section's encoding there and it is not a keyed section of zeros |
| LookupExact.LayoutAcceptedExactlyWhen | scripts/import_dbcache_keys.py:66-75 | the layout test accepts exactly the supported preambles and field storage, with their number of sections |
| LookupExact.ReadsExactlyWhenHeld | scripts/import_dbcache_keys.py:65-91 | the reader yields rows if and only if the file is laid out for some sections, holds each of them, none unreadable, and their left-to-right update yields those rows |
| LookupExact.RowIsLastId | scripts/import_dbcache_keys.py:86-88 | a row has the text of its last id's name, or what it had |
| LookupExact.RowIsLastCopy | scripts/import_dbcache_keys.py:89-90 | a row has what the source of the last copy to it had at that moment, or what it had |
| LookupExact.CopiesFailExactlyWhen | scripts/import_dbcache_keys.py:89-90 | the copies fail exactly when the source of some copy is missing at its turn |
| KeyStoreText.ParseStoreText | scripts/import_dbcache_keys.py:94-105 | the line loop equals the parser's specification, errors included |
| KeyStoreText.JoinedLines | scripts/import_dbcache_keys.py:96-121 | joining texts with a newline joins their lines, with at most one blank line between, also around carriage returns |
| KeyStoreText.JoinedTextParses | scripts/import_dbcache_keys.py:94-121 | text appended after a newline is parsed on top of what was there |
| KeyStoreText.StrippingKeepsTheStore | scripts/import_dbcache_keys.py:121 | dropping final newlines does not change the parsed store |
| KeyStoreText.UniversalKeepsLines | scripts/import_dbcache_keys.py:96-112 | reading in text mode, which makes every newline one character, changes no line |
| StoreMeaning.SplitLinesExactlyWhen | scripts/import_dbcache_keys.py:96 | cutting a text gives exactly the lines it has, by their breaks |
| StoreMeaning.FieldsExactlyWhen | scripts/import_dbcache_keys.py:97 | splitting a line gives exactly the words it has, by the spaces around them |
| StoreMeaning.LineSays | scripts/import_dbcache_keys.py:97-104 | a line is ignored exactly when it has no words or starts with a hash, and gives a name a key exactly when its first two words are numbers of 16 and 32 characters and name and key are their capitals |
| StoreMeaning.StoreExactlyWhen | scripts/import_dbcache_keys.py:94-105 | a text parses exactly when each line is ignored or gives a name a key, and then a name has the key of the last line for it |
| StoreMeaning.LessExactlyWhen | scripts/import_dbcache_keys.py:117 | one name sorts before another exactly when the first difference, or being its beginning, says so |
| StoreMeaning.MergeAppends | scripts/import_dbcache_keys.py:117-121 | a merge that adds names leaves the old text, final newlines aside, and appends one ended line for each added name in ascending order |
| KeyStore.SortedNames | scripts/import_dbcache_keys.py:117 | lists a set of names in strictly ascending order |
| KeyStore.Store.constructor | scripts/import_dbcache_keys.py:108-112 | a store starts as the file it names |
| KeyStore.Store.MergeStore | scripts/import_dbcache_keys.py:108-122 | result and file are those of the merge relation: parse error, a name that conflicts, nothing to add, or the appended lines; an unreadable store or a write that is needed and fails changes nothing |
| KeyStore.MergeIsUnion | scripts/import_dbcache_keys.py:108-122 | after a successful merge the text parses to the old store united with the additions |
| KeyStore.RepeatedMergeWritesNothing | scripts/import_dbcache_keys.py:117-119 | a repeated merge returns no names and writes nothing |
| KeyStore.MergesCommute | scripts/import_dbcache_keys.py:108-122 | one order of two merges goes through exactly when the other does, also where a first merge conflicts with the store, and then both leave the same parsed store |
| KeyStore.FailedMergeWritesNothing | scripts/import_dbcache_keys.py:113-116 | a merge fails exactly on a malformed store or a conflict, and then leaves the text unchanged |
| Importer.AddKeys | scripts/import_dbcache_keys.py:154-157 | one cache's pairs are added, or a name on which it contradicts an earlier cache is reported |
| Importer.GatherIsTheUnion | scripts/import_dbcache_keys.py:149-158 | the additions are exactly the pairs the caches contribute, and gathering fails exactly when no such map exists |
| Importer.HarvestOne | scripts/import_dbcache_keys.py:149-153 | an absent cache contributes nothing, a present one its harvest |
| Importer.GatherKeys | scripts/import_dbcache_keys.py:149-158 | the loop over the caches computes the gathered map or fails with it |
| Importer.GatheredIsShaped | scripts/import_dbcache_keys.py:146-159 | what is gathered always has the shape the store needs |
| Importer.ContributionsAreLastKeys | scripts/import_dbcache_keys.py:44-62 | a pair is contributed exactly when the records of some cache file match the name to the key |
| Importer.HarvestsExactlyWhen | scripts/import_dbcache_keys.py:149-153 | a cache stands in the way exactly when its file does not parse or an applying record has the wrong size |
| Importer.Import | scripts/import_dbcache_keys.py:140-159 | the whole import succeeds exactly when nothing stands in its way; then the store parses to the old one united with the pairs the caches contribute and the names that were new are returned in order, and otherwise it is as it was |
| Identity.New | src/identity.rs:12-23 | accepts exactly the two products with 32 hexadecimal digits, reports the product first, and keeps the product and the key's digits in small letters |
| Identity.SameIdentityExactlyWhen | src/identity.rs:19-22 | two accepted keys name one identity exactly when they have the same digits in either case |
| Identity.AssetPathIs | src/identity.rs:32-42 | an asset path is the root, the identity's three directories and the relative path |
| Identity.QualifiersDiffer | src/identity.rs:32-37 | distinct identities have distinct directories, none of whose inner names is products |
| Paths.AcceptedIsInside | src/paths.rs:144-171 | every accepted path lies in the identity's own root with only plain components below it |
| Paths.ScopedExactlyWhen | src/paths.rs:144-183 | a path is scoped to q if and only if q is the shared root, the identity's directories unless already there, and what the path is below the source root, else the shared root, else the data directory, that being plain and no other identity's |
| Paths.RefusedExactlyWhen | src/paths.rs:144-183 | which of the three errors a refused path gets |
| Paths.RemapIs | src/paths.rs:185-193 | without an identity a path below the source root, or else in the data directory, moves below the shared root, and any other stays |
| Paths.RemapFromNowhere | src/paths.rs:185-193 | without a source root an absolute path stays itself |
| Paths.IdentitiesNeverMeet | src/paths.rs:144-171 | what two identities accept is never equal nor a prefix of one another |
| Paths.ForeignPathsAreRefusedExactlyWhen | src/paths.rs:144-183 | a path qualified for another product or build is refused if and only if what is left of it below the source or the shared root has a component that is no plain name or a products directory not the own one; off the source root that is always so |
| Paths.ForeignSourceRootIsAdopted | src/paths.rs:144-183 | with the other's namespace as source root its files are scoped into the own namespace |
| Paths.IdempotentExactlyWhen | src/paths.rs:144-183 | a path inside the namespace scopes to itself if and only if the source root is the shared root, is off the path, or is the namespace with no nested products |
| Paths.ScopingTwice | src/paths.rs:144-183 | scoping any accepted path twice is scoping it once under exactly that test |
| DecimalText.DecimalIsInjective | src/casc_resolver.rs:563-568 | two numbers print alike only if equal |
| DecimalText.DecimalReadsBack | src/casc_resolver.rs:563-568 | the printed digits stand for the number, without leading zeros |
| AtomicWrite.TemporaryNameIsInjective | src/casc_resolver.rs:563-568 | a temporary's name determines the destination's name, the process and the number, whatever dots the name has |
| AtomicWrite.LiveTemporariesDiffer | src/casc_resolver.rs:555-568 | two writers in flight have different temporary names when their numbers are below their process's counter and unique in it |
| AtomicWrite.StepKeepsInv | src/casc_resolver.rs:569-577 | over destinations none of which could be another's temporary, every write, rename, failure or crash keeps each live temporary holding what its writer has written so far |
| AtomicWrite.NoLiveNamesShared | src/casc_resolver.rs:555-568 | in every run, whatever its destinations, no two live writers share a temporary name |
| AtomicWrite.ReadersSeeWholeWrites | src/casc_resolver.rs:552-578 | after any interleaving with failures and crashes over such destinations, every file that is no possible temporary is absent, original, or the whole data of the last finished write: the writers refine single assignments |
| AtomicWrite.ClashEmptiesAFile | src/casc_resolver.rs:563-569 | whenever one allowed destination could be another's temporary, two steps of a call empty it though no write to it finished |
| AtomicWrite.AtomicExactlyWhen | src/casc_resolver.rs:552-578 | for any set of destinations callers may name, every write to them is atomic in every run if and only if none of them could be another's temporary |
| AtomicWrite.NoTemporaryIsLeft | src/casc_resolver.rs:569-577 | unless a call is killed, fails to write or fails to clean up, no temporary outlives its call |
| Extraction.Process.constructor | src/casc_resolver.rs:585-591 | a process starts with no CASC states |
| Extraction.Process.OpenCasc | src/casc_resolver.rs:580-593 | result and state map are those of the specification: one entry per cache root and identity, made by the first caller |
| Extraction.Process.EnsureInitialized | src/casc_resolver.rs:242-259 | the first outcome of initializing is kept and returned |
| Extraction.Process.Extract | src/casc_resolver.rs:466-515 | adds the decoded file or nothing, in the order of checks the code makes |
| Extraction.Process.EnsureFileCachedChecked | src/casc_resolver.rs:371-395 | result, files and states are those of the specification in every branch |
| ExtractionTheorems.CurrentPathIs | src/casc_resolver.rs:397-412 | the current path is the same inner path under the active build's directories |
| ExtractionTheorems.StrippingCannotFail | src/casc_resolver.rs:408-410 | the strip-prefix error is unreachable |
| ExtractionTheorems.CallAdds | src/casc_resolver.rs:371-395 | one call changes no file or adds exactly the returned one with its provenance |
| ExtractionTheorems.Provenance | src/casc_resolver.rs:371-488 | over whole runs with patches between calls existing files are untouched and every added file is the plaintext of an asked-for id through the tables of the build active during that call, in that build's namespace |
| ExtractionTheorems.OnlyActiveBuildsGrow | src/casc_resolver.rs:397-412 | the namespace of a build that is never active gains no file |
| ExtractionTheorems.OkIsTheAskedForAsset | src/casc_resolver.rs:371-395 | when callers name files consistently an Ok is the asked-for id's complete plaintext through the published or the active build's tables |
| ExtractionTheorems.OutcomesAreLatched | src/casc_resolver.rs:242-259 | the first outcome of opening and of initializing a namespace is every later one, failures included |
| ExtractionTheorems.ActiveExactlyWhen | src/casc_resolver.rs:580-584 | the active build is that of the resolver's product, or without an identity of the selected one, with its key's digits in small letters |
| ExtractionTheorems.UnidentifiedPathStays | src/casc_resolver.rs:397-403 | without an identity there is no other current path |
| ExtractionTheorems.ExtractsExactlyWhen | src/casc_resolver.rs:466-515 | an extraction succeeds exactly when the archive may be opened, opens, initializes and gives the file, whole if there is an identity, and the file can be written; only then does a file change |
| ExtractionTheorems.PublishedComesFirst | src/casc_resolver.rs:371-395 | a published file is the answer and nothing is opened for it; in extracted-only mode nothing ever is |
| ExtractionRuns.InterleavedProvenance | src/casc_resolver.rs:371-488 | with file tests, fetch and rename of several processes interleaved, killed and patched between, files that were there are untouched and every other one holds what some call writes there |
| ExtractionRuns.SecondRenameReplaces | src/casc_resolver.rs:378-394 | two calls that write different bytes to one path and both found it absent: the later rename replaces the file |
| ExtractionRuns.FilesStayExactlyWhen | src/casc_resolver.rs:371-395 | over all interleavings no existing file is ever replaced if and only if calls that write one path write the same bytes |
| ExtractionRuns.ConsistentNamesAgree | src/casc_resolver.rs:371-395 | callers that name files consistently never replace one |
| ExtractionRuns.UninterruptedCallIsEnsured | src/casc_resolver.rs:371-395 | the steps of one call, run without interruption, make one reply, the sequential call's path or error, and leave the files the sequential call leaves |
| ExtractionWrites.WritersRefineRenames | src/casc_resolver.rs:371-578 | with the writer's open, writes, rename, failures and kills in place of each rename, every interleaving makes the replies and leaves the files, apart from possible temporaries, of one whose renames are single steps |
| ExtractionWrites.FilesAreWholeAndExplained | src/casc_resolver.rs:371-578 | on a disk with left-over temporaries, every file that is no possible temporary is as it was or holds the whole of what some allowed call writes there |
| ExtractionWrites.UnclearCanTell | src/casc_resolver.rs:563-569 | if a file that a call names could be a temporary of one that is written, the first steps of one call make it appear |
| ExtractionWrites.CallsCannotTellExactlyWhen | src/casc_resolver.rs:371-578 | what calls see of the files they name is that of one-step renames in every run if and only if none of these files could be a temporary of one that some call writes |
| Fnv.Fnv1a64 | src/listfile_cache.rs:22-28 | the loop computes the fold from the offset basis |
| Fnv.StepUndone | src/listfile_cache.rs:25-27 | each step is undone by the prime's inverse modulo 2 to the 64th and the same byte |
| Fnv.FoldIsABijection | src/listfile_cache.rs:22-28 | for each suffix the incoming and the outgoing state determine each other |
| Fnv.OneByteApart | src/listfile_cache.rs:13-28 | source paths that differ in exactly one byte get different keys |
| Fnv.PublishedKeys | src/listfile_cache.rs:22-28 | the published keys of the empty text and of one letter |
| Fnv.XorIsBitwise | src/listfile_cache.rs:25-27 | a bit of the exclusive or is set exactly where the two numbers differ |

## Left out

- BLTE parsing, decryption, the root and encoding file formats, indices and archives live in crates that are not part of this model; hashes and parsers are uninterpreted functions, archive reads are parameters.
- SQLite internals: a table is a map with its unique keys, a transaction a pending copy, and each call works or fails as a whole; busy timeouts and lock waits are not modelled, and concurrent rebuilds of one community cache are taken as serialised.
- ListfileRuns.StepIsOk: the community table is fixed during a run; the sequential theorems allow it to change between calls.
- KeyStoreText.ParseStoreText: does not model int() of non-ASCII digits.
- KeyStore.Store.MergeStore: the store file is replaced in one step under its lock; temp-then-rename is proved once, in AtomicWrite.
- AtomicWrite.NoLiveNamesShared: the 64-bit counter does not wrap, and file names are text without lossy decoding.
- Extraction.Process.Extract: the write is one step here, and its steps are in ExtractionWrites; the fallback to listfile paths needs a CASC state without an identity, which the code never makes.
- ExtractionTheorems.Provenance: resolvers without an identity and direct extraction to a caller's path are not covered, because they may write anywhere.
- Fnv.OneByteApart: the hexadecimal file name made from the key is not modelled.
- SoloRebuild.RealPublisherFinishes: page spills are not bounded, because SQLite decides when to spill.
- Error messages: one constructor stands for each kind of failure.
- The JSON report the importer prints.
- Install discovery, environment variables, default roots, the command-line tools, logging, async bridging and the process-wide runtime mode latch: plumbing without a hard property.
- Windows path prefixes and case-insensitive file systems.
