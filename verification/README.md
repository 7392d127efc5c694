# rekam: a verified model

rekam is a versioned note store with typed wiki-links, a link graph, a manager of per-tenant
database handles and lease-gated replication. This project models the parts of it that carry
invariants over time and proves what they promise.

- `Text`, `Links`: the three text folds the program mixes (SQLite's `lower(trim())`, Go's
  `ToLower(TrimSpace())`, and link normalization) and the wiki-link parser.
- `Store`: the memory store as a state machine over its tables (live rows, revisions, tombstones,
  edges). A step is one transaction on the single connection (`internal/db/open.go:17`); a failed
  step changes nothing. `MemoryDB` is the store as a class whose methods update the tables and are
  proved equal to the steps. `StoreInvariant`, `StoreIndex` and `StoreHistory` hold the theorems
  over whole runs from the empty store; `StoreOutcomes` says what each operation answers.
- `Engine`, `DocsSync`: two clients of the store, restoring a revision and syncing the documents.
  `Counterexamples`: runs in which the store falls short of what its comments promise.
- `ManagerSteps`: the handle manager as interleaved steps at lock granularity. `ManagerPool`: its
  loops, run without interruption, on a class; `UninterruptedClose` connects the two.
- `Lease`: the write-lease protocol of any number of nodes, with a clock, down to the two locks of
  `RequirePrimary`. `LeaseExclusion`: exactly when exclusion survives a release. `Replication`: one
  node's tenant map and the leaser, run without interruption and proved against the protocol's
  functions.
- `RateLimit`, `Srs`: the token bucket and SM-2 scheduling over reals.
- `Scopes`, `Graphs`, `GraphProperties`: the scoped link graph. `Paths`, `Catalog`: dotted paths and
  the catalog roll-up.

## What the proofs found

Some promises hold only under a condition; the model keeps the code and proves the exact condition.

- Link resolution asks for `lower(trim(title))`, healing for the title with interior whitespace
  collapsed as well. For a title such as `a  b` the two differ: a dangling `[[a b]]` is healed to it,
  while a new `[[a b]]` dangles. `InsertSettledIff`, `UpdateSettledIff`, `LinkFindsIff` and
  `RebuildOrderIndependentIff` say exactly when this shows, and `HealingOutrunsResolution` is a run
  in which it does. A title is *plain* (`Text.Plain`) when the two agree on it, which a single
  interior tab already prevents (`Text.PlainIff`).
- The comment on `titleConflict` says the check and resolution never disagree, and the error type
  says it compares case- and whitespace-insensitively. Go trims tabs and newlines, SQLite spaces
  only, and interior whitespace counts: a title ending in a tab can be inserted twice
  (`RetakenTitleIff`, `TitleTakenTwice`). Uniqueness holds for names that are trimmed (`NamesStayUnique`).
- The first comment on `Delete` says inbound edges are reset to dangling; the code keeps them bound
  to the deleted id, and so does the model.
- An update that sets an empty format stores it in the row but records `markdown` in the revision
  (`HeadRepeatsRowIff`). No caller can supply one: the engine turns it into `markdown`
  (`internal/engine/engine.go:219-225`), a restore copies a revision, and the documents default it
  (`internal/docs/docs.go:150-153`); for such runs the two agree (`HeadRepeatsRow`).
- Code between single backticks is left out of link parsing, but a backtick that stands in a row with
  others may open or close a fence instead, since fences are removed first (`TickIsCode`, `TicksInARow`).
- A rebuild forgets bindings to deleted memories (`RebuildForgetsTombs`), so their permanence is
  stated over inserts, updates and deletes.
- `docs.Sync` removes one record a title, so a store in which two records already share a title is
  not fully cleaned at once (`SharedTitleStays`, `SharedTitleSurvives`) but only by repeated syncs
  (`RepeatedSyncCleans`), and a new document whose folded title is taken stops it.
- Deactivation releases the lease after leaving the tenant map. When the tenant is activated again
  on the same node in between, the late release clears the lease the new activation holds, since
  the leaser does not compare generations. Mutual exclusion is therefore proved for runs with
  *quiet* releases. That is exact: after any other release timely and quiet steps lead to two nodes
  that admit (`ReleaseSafeIff`, `OverlapBreaksExclusion`), and such a release is reached from the
  start (`OverlapIsReachable`).
- `RequirePrimary` finds the tenant state under one lock and reads it under another, and
  deactivation never clears `isPrimary`. A call that found the state before it was removed may
  return nil after its lease has been released and taken by another node, although every attempt is
  timely and every release quiet (`StaleCallIsReachable`). Exclusion is proved for calls whose state
  is still in the map when they read it, and for all calls when releases wait for pending ones; that
  a release needs exactly this is `ReleaseSafeIff`.
- An undo of a restore can be refused (`UndoIff`, `UndoIsRefused`).
- The limiter reads the clock before it takes its lock (`internal/api/ratelimit.go:140-146`), so
  stamps reach a bucket out of order. The bound of a bucket that is never dropped needs no order
  (`SoloRateBound`). With eviction, the bound and the independence of keys hold up to stamps four and
  a half windows late and for no larger slack (`SlackIff`).
- `Graph` reads memories, edges and tombstones in three statements without a transaction
  (`internal/db/graph.go:58-77`). A delete in between puts an id in both the first and the last, so
  that it can be drawn twice and a tombstone can bridge (`NodeDrawnTwice`, `TombstoneBridges`); when
  is in `BuildGraph` and `NoTombBridgesIff`.
- A restore checks the branch the memory is in, but unlike an update not the one it writes
  (`internal/engine/engine.go:569-581`), so it can leave the scope (`RestoredBranchIff`).
- A catalog entry with the empty path, which a leaf such as `.x` folds to, cannot be drilled into.
  `validTaxonomy` (`internal/engine/engine.go:1995-1997`) keeps such paths out of written memories.

## Model

| member | source | states |
|---|---|---|
| `Text.FoldsAgree` | internal/db/memory.go:164-181 | the conflict check's `ToLower(TrimSpace)` of a title is SQL's `lower(trim(title))` if and only if that leaves nothing for Go to trim |
| `Text.GoFoldTrimmed` | internal/db/memory.go:168-173 | the name the conflict check asks for is trimmed, whatever the title |
| `Text.NormalizeLinkIsNorm` | internal/db/links.go:78-83 | link text, whatever was between the brackets, holds no letter `A` to `Z`, starts and ends with no whitespace, and has a space for every run of whitespace other than the vertical tab |
| `Text.FoldsIgnoreCase` | internal/db/memory.go:164-181 | strings that agree at each position up to the case of an ASCII letter have the same Go fold, SQL fold and link text, and none of these holds a letter `A` to `Z` |
| `Text.SameNameIff` | internal/db/memory.go:164-181 | two trimmed titles have one name if and only if they agree up to case |
| `Text.FoldsIgnoreSpace` | internal/db/memory.go:168-173 | whitespace around a title changes neither its Go fold nor its link text |
| `Text.NormalFold` | internal/db/links.go:78-83 | a title whose SQL fold is already well-formed link text is healed under that same text |
| `Text.PlainIff` | internal/db/links.go:78-83 | healing and resolution read a title the same way (the title is plain) if and only if its SQL fold is well-formed link text |
| `Text.NormFixed` | internal/db/links.go:78-83 | link text is a fixed point of link normalization and of SQL's fold, so resolving by `raw` and healing by normalized title ask the same question of it |
| `Links.ParseLinks` | internal/db/links.go:44-63 | the loop with its `seen` set returns the specified parse |
| `Links.ParseIsExact` | internal/db/links.go:44-76 | on arbitrary text: no (rel, raw) twice, all targets normalized and non-empty; so the plain INSERTs never meet a taken (src, raw, rel) key |
| `Links.ParseFindsLinks` | internal/db/links.go:44-76 | a link is parsed if and only if somewhere in the text without its code a bracketed, bracket-free link stands that splits into it and names something |
| `Links.MatchesAreLinks` | internal/db/links.go:12-14 | what the pattern matches, in order: each time the first link from the end of the one before, and every `[[x]]` with a non-empty bracket-free `x` is among them |
| `Links.StripCodeLaw` | internal/db/links.go:15-16 | code removal takes out the first span from a tick to the next tick after it, and goes on behind it |
| `Links.UnpairedStays` | internal/db/links.go:15-16 | text in which no tick follows another is left alone |
| `Links.FenceIsCode` | internal/db/links.go:15-46 | a fenced block, up to the first closing fence, plays no part: the text parses as it would without the block |
| `Links.TickIsCode` | internal/db/links.go:16-46 | nor does text between single ticks, unless the second one is followed by another |
| `Links.FencesBeforeTicks` | internal/db/links.go:44-46 | fences go first: a lone tick inside a block does not pair with one behind it |
| `Links.SplitRelCases` | internal/db/links.go:65-76 | what stands before the first `::` is the relation if it is one of the vocabulary under Go's fold; else all of it is the target of a plain link |
| `Links.NoRelation` | internal/db/links.go:65-76 | text without `::` is the target of a plain link |
| `Links.ParseBare` | internal/db/links.go:44-76 | `[[x]]` parses to the one plain link to the normalized `x` |
| `Links.FirstsInOrder` | internal/db/links.go:44-63 | links come out in the order of their first mention |
| `Links.ParsePrint` | internal/db/links.go:12-76 | round trip: any distinct links with printable targets, printed as `[[rel::raw]]` between bracket- and backtick-free separators, parse back to the same list |
| `MemoryDB.MemoryDB.constructor` | internal/db/memory.go:253-359 | a new store is empty and satisfies the store invariant |
| `MemoryDB.MemoryDB.TitleConflict` | internal/db/memory.go:168-181 | finds the other live memory holding the title under Go's fold, if there is one |
| `MemoryDB.MemoryDB.SyncEdges` | internal/db/memory.go:1144-1195 | the imperative sync leaves exactly the specified edge table, and each reported link status is true of it after healing |
| `MemoryDB.MemoryDB.LinkAll` | internal/db/memory.go:1144-1182 | the loop over the links replaces the source's rows and no other; every INSERT finds its key free |
| `MemoryDB.MemoryDB.DeletedTargets` | internal/db/memory.go:1120-1139 | exactly the source's rows bound to tombstones |
| `MemoryDB.MemoryDB.LinkOne` | internal/db/memory.go:1160-1182 | a binding to a deleted memory wins over a live holder of the name |
| `MemoryDB.MemoryDB.Insert` | internal/db/memory.go:539-576 | refines the state machine's insert: same new state, same error, true link statuses, invariant kept, nothing changed on conflict |
| `MemoryDB.MemoryDB.Update` | internal/db/memory.go:615-686 | refines the state machine's update: missing and deleted ids, compare-and-swap, title conflict and success, each with its state and error |
| `MemoryDB.MemoryDB.Delete` | internal/db/memory.go:748-787 | refines the state machine's delete; fails exactly on an id that is not live, naming the tombstone when there is one |
| `MemoryDB.MemoryDB.RebuildEdges` | internal/db/memory.go:1394-1432 | clearing and syncing in scan order is the state machine's rebuild, and keeps the invariant |
| `MemoryDB.MemoryDB.Revisions` | internal/db/memory.go:689-707 | a live memory's history is complete, versions 1 to current, newest first; a deleted one has none |
| `MemoryDB.StatusesReport` | internal/db/memory.go:1144-1195 | the statuses computed while writing stay true after healing: healing touches no row of the memory just written |
| `StoreOutcomes.InsertIff` | internal/db/memory.go:539-576 | an insert succeeds if and only if no live title has the SQL fold equal to the new one's Go fold; else the error names a memory that has it |
| `StoreOutcomes.InsertShows` | internal/db/memory.go:539-576 | the row an insert leaves, column by column, an empty format as `markdown` |
| `StoreOutcomes.UpdateIff` | internal/db/memory.go:615-686 | an update succeeds if and only if its memory is live, its base, if given, is the current version and its title, if given, is no other live memory's; else it fails with the first of these |
| `StoreOutcomes.UpdateShows` | internal/db/memory.go:615-686 | the row and revision an update leaves, column by column: what it names, and otherwise what was there |
| `StoreOutcomes.DeleteIff` | internal/db/memory.go:748-787 | a delete succeeds if and only if the memory is live; else the tombstone, if there is one, is the error |
| `StoreOutcomes.SpelledInsertClashes` | internal/db/memory.go:164-181 | inserting a title that a trimmed live one differs from in case and surrounding whitespace only is refused with that memory |
| `StoreOutcomes.SpelledUpdateClashes` | internal/db/memory.go:164-181 | the same for a rename |
| `StoreOutcomes.SpelledLinkBinds` | internal/db/memory.go:1160-1182 | a link that spells a live title, single-spaced and trimmed, in any case is bound to its memory |
| `StoreOutcomes.BareLinkBinds` | internal/db/links.go:44-83 | in particular the link of a text that is just `[[x]]` |
| `StoreOutcomes.RestoreOutcomes` | internal/engine/engine.go:673-713 | a restore answers in this order: deleted or missing memory; missing, if it may not be read; forbidden, if it may not be written; missing version; title conflict; success |
| `StoreInvariant.RunKeepsInv` | internal/db/memory.go:539-787 | every reachable store: live and deleted ids disjoint; revisions exactly 1..version with the newest equal to the row; trimmed names unique; edges exactly the parsed links, each dangling or bound to another live memory or a tombstone; no dangling row names a live memory |
| `StoreInvariant.NamesStayUnique` | internal/db/memory.go:164-181 | a title that passes the conflict check leaves every trimmed name with at most one holder |
| `StoreInvariant.HolderUnique` | internal/db/memory.go:1167-1174 | the resolution query's LIMIT 1 never has a choice in a reachable store |
| `StoreInvariant.SyncKeepsEdges` | internal/db/memory.go:1144-1195 | one sync gives its source exactly the rows its content asks for and leaves the other sources' keys alone |
| `StoreInvariant.SyncHeals` | internal/db/memory.go:1184-1193 | after a sync no dangling row names the written memory or any other |
| `StoreIndex.IndexIsCanon` | internal/db/memory.go:1144-1195 | incremental equals recomputed: after any run of inserts with plain titles, edits that rename nothing and rebuilds, in any order, the edge table is the canonical resolution of every link |
| `StoreIndex.RunKeepsSettled` | internal/db/memory.go:1144-1195 | the same over runs that delete: every row not bound to a tombstone resolves its text now |
| `StoreIndex.SettledIsCanon` | internal/db/memory.go:1144-1195 | without tombstone bindings, "every row resolves its text" and "equals recomputation" are the same |
| `StoreIndex.InsertSettledIff` | internal/db/memory.go:1184-1193 | exact condition: an insert keeps the index equal to resolution if and only if its title is plain or no dangling row waits for its normalized form |
| `StoreIndex.UpdateSettledIff` | internal/db/memory.go:1184-1193 | the same for an edit, which moreover must leave no inbound row under another name (a rename does not re-resolve inbound edges) |
| `StoreIndex.DeleteSettled` | internal/db/memory.go:748-787 | a delete keeps the index settled; its inbound rows become tombstone bindings |
| `StoreIndex.RebuildIsCanon` | internal/db/memory.go:1394-1432 | rebuilding a store without contested links gives the canonical table, whatever the table held and whatever the scan order, and the per-record heal changes nothing |
| `StoreIndex.RebuildOrderIndependentIff` | internal/db/memory.go:1394-1432 | the rebuilt table is independent of the scan order if and only if no link is contested between healing and resolution |
| `StoreIndex.ContestedDependsOnOrder` | internal/db/memory.go:1394-1432 | for every contested link, two scans of the same rows whose rebuilds differ |
| `StoreIndex.RebuildForgetsTombs` | internal/db/memory.go:1401-1403 | a rebuild forgets every tombstone binding |
| `StoreIndex.PlainIsUnambiguous` | internal/db/memory.go:1167-1193 | where all titles are plain (`Text.PlainIff`), no link is contested between healing and resolution |
| `StoreIndex.BindingIsPermanent` | internal/db/memory.go:1120-1166 | a link bound to a deleted memory keeps that destination over every run of inserts, updates and deletes in which its source stays live and keeps the link, even when the title is taken anew |
| `StoreIndex.BindingSurvivesStep` | internal/db/memory.go:1120-1166 | the same for one step |
| `StoreIndex.LinkFindsIff` | internal/db/memory.go:1167-1193 | a new link that spells a live title in normalized form is bound to that memory if and only if the title is plain |
| `StoreIndex.HealingIsComplete` | internal/db/memory.go:1184-1193 | in every reachable state no dangling row names another live memory, across inserts, renames, deletes and rebuilds |
| `StoreHistory.RunKeeps` | internal/db/memory.go:615-787 | between any two moments of a run: tombstones and creation times are unchanged, versions never fall, a deleted id never returns, and a revision reads as written until its memory is deleted |
| `StoreHistory.StepTouchesOne` | internal/db/memory.go:539-787 | a write is about one memory: every other row, tombstone, history and outgoing row stays as it is, except dangling rows that the written title fills in; a rebuild writes edges only |
| `StoreHistory.LastWriteShows` | internal/db/memory.go:539-686 | at every moment of a run each column of a live memory holds what was last written to it, by its insert or by a successful update that names the column |
| `StoreHistory.OneSwapPerBase` | internal/db/memory.go:604-686 | no lost update: of all compare-and-swaps on one (id, base) in a run, at most one succeeds |
| `StoreHistory.SwapFollowsBase` | internal/db/memory.go:615-686 | a successful compare-and-swap found the base version and wrote the next one, adding one revision and changing none |
| `StoreHistory.SwapIsRecorded` | internal/db/memory.go:578-588 | while the memory lives, the text a swap replaced and the text it wrote stay readable as neighbouring versions |
| `StoreHistory.InsertIsRecorded` | internal/db/memory.go:539-588 | an insert's fields, author and agent stay readable as version 1 |
| `StoreHistory.DeletedForEver` | internal/db/memory.go:742-811 | at every moment after a delete the id has only its tombstone (title, branch, dates, deleter, final version), no history and no outgoing row, and every write to it fails with that tombstone |
| `StoreHistory.HeadRepeatsRowIff` | internal/db/memory.go:578-588 | the newest revision equals the row, its format included if and only if the row's format is not empty |
| `StoreHistory.HeadRepeatsRow` | internal/engine/engine.go:580-585 | in every run whose updates never name an empty format, as the engine and the documents ensure, the newest revision equals the row in full |
| `StoreHistory.RetakenTitleIff` | internal/db/memory.go:164-181 | when no third memory is in the way, a live title can be inserted again if and only if Go's trim, but not SQL's, would change it |
| `StoreHistory.RestoreShows` | internal/engine/engine.go:673-713 | a restore makes the fields those of the revision, as one version more under the restorer's name, erasing nothing |
| `StoreHistory.RestoredBranchIff` | internal/engine/engine.go:695-713 | a restored memory lies in a branch the scope may write if and only if the revision's branch is one: the restore itself asks for the current branch only |
| `StoreHistory.UndoIff` | internal/engine/engine.go:673-713 | restoring the former head right after a restore succeeds if and only if the branch restored to is readable and writable and no other memory is found under the former title |
| `StoreHistory.UndoShowsHead` | internal/engine/engine.go:673-713 | what succeeds undoes: title, content, branch and format are those before the restore |
| `StoreHistory.TrimmedTitleIsOwn` | internal/db/memory.go:164-181 | a trimmed title is never found under another memory, so an undo is refused over an untrimmed title only |
| `Engine.RestoreRevision` | internal/engine/engine.go:677-713 | run without interruption, the imperative restore has the specified outcome, error and state in every case, in the source's order of checks |
| `DocsSync.Sync` | internal/docs/docs.go:130-189 | from any reachable store: succeeds if and only if no new document's title is taken; then the records are the documents if and only if the records' titles were distinct, a record whose title a document has keeps its id and is not written at all when it is that document, the reported counts are the numbers of new, changed and removed documents, of every unwanted title one record goes, the next sync succeeds, edges hold no tombstone and are canonical when no link is contested; when it fails, exactly the documents before the first refused one are in, nothing is removed and the error names its title and a record that has it; over a store in sync nothing is inserted, updated or removed |
| `DocsSync.InSyncIff` | internal/docs/docs.go:147-171 | a store holds just the documents if and only if titles are distinct, every record repeats the title, content, branch and format of a document, and every document is so repeated |
| `DocsSync.RepeatedSyncCleans` | internal/docs/docs.go:130-189 | as many successive syncs as the commonest unwanted title has records leave exactly the documents |
| `DocsSync.DocTitleUnique` | internal/docs/docs.go:78-121 | the title of a loaded document is on at most one record of any reachable store |
| `DocsSync.SyncDocs` | internal/docs/docs.go:147-171 | the loop over the documents leaves what the writes up to the first refused document amount to, and reports just those |
| `DocsSync.SyncedAfter` | internal/docs/docs.go:147-171 | those writes bring every document in, keep every listed record's title, leave what already is a document alone and add nothing else |
| `DocsSync.InsertRefusedIff` | internal/docs/docs.go:155-162 | a new document is refused if and only if a listed record or an earlier new document holds its folded title |
| `DocsSync.RemoveStale` | internal/docs/docs.go:173-181 | removal leaves exactly the documents if and only if listed titles were distinct |
| `DocsSync.RemovalFinishes` | internal/docs/docs.go:173-181 | with distinct titles, removing every listed record no document wants leaves the documents, one for one |
| `DocsSync.SharedTitleStays` | internal/docs/docs.go:142-145 | of two listed records with one title removal sees one only, so the result is not the documents |
| `DocsSync.IndexByTitle` | internal/docs/docs.go:142-145 | every listed title is indexed, each by a record that has it |
| `Counterexamples.HealingOutrunsResolution` | internal/db/memory.go:1167-1193 | three inserts from the empty store: a dangling `[[a b]]`, then the title `a  b` (healed to it, the index no longer settled, a rebuild now dependent on order), then another `[[a b]]`, which is not bound to it |
| `Counterexamples.TitleTakenTwice` | internal/db/memory.go:164-181 | two inserts from the empty store that both take the title `x` followed by a tab |
| `Counterexamples.TicksInARow` | internal/db/links.go:15-46 | a text in which a single tick closes a fence, so that taking out the code between single ticks changes what is parsed |
| `Counterexamples.UndoIsRefused` | internal/engine/engine.go:673-713 | insert, rename and a second insert after which a restore succeeds and its undo is refused |
| `Counterexamples.SharedTitleSurvives` | internal/docs/docs.go:142-181 | a sync of one complete document over two records that share another title succeeds and leaves one of them |
| `Counterexamples.NodeDrawnTwice` | internal/db/graph.go:58-137 | memories read before a delete and tombstones after it: the graph has two nodes with one id |
| `Counterexamples.TombstoneBridges` | internal/db/graph.go:208-262 | and of two links away from the center a memory is included that only a tombstone leads to |
| `ManagerSteps.LeasedHandleStaysOpen` | internal/db/manager.go:33-80 | in no interleaving of acquiring, releasing, reaping, evicting and shutting down is a leased handle closed: it is open, it is the stored one, references count the leases, and no step changes it under its holder |
| `ManagerSteps.ClosedOnceUnleased` | internal/db/manager.go:67-80 | a handle is closed at most once, and only while nobody leases its instance |
| `ManagerSteps.QuiescentCounts` | internal/db/manager.go:175-187 | whenever no instance is locked, the open map is exactly the instances with a handle, none closed, and opens minus closes is its size |
| `ManagerSteps.RunKeepsInv` | internal/db/manager.go:33-80 | the invariant on locks, handles, leases and counters holds in every state of every interleaving |
| `ManagerSteps.StepKeepsInv` | internal/db/manager.go:33-80 | each step keeps it |
| `ManagerSteps.HandleStays` | internal/db/manager.go:67-80 | a step changes a stored handle only while nothing refers to it |
| `ManagerSteps.DecidesToCloseIff` | internal/db/manager.go:67-75 | a closing that has the lock passes on to close if and only if the handle is open, unreferenced, and the TTL it was begun with is not positive or has run since the last use |
| `ManagerSteps.TtlFrom` | internal/db/manager.go:67-75 | a closing carries the TTL of its caller, and eviction none |
| `ManagerPool.UninterruptedClose` | internal/db/manager.go:67-80 | the interleaved steps of one closing, taken in a row, are the manager's atomic closing |
| `ManagerPool.UninterruptedEviction` | internal/db/manager.go:192-206 | the same for an eviction, without a TTL, after which the goroutine goes on with the Acquire it is in |
| `ManagerPool.UninterruptedAcquire` | internal/db/manager.go:33-56 | the steps of acquiring an open handle in a row: one lease and one reference more, the idle clock reset, nothing else |
| `ManagerPool.UninterruptedOpen` | internal/db/manager.go:33-56 | the same with an open in between: the handle stored, mapped and counted |
| `ManagerPool.UninterruptedRelease` | internal/db/manager.go:58-61 | the steps of one release in a row: the idle clock reset, one lease and one reference less |
| `ManagerPool.Manager.constructor` | internal/db/manager.go:125-144 | nothing is open; a non-positive TTL becomes two minutes |
| `ManagerPool.Manager.InstanceWith` | internal/db/manager.go:160-173 | gets or creates an instance without opening anything |
| `ManagerPool.Manager.CloseIfIdle` | internal/db/manager.go:67-80 | closes an open handle if and only if it has no references and the TTL is not positive or has run since the last use, says whether it did, and changes nothing else |
| `ManagerPool.Manager.LruIdleOpen` | internal/db/manager.go:209-225 | the least recently used open instance without references; none exactly when all are in use |
| `ManagerPool.Manager.EnforceBudget` | internal/db/manager.go:192-206 | evicts in least-recently-used order, only idle handles, until there is room or all are in use, and no more than needed |
| `ManagerPool.Manager.Reap` | internal/db/manager.go:241-251 | an open handle stays open if and only if it has references or was used within the TTL, which is positive |
| `ManagerPool.Manager.Shutdown` | internal/db/manager.go:254-266 | closes exactly the handles nobody uses |
| `ManagerPool.Manager.Acquire` | internal/db/manager.go:33-56 | gives out the stored or the newly opened handle with one reference more, leaves every handle in use alone, and after opening keeps to the budget unless every other handle is in use |
| `ManagerPool.Manager.Release` | internal/db/manager.go:58-61 | one reference less and the idle clock reset, nothing closed |
| `Lease.MutualExclusion` | internal/db/replicate.go:268-340 | at any moment of a run with timely attempts and quiet releases, of all calls of `RequirePrimary` that have looked their tenant up, those that would now return nil are on one node, the unexpired holder of the lease object; for calls whose tenant state is still in the map or, if releases also wait for pending calls, for all calls |
| `Lease.UninterruptedCall` | internal/db/replicate.go:324-340 | a call that nothing comes between returns nil if and only if the node's current tenant state is primary |
| `LeaseExclusion.StaleCallIsReachable` | internal/db/replicate.go:324-424 | a run from the start, timely and quiet throughout, after which another node is primary and the pending call on the first node still returns nil |
| `Lease.PrimaryIffLease` | internal/db/replicate.go:279-295 | in every run, timely or not, primary and having a lease recorded are the same |
| `Lease.StopsBeforeRelease` | internal/db/replicate.go:401-424 | in every run, when a node releases the lease of a tenant state and ever after, that state is out of the map and no call can find it; if the node still admits, it is through another, activated since |
| `LeaseExclusion.ReleaseSafeIff` | internal/db/replicate.go:401-424 | after a release, no timely and quiet continuation has calls on two nodes that would both return nil if and only if the release failed or was quiet: no newer state of the node claims the lease and, where pending calls count, no call is still to read an old state that does |
| `LeaseExclusion.OverlapBreaksExclusion` | internal/db/replicate.go:154-424 | from every state in which a release that is not quiet is due, whatever stage the claiming state is at, and for every other node, present or not and whatever it is doing, timely and quiet steps after the release lead to calls on the two nodes that would both return nil |
| `LeaseExclusion.OverlapIsReachable` | internal/db/replicate.go:154-232 | such a state is reached from the start by timely and quiet steps |
| `Lease.AttemptWinsIff` | internal/db/replicate.go:268-296 | an undisturbed attempt makes the node primary if and only if nobody holds the lease, the node itself does, or its expiry has come; the winner records the object's new expiry and generation, and a loser learns the owner |
| `Lease.FailedAttemptDemotes` | internal/db/replicate.go:284-292 | an attempt whose calls fail leaves the node not primary and without a recorded lease, whatever it held |
| `LeaseExclusion.ExpiredIsTaken` | internal/db/replicate.go:298-301 | from every state, once time has passed the expiry, the steps of any inactive node's activation lead to its admitting, whatever became of the holder |
| `LeaseExclusion.ExpiredIsRenewed` | internal/db/replicate.go:298-301 | and so do the steps of the next attempt of any active node that is not primary |
| `Lease.RunKeepsInv` | internal/db/replicate.go:268-424 | every claim to write is backed by the unexpired lease object, over whole orderly runs |
| `Replication.LeaseStore.AcquireLease` | internal/db/replicate_test.go:225-235 | the leaser's acquire: granted if and only if nobody holds the lease, the owner does, or its expiry has come, with a new generation; else the error is the holder |
| `Replication.LeaseStore.RenewLease` | internal/db/replicate_test.go:237-245 | the leaser's renew: granted exactly to the holder |
| `Replication.LeaseStore.ReleaseLease` | internal/db/replicate_test.go:247-254 | the leaser's release: clears exactly the owner's own hold, of that tenant only |
| `Replication.Node.AttemptLease` | internal/db/replicate.go:268-296 | renew-then-acquire through the leaser is the protocol's attempt, on this tenant's object only |
| `Replication.Node.EnsureActive` | internal/db/replicate.go:154-232 | run without interruption: a fault in restoring, registering or building the leaser leaves no trace; otherwise a new tenant is in the map only after its first attempt, primary if and only if it could acquire, else with the owner's hint; a known one only has its idle clock reset; other tenants' leases are untouched; each active tenant is registered and renewed, and no other |
| `Replication.Node.RequirePrimary` | internal/db/replicate.go:324-340 | run without interruption: admits exactly an active primary tenant and else says why |
| `Replication.Node.Deactivate` | internal/db/replicate.go:401-424 | removes the tenant, stops its renewal loop, releases exactly the lease it recorded and unregisters its replica |
| `Replication.Node.Sweep` | internal/db/replicate.go:380-396 | deactivates exactly the tenants idle past the TTL, releasing exactly their leases |
| `RateLimit.RateBound` | internal/api/ratelimit.go:140-177 | over any interval of any run, with any other keys and sweeps, a key is allowed at most burst plus the refill of the interval, as long as no stamp is more than four and a half windows late |
| `RateLimit.SlackIff` | internal/api/ratelimit.go:127-177 | for every burst, window and slack: the bound holds in all runs in which no stamp is later than the slack if and only if the slack is at most four and a half windows (or the burst zero), and so is the sweep unobservable |
| `RateLimit.SoloRateBound` | internal/api/ratelimit.go:140-163 | the same bound on a bucket that is never dropped, for stamps in any order whatever |
| `RateLimit.LateStampBreaksBound` | internal/api/ratelimit.go:127-177 | for every burst of at least one, every window and every larger slack, a run within the slack that exceeds the bound: an old stamp makes the bucket look idle, and it is dropped and full again within a window |
| `RateLimit.NewRefill` | internal/api/ratelimit.go:127-136 | the refill of an interval is its share of the window, of one burst a window |
| `RateLimit.NeverDeniedIff` | internal/api/ratelimit.go:140-177 | a key is never denied if and only if every stretch of its requests fits burst plus the refill between its first and last |
| `RateLimit.BurstGranted` | internal/api/ratelimit.go:140-163 | a key that makes at most burst requests, its own in order, is never denied, however fast they come and whatever other keys do |
| `RateLimit.KeysAreIndependent` | internal/api/ratelimit.go:140-177 | a key's answers, hints included, are those of a bucket alone that is never evicted |
| `RateLimit.EvictedIsFull` | internal/api/ratelimit.go:131-134 | a bucket old enough to be evicted is full for every stamp that may still come |
| `RateLimit.RetryIff` | internal/api/ratelimit.go:157-163 | after a denial the key's next request succeeds if and only if the burst is not zero and it comes no earlier than a second before the hint |
| `RateLimit.RateLimiter.Allow` | internal/api/ratelimit.go:140-163 | the method in place, with the sweep, is the specified step |
| `RateLimit.RateLimiter.SweepLocked` | internal/api/ratelimit.go:167-177 | drops exactly the buckets untouched for longer than the TTL, at most once a TTL |
| `RateLimit.NewOk` | internal/api/ratelimit.go:127-136 | the constructor's parameters, a zero burst included, make every evictable bucket full, with room for stamps four and a half windows late |
| `Graphs.BuildGraph` | internal/db/graph.go:58-137 | of any three reads of memories (with the edges as they stood then), edges and tombstones: nothing for a center that may not be read; else exactly the specified nodes, edges in row order, and ids distinct if and only if no drawn row ends in an included memory that was found among the leaves as well |
| `Graphs.SplitByScope` | internal/db/graph.go:58-90 | deleting from the node table in place leaves exactly the readable memories; tombstones and title-only memories become leaves |
| `Graphs.IncludedNodes` | internal/db/graph.go:208-262 | the breadth-first search, stopping early or not, computes the ball of the effective depth |
| `Graphs.Search` | internal/db/graph.go:240-262 | the same for the frontier loop |
| `Graphs.BallIsExact` | internal/db/graph.go:208-262 | the ball is exactly what paths of at most k links among the readable reach |
| `Graphs.DrawRows` | internal/db/graph.go:91-137 | the loop over rows draws the specified edges and attaches each leaf and dangling node once |
| `GraphProperties.EdgesAreRows` | internal/db/graph.go:96-135 | the edges are, in order, exactly the rows with an included source whose destination is missing, included or a leaf, each with the row's source, relation and destination, or the dangling node of its text |
| `GraphProperties.NodeIff` | internal/db/graph.go:91-137 | the nodes are exactly the included memories, the leaves that rows of included sources end in, and a dangling node for each text of a dangling one |
| `GraphProperties.RealNodeShows` | internal/db/graph.go:184-205 | a readable memory shows its title and branch, as authority the number of other memories' relates and depends-on rows to it, and superseded if and only if another memory says so |
| `GraphProperties.LeafShows` | internal/db/graph.go:68-90 | a leaf is a tombstone with its end, or the bare title and branch of a memory that may be known but not read |
| `GraphProperties.LinkedIff` | internal/db/graph.go:226-245 | two nodes are neighbours if and only if a row with a destination joins them, in either direction |
| `GraphProperties.EgoIsExact` | internal/db/graph.go:208-262 | with a center, the included memories are exactly those reached by a path of at most the effective depth (2 by default, 4 at most) all of whose nodes are readable: no tombstone, leaf or hidden node bridges |
| `GraphProperties.BranchIsExact` | internal/db/graph.go:208-217 | without a center, the included memories are exactly the readable ones of the branch |
| `GraphProperties.EgoGrows` | internal/db/graph.go:208-262 | a deeper request never loses a memory |
| `GraphProperties.EndpointsAreNodes` | internal/db/graph.go:91-137 | every edge joins two returned nodes |
| `GraphProperties.SnapshotDistinct` | internal/db/graph.go:58-137 | tables read at one moment give distinct ids |
| `GraphProperties.NoTombBridgesIff` | internal/db/graph.go:208-262 | whatever the edges, no path of the graph crosses a tombstone if and only if nothing readable was found among the tombstones as well |
| `GraphProperties.GraphIgnoresHidden` | internal/db/graph.go:58-137 | apart from authority and superseded, which count the edges found with the memories, the graph equals the one of the store from which everything not title-visible, and every edge touching it, is erased |
| `Srs.Deck.AddToReview` | internal/db/srs.go:46-62 | enrolling is refused for a missing memory, starts a new card (ease 2.5, due now, never reviewed), and changes nothing for an enrolled one |
| `Srs.RemovalForgets` | internal/db/srs.go:65-70 | removing a card forgets it: whatever is done afterwards goes as if nothing had been done before, whatever that was |
| `Srs.CardIsItsStory` | internal/db/srs.go:46-158 | a card depends only on the operations on its own memory since it was last removed |
| `Srs.DeckKeepsCards` | internal/db/srs.go:46-158 | in every deck that additions, removals and grades can make, every card has an ease of at least 1.3 and an interval that belongs to its repetitions |
| `Srs.Deck.Grade` | internal/db/srs.go:114-158 | the step-by-step assignments amount to one review of the card: below 3 the streak ends and the card is due now, from 3 on it grows and the card is due after its interval; grades outside 0 to 5 and missing cards are refused without a change |
| `Srs.EveryHistory` | internal/db/srs.go:114-158 | from an ease of 2.5, after any grades: ease at least 1.3, repetitions the current streak, intervals 0, 1, 6 at 0, 1, 2 repetitions and at least 6 times 1.2^(k-2) at k, due that many days after the last review |
| `Srs.PassGrows` | internal/db/srs.go:131-143 | from the second pass on the interval is interval times ease, to the nearest day with halves up, and grows strictly, by a factor of at least 1.2 |
| `Srs.StreakLengthens` | internal/db/srs.go:131-143 | each further pass of a streak strictly lengthens the interval, whatever came before |
| `Srs.LapseForgets` | internal/db/srs.go:124-128 | after a lapse the next intervals are those of a new card |
| `Srs.EaseFollowsGrades` | internal/db/srs.go:146-151 | grade 4 leaves the ease, 5 adds a tenth, a better grade never leaves less ease than a worse one and, above the floor, leaves more |
| `Catalog.RollupCatalog` | internal/engine/engine.go:273-313 | the aggregation loop returns the roll-up: ascending distinct keys, exactly the keys leaves fold to, with their sums and whether any leaf is deeper |
| `Catalog.DefaultDepth` | internal/engine/engine.go:274-281 | without a depth the roll-up goes one level below the prefix, one level without a prefix |
| `Catalog.FoldsToIff` | internal/engine/engine.go:283-294 | a leaf counts under a key if and only if the prefix is a segment prefix of it and the key is its first `depth` segments, or itself when it has no more |
| `Catalog.ExpandableIff` | internal/engine/engine.go:283-305 | an entry is expandable if and only if it lies at the depth and a leaf of the branch lies strictly below it |
| `Catalog.LessIff` | internal/engine/engine.go:307-307 | the order is that of the first difference, a proper prefix first |
| `Catalog.Conservation` | internal/engine/engine.go:273-313 | for any leaves, prefix and depth, counts sum to those of the leaves under the prefix |
| `Catalog.DrillDown` | internal/engine/engine.go:273-313 | re-calling with an expandable entry as prefix, at any depth, totals its count plus exactly the leaves of that branch outside the first prefix, which are none when the depth is at least the prefix's length; an entry with the empty path totals the whole catalog instead |
| `Catalog.RollupUnique` | internal/engine/engine.go:273-313 | the roll-up is determined by the leaves, prefix and depth |
| `Catalog.SortStrings` | internal/engine/engine.go:307-307 | ascending, with the same keys |
| `Paths.UnderIsSegmentPrefix` | internal/engine/engine.go:285-285 | the string test for a branch is the prefix order on dotted segments |
| `Paths.ScopeBySegments` | internal/db/scope.go:35-61 | what a scope may read, write and know of is what lies, by segments, below one of its prefixes |
| `Paths.FoldedPath` | internal/engine/engine.go:288-294 | the first segments of a deeper path name a branch of just those segments |

## Left out

- Characters outside ASCII: the folds are modelled on ASCII letters and whitespace; Unicode case folding is not.
- SQL's `LIKE 'p.%'`: modelled as the dotted-prefix test of `prefixMatch`, without wildcards and case folding.
- Database errors, migrations, WAL and checkpointing, full-text search and ranking: they rest on SQLite. Ids that `uuid.New` would return and scan orders are parameters.
- Timestamps, authors and agents of memories: opaque strings.
- Floating point: tokens, ease and intervals are reals, waits are not truncated to nanoseconds, and 64-bit overflow of a day count after very long streaks is not modelled.
- `Grade`'s due date is day arithmetic in seconds; calendar effects are not modelled. Listing due cards and deck statistics are read-only queries.
- RateLimit.NewOk: requires a window above zero and a burst not below it; a zero window divides by zero in floating point, and no limiter is built so (`internal/api/server.go:119-122`).
- RateLimit.RateBound: requires that no stamp is more than four and a half windows late, which is exact; see above.
- Engine.RestoreRevision: its three calls of the store run without interruption; a delete in between makes the source answer that the revision is missing rather than that the memory is deleted.
- Graphs.BuildGraph: requires that no memory id starts with `dangling:`, which generated ids never do; the order of nodes follows map iteration and is left open.
- GraphProperties.GraphIgnoresHidden: excepts the authority and superseded signals, which count every inbound edge in the source too.
- StoreIndex.IndexIsCanon: ranges over plain titles and edits that rename nothing, because renames do not re-resolve inbound edges; `UpdateSettledIff` gives the exact condition for one step.
- Lease.MutualExclusion: holds under timely attempts and quiet releases, for calls whose tenant state is still in the map; see above.
- Replication.Node.RequirePrimary: runs its two locked sections without interruption; interleaved they are the protocol's `LookUp` and `Read` steps. What a caller writes after the answer is outside the model, and so is the mode without a leaser, in which every node is primary.
- Replication.Node.EnsureActive: restoring and registering are reduced to whether they fail; the race of two activations is in the protocol's `Create` and `Install` steps. The loser of that race, and a late deactivation, unregister the replica of the path that the other one shares (`internal/db/replicate.go:219`, `internal/db/replicate.go:423`); that each active tenant is replicated is therefore stated for uninterrupted operations only.
- The generation a real object store would compare on release: the leaser's contract is the one the tests' fake keeps.
- ManagerSteps.RunKeepsInv: lets eviction pick any instance, which covers the source's choice; the least-recently-used choice is proved in `ManagerPool` for uninterrupted loops.
- ManagerPool.Manager.Acquire: the handle an open returns, or its failure, is a parameter.
- DocsSync.Sync: loading and parsing the embedded files is left out; that titles are distinct and documents complete and trimmed is what `Load` ensures (`internal/docs/docs.go:39-121`).
- Callers that use a handle after releasing it (`internal/engine/engine.go:1701-1708`): the manager's promise is about leases held.
- HTTP handlers, transport, authentication, teams, invitations, email, metrics, the command line and the web interface.
