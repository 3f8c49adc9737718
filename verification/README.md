# Verified models of the pyck backend

A Dafny project that models the protocols and algorithms the pyck services rely on, and proves what they promise.
`dafny verify dfyconfig.toml` checks all of it. One module per component:

| part | modules |
|---|---|
| stock ledger repair (hack/stockfix) | Rollup, Peeling, StockFix |
| export and import of entities (importexport) | Graphs, Records, Ordering, RowOrder, Exporting, Importing, RoundTrip, Files |
| idempotent mutations (gqltx, idempotency) | Idempotency, Retry, Canonical, Checksum, FieldWalk |
| transactional outbox (events) | OutboxTable, Outbox, OutboxOrder, OutboxTimely, OutboxBackoff, OutboxRuns |
| caches, indexes, limits | Liveness, LivenessCalls, MemKV, Datatypes, DataIndex, Projection, FrozenSlots, Admission, AdmissionLife |
| shared | Wrappers |

Code that works step by step on one object is a class whose methods are proved against specification functions.
Protocols with several participants are state machines: a `Step` per atomic operation, `Enabled` and `After`, and theorems
over every run (`IsRun`, `Reachable`). The publish loop of the outbox and the Delete and Update of the datatype cache are shown
to be runs of those steps (`Outbox.GroupDoneIsPass`, `Datatypes.DeleteIsSteps`, `Datatypes.UpdateIsSteps`).
Databases, streams, resolvers and clocks appear as parameters or as free choices of a step: a publish may be stored and its
acknowledgement lost, a commit applied and an error reported, a process may stop between any two steps.

Identifiers are opaque tokens, quantities and versions mathematical integers, time an integer that never goes back.
Every lemma switches Dafny's automatic induction off, so each inductive argument is written out.

## What the proofs found

- `repairTenant` needs one round more than there are wrong pairs on a path, to see that nothing is left. With chains of up
  to 65 repositories it therefore succeeds exactly when no path to a root holds more than 63 wrong pairs, and a chain of 64
  repositories can exhaust it, although the comment at hack/stockfix/repair.go:10-12 allows for depth 64
  (`Peeling.FullChainNeedsEveryRound`, and a ledger in `StockFix.FullChainRunsOut`). On deeper forests pairs more than 64
  steps apart do not block each other, so the condition on whole paths is sufficient and no longer necessary
  (`Peeling.TooDeepForOnePerPath`).
- The check before the commit (exit code 3) can only trip on a pair without a current row that was balanced before the
  repair and is not afterwards (`StockFix.RemainingIffUnbalanced`).
- A single-pass import of an export succeeds exactly when the references between the exported rows are acyclic; with a cycle
  some line always precedes its target (`RoundTrip.ForwardFails`). From one file per type it succeeds exactly when each row
  comes after its targets in its own file or its file after theirs (`Files.FilesKeepTargets`). That follows from acyclic
  rows when the registry's order has targets first; when the rows of two types refer to each other no order of files will do
  (`Files.CrossedTypesFail`).
- Rows of one type are exported in one fixed order, whatever order the server lists them in, if each identity field holds
  only numbers or none (`RowOrder.SortRows`, `RowOrder.SortedAlike`). Numbers are compared by value and everything else by
  its text, so with both in one field the comparison can go in a circle (`RowOrder.MixedValuesCycle`).
- The resolver caches answers by the joined text of the identity fields. The cache changes no answer for identities that
  text tells apart (`Importing.AnswerCached`), which it does when different values print differently and none contains the
  separator (`Importing.SeparatorFreeIsApart`); a value with that character in it, which the comment at
  backend/common/importexport/types.go:82-84 rules out and the code does not, can collide (`Importing.SeparatorCollides`).
- `memkv.SetWhere` leaves a stale index link exactly when it replaces an expired entry that is still linked, and
  `SetWithSecondaryKey` with a negative ttl stores an entry that never expires, where `Set` stores nothing. With an empty
  secondary key the two agree, as the comment at backend/common/memkv/store.go:144-147 has it, exactly when the ttl is not
  negative or the key already holds the value without expiry (`MemKV.EmptySecondaryIsSet`).
- A datatype version whose entity has no slot pool is accepted without bindings and without a look at its lineage. So a
  later version may have fewer bindings than an earlier one; the union over the lineage still only grows.
- A datatype `Delete` that begins after the id write of an `Update` of the same row and reaches the slug slot before its
  slug write leaves a live copy of a deleted row there (`Datatypes.SplitUpdateResurrects`), and so does a delete event
  without its slug that finds one (`Datatypes.BlindDeleteOrphans`); nothing else does (`Datatypes.NoLiveCopy`,
  `Datatypes.SlugWriteOrphans`).
- A commit that is applied while the driver reports an error takes effect without its hooks and is answered as a failure
  (`Retry.CommitsIffReached`, `Retry.HooksOfCommit`).
- Sending no variables and sending an empty variables object hash alike exactly when some variable has a default.
- The outbox keeps transaction order if no fetch skips an open row that comes before one it returns; a fetch that skips a
  locked row can go on to store a later event first (`OutboxOrder.SkippingReorders`). It need not return the group whole.
- Only the selector's first statement looks at the backoff, although the comment at
  backend/common/events/outbox_helpers.go:272-281 expects the selection to rule an early publish out. A group returned whole
  is fetched ahead of it exactly when its transaction is no longer selectable at the second statement
  (`OutboxTimely.FetchIsTimely`), for instance because another poller recorded a failure in between
  (`OutboxRuns.StaleSelectionFetchesEarly`). A fetched event is published ahead of a backoff it was not fetched with exactly
  when it was fetched with retries left, is open and not due, and a failure of it was committed between the fetch and the
  publish (`OutboxTimely.PublishesEarlyIff`), for instance by a poller that claims it after the first one's lease has run
  out (`OutboxRuns.OutlivedLeasePublishesEarly`). Without such a failure only a lease stands on it
  (`OutboxTimely.UnlessFailedLeased`).
- The 409 answer for a key in flight is unreachable: every mutation writes an in-flight row, and none is ever visible
  outside its transaction (`Idempotency.InFlightIsInvisible`); and the row can vanish after a unique violation only if the
  janitor pruned it, not because the winner rolled back as the comment at backend/common/idempotency/precheck.go:175-182
  supposes.

## Model

| member | source | states |
|---|---|---|
| Rollup.ParentsSpec | hack/stockfix/queries.go:192-199 | the parents map holds exactly the live repositories, each with its own parent |
| Rollup.ChainsWithinIffRanked | hack/stockfix/repair.go:10-12 | chains of at most n repositories exist exactly when repositories can be numbered below n from child to parent |
| Rollup.RecursiveSumsExist | hack/stockfix/queries.go:33-63 | on a forest the recursive recomputation of all quantities satisfies the rollup invariant |
| Rollup.RollupUnique | hack/stockfix/queries.go:19-32 | and it is the only one: two books that satisfy the invariant agree on every live pair |
| Rollup.ChildSumIsTotal | hack/stockfix/queries.go:33-47 | the query's child sum is the total over the set of live direct children that hold a current row |
| Rollup.RollupIsTotal | hack/stockfix/queries.go:19-63 | a book that satisfies the invariant holds, for every live pair, the total of the own quantities of all pairs from which it is reached by a chain of live repositories with rows, itself included |
| Peeling.ReadyGetsFinal | hack/stockfix/repair.go:101-126 | in a forest of any depth with at most 64 wrong pairs on a path: a pair the round may correct was wrong, and is priced at its final recursive sum, so it never needs a second row |
| Peeling.LowestDirtyIsReady | hack/stockfix/repair.go:107-126 | a wrong pair with nothing wrong below it is corrected by the next round |
| Peeling.FixableGivesReady | hack/stockfix/repair.go:70-74 | in a forest of any depth a round with something fixable has something ready: the stall error needs a cycle |
| Peeling.SettledIffExact | hack/stockfix/repair.go:60-68 | nothing fixable is left if and only if every live pair holds its recursive sum |
| Peeling.PeelDirty | hack/stockfix/repair.go:76-97 | under the same bound, a round makes exactly the ready wrong pairs right and spoils no other |
| Peeling.PeelShortensLongest | hack/stockfix/repair.go:45-97 | under the same bound, the path with most wrong pairs loses one in every round |
| Peeling.PeelTakesOnePerStretch | hack/stockfix/repair.go:104-118 | in any table, cyclic parents included: no 65 consecutive pairs of a path lose more than one wrong pair in a round, because what is ready blocks what is up to 64 steps above it |
| Peeling.PathsWithinSettle | hack/stockfix/repair.go:40-97 | in a forest of any depth, k rounds settle a book with no more than k wrong pairs on a path |
| Peeling.SettledStretches | hack/stockfix/repair.go:40-97 | in a forest of any depth, a book that k rounds settle held no more than k wrong pairs among any 65 consecutive ones of a path |
| Peeling.SettledAfterIffPathsWithin | hack/stockfix/repair.go:40-97 | with chains of at most 65 repositories: k rounds, for any k, settle a book if and only if no path to a root held more than k wrong pairs |
| Peeling.TooDeepForOnePerPath | hack/stockfix/repair.go:104-118 | with chains of 66 the two bounds part: a concrete book with two wrong pairs on a path that one round settles |
| Peeling.FixableRanksRise | hack/stockfix/repair.go:45-74 | in a forest of any depth, at the start of round k no fixable violation has rank below k, whatever ranking is chosen |
| Peeling.CorrectedOnce | hack/stockfix/repair.go:45-97 | in any table, cyclic parents and failing repairs included: a pair corrected in one round is not even violated in any of the next 64 |
| Peeling.CorrectedIffWrong | hack/stockfix/repair.go:76-97 | in a forest of any depth, when the rounds settle the book, the pairs corrected in some round are exactly those wrong at the start |
| Peeling.ShortChainsSettle | hack/stockfix/repair.go:10-12 | chains of at most n repositories settle in n rounds, for any n and whatever the book |
| Peeling.FullChainNeedsEveryRound | hack/stockfix/repair.go:45-48 | a concrete chain of n repositories that is not settled after n-1 rounds; with 64 the round limit is hit although the comment allows depth 64 |
| StockFix.CurrentIsHighest | hack/stockfix/queries.go:20-27 | a pair has a current row if and only if it has a row that is not deleted, and it is one of highest version |
| StockFix.AppendHighest | hack/stockfix/queries.go:181-189 | a row above every version of its pair, deleted ones included, becomes its current row and changes no other pair's |
| StockFix.WithCurrentRow | hack/stockfix/repair.go:60-65 | keeps exactly the violations that have a current row, each once |
| StockFix.ReadyToCorrect | hack/stockfix/repair.go:107-126 | keeps, in order, the violations that are no ancestor (within 64 steps, same item) of a fixable one |
| StockFix.UnblockedSpec | hack/stockfix/repair.go:119-125 | what is kept is exactly what is not blocked, each pair once |
| StockFix.ReadyRowsAreReady | hack/stockfix/repair.go:60-75 | the rows picked from the query's answer are exactly the ready pairs, with the quantities they should hold |
| StockFix.ListingMeans | hack/stockfix/queries.go:43-63 | the query reports exactly the live pairs whose row does not hold its own_quantity plus the quantities of its children's rows, each once, with both numbers and the row's other columns |
| StockFix.TotalsStored | hack/stockfix/repair.go:20-27 | a repaired ledger over a forest holds, in every live pair's current row, the total of own_quantity over the rows the repair began with, of all pairs from which it is reached |
| StockFix.WrongPairs | hack/stockfix/repair.go:76-97 | the pairs that got a row are those whose row did not hold that total, and no other |
| StockFix.ChildlessHoldsOwn | hack/stockfix/queries.go:49-61 | for a pair without children that total is its row's own_quantity |
| StockFix.ConvergesBounds | hack/stockfix/repair.go:40-48 | in a forest of any depth the repair converges if no path holds more than 63 wrong pairs, and only if no 65 consecutive pairs of one do; the same with chains of at most 65 |
| StockFix.HowItEnds | hack/stockfix/repair.go:45-98 | in any table the initial book alone decides whether the repair succeeds, stalls or runs out of rounds |
| StockFix.ShortChainsConverge | hack/stockfix/repair.go:40-48 | with at most 63 repositories on a chain no ledger makes the repair run out of rounds |
| StockFix.NeverStuck | hack/stockfix/repair.go:70-74 | in a forest of any depth no ledger makes the repair stall |
| StockFix.CycleStalls | hack/stockfix/repair.go:70-74 | two repositories that are each other's parent: a concrete ledger whose repair stalls |
| StockFix.FullChainRunsOut | hack/stockfix/repair.go:45-48 | a concrete ledger over a chain of 64 repositories whose repair neither converges nor stalls but runs out of rounds |
| StockFix.RemainingIffUnbalanced | hack/stockfix/fix.go:257-271 | the check before the commit finds something if and only if the repair made a rowless pair violated |
| StockFix.RowlessParentUnbalances | hack/stockfix/fix.go:257-271 | a concrete ledger that ends in exit code 3: the repair of a child unbalances a parent without a row |
| StockFix.Ledger.RepoParents | hack/stockfix/db.go:178-195 | the loop fills in the map of live repositories and their parents |
| StockFix.Ledger.MaxVersions | hack/stockfix/db.go:157-176 | per pair the highest version, soft-deleted rows included, and it is attained |
| StockFix.Ledger.RollupViolations | hack/stockfix/db.go:49-92 | lists every violated pair exactly once, with the columns of its current row; in terms of the rows: the live pairs that do not hold own_quantity plus their children's quantities |
| StockFix.Ledger.Survey | hack/stockfix/repair.go:50-70 | one round's reading half: an empty fixable list means settled, ready means ready, and every ready row is priced from the current rows |
| StockFix.Ledger.CorrectRound | hack/stockfix/repair.go:76-97 | the insert loop takes the book through exactly one peeling step and records one well-formed row per ready pair; it breaks off exactly when an insert fails, with nothing but such rows written |
| StockFix.Ledger.RunRounds | hack/stockfix/repair.go:45-98 | the book after k rounds is the k times peeled one, with at most one row per pair, and in which book each of the endings leaves it; it breaks off exactly when a query or an insert fails |
| StockFix.Ledger.RepairTenant | hack/stockfix/repair.go:28-99 | in any table and with any outcome only well-formed corrections are appended, at most one per pair; it breaks off exactly when the database fails a statement, and otherwise the initial book decides how it ends; on a forest of any depth no stall, success means recursive sums, each the total of own_quantity below, by one row for each wrong pair and no other, and comes if no path holds more than 63 wrong pairs; with chains up to 65 only then |
| StockFix.Ledger.VerifyAfterFix | hack/stockfix/db.go:208-226 | every violation of the tenant that was not unfixable before |
| StockFix.Ledger.Fix | hack/stockfix/fix.go:233-280 | any code but 0 leaves the ledger as it was; code 0 leaves only old rowless violations and on a forest the totals of own_quantity; a failed statement gives code 1; while the database answers, on a forest of any depth code 3 if and only if the repair converges and unbalances a rowless pair, and unless the commit fails, code 1 if and only if it does not converge |
| Graphs.TargetsFirstIffAcyclic | backend/common/importexport/registry.go:99-103 | a post-order walk puts all targets first if and only if the graph is acyclic |
| Graphs.FinishVertex | backend/common/importexport/registry.go:104-132 | finishing a vertex keeps: targets stand earlier, except those that lead back to their referrer |
| Records.CollectIds | backend/common/importexport/exporter.go:480-496 | the ids of a scalar or list value, skipping what is no non-empty string |
| Records.BuildNodeIndex | backend/common/importexport/exporter.go:172-184 | finds exactly the listed rows by type and id |
| Ordering.TypeSorter.Visit | backend/common/importexport/registry.go:108-126 | visiting a type finishes only types it reaches and leaves the walk's stack alone |
| Ordering.TypeSorter.DependencyOrder | backend/common/importexport/registry.go:104-132 | each distinct name once; targets first except along cycles, so always if and only if acyclic; the names reached by the first i names form a prefix |
| Ordering.RowSorter.Visit | backend/common/importexport/exporter.go:236-262 | one row of the recursion: terminates on cycles, adds nothing for a row already met, and only itself when its targets are out |
| Ordering.RowSorter.VisitTargets | backend/common/importexport/exporter.go:245-257 | all rows one reference names are walked before the row itself |
| Ordering.RowSorter.OrderForExport | backend/common/importexport/exporter.go:225-295 | every row once, cycles or not; targets first if and only if the rows are acyclic; with layered types the output is each type's sorted rows one block after another |
| Ordering.RowSorter.WalkType | backend/common/importexport/exporter.go:264-273 | the rows of one type, after all types before it |
| Ordering.LayeredTargetsOut | backend/common/importexport/exporter.go:225-274 | when types refer only to other types, acyclically, all targets of a row are out before its type's turn |
| RowOrder.RowLess | backend/common/importexport/exporter.go:301-311 | the comparison is by the first identity field whose values differ, of two numbers the smaller first and otherwise the text that comes first, and by id if none does |
| RowOrder.LessMeans | backend/common/importexport/exporter.go:296-337 | the comparison says less if and only if the first field whose values differ does, or none differs and the id does |
| RowOrder.NodeLessTotal | backend/common/importexport/exporter.go:296-311 | of two rows with different ids exactly one is less, whatever their fields hold |
| RowOrder.NodeLessTransitive | backend/common/importexport/exporter.go:313-337 | the comparison is transitive among rows that in each identity field all hold numbers or all none |
| RowOrder.MixedValuesCycle | backend/common/importexport/exporter.go:313-337 | without that it need not be: a concrete cycle of three rows with a number, a larger number and a text in one field |
| RowOrder.SortRows | backend/common/importexport/exporter.go:264-268 | sorting keeps exactly the rows, and they ascend in that order if in each field all hold numbers or none does |
| RowOrder.SortListing | backend/common/importexport/exporter.go:264-268 | the rows of every listed type, sorted, as orderForExport needs them |
| RowOrder.AscendingUnique | backend/common/importexport/exporter.go:225-226 | there is at most one ascending listing of given rows |
| RowOrder.SortedAlike | backend/common/importexport/exporter.go:225-226 | two servers that list the same rows in different orders are walked in the same order |
| RowOrder.ExportAscends | backend/common/importexport/exporter.go:275-300 | where types come out block by block, of two rows of one type the one exported first comes first in that order, as the import of append-only types demands: by slug, then by version |
| Exporting.BuildPayload | backend/common/importexport/exporter.go:189-218 | complete if and only if no identity field is missing, and then the typename with all identity values |
| Exporting.BuildReferenceIndex | backend/common/importexport/exporter.go:189-218 | keyed types only, each with the payload of exactly the rows whose identity is complete |
| Exporting.RewriteReference | backend/common/importexport/exporter.go:443-476 | left out when empty or its type is not exported, a $ref for a known id, unresolved otherwise |
| Exporting.RewriteElemsAt | backend/common/importexport/exporter.go:455-475 | a list resolves if and only if each element does, element by element |
| Exporting.RewriteMeans | backend/common/importexport/exporter.go:443-476 | outcome by outcome: unresolved exactly if the value or a list element names no known row of an exported type, written exactly as the $ref or list of $refs of its rows, left out otherwise |
| Exporting.PortableFields | backend/common/importexport/exporter.go:366-390 | an exported record carries none of the server's own fields, an id only for a create-only type without identity fields, and every other plain field |
| Exporting.PrepareRecord | backend/common/importexport/exporter.go:368-411 | the record is the typename, the plain fields and the written references, and nothing else; it fails if and only if a reference is unresolved and may not be skipped |
| Exporting.PrepareAll | backend/common/importexport/exporter.go:79-98 | no failure if and only if every scheduled row's references resolve; then one portable line per row, in order |
| Exporting.Plan | backend/common/importexport/exporter.go:148-166 | the schedule holds every listed row once, targets first when the rows are acyclic |
| Exporting.Export | backend/common/importexport/exporter.go:72-99 | lines and failures add up to the schedule, and without failures the stream is its portable form |
| Importing.JoinUnique | backend/common/importexport/types.go:92-105 | values without the separator are told apart by their joined text |
| Importing.SeparatorFreeIsApart | backend/common/importexport/types.go:82-105 | so the cache key tells identities apart when values print differently and none with the separator in it |
| Importing.SeparatorCollides | backend/common/importexport/types.go:82-105 | two lists of values, one of them with the separator, with the same joined text |
| Importing.AnswerCached | backend/common/importexport/refs.go:142-168 | caching an answer changes no later answer for identities the key tells apart |
| Importing.AnswerMeans | backend/common/importexport/refs.go:142-168 | answer by answer: the cached id, or that of the server's one row with the identity; a failing query, no row, two rows and a row without an id are told apart |
| Importing.FindRefMeans | backend/common/importexport/refs.go:98-140 | an alias is looked up, a reference by type and complete identity answered as above, and anything else refused for what is wrong with it |
| Importing.ElemsMean | backend/common/importexport/refs.go:74-90 | a list resolves to the ids element by element, or fails with its first element that does |
| Importing.ElemMeans | backend/common/importexport/refs.go:77-90 | an element without a $ref is kept, one with it becomes the id, or the error, the $ref is answered with |
| Importing.DecidedEnds | backend/common/importexport/importer.go:87-192 | every way a record can end: failed lookup, no id, a field fixed at creation that would change, skipped, refused by the server, updated, created, without an id or with an alias in use |
| Importing.Importer.ResolveRef | backend/common/importexport/refs.go:98-170 | the answer is that of aliases, cache, server rows and failing queries before the call; remembering it changes no later answer for identities the joined cache key tells apart |
| Importing.Importer.ResolveList | backend/common/importexport/refs.go:74-90 | a list resolves element by element, failing on the first element that does |
| Importing.Importer.ResolveRefs | backend/common/importexport/refs.go:61-93 | when the cache key tells the identities in the record apart: all fields resolve, in whatever order the map yields them, or the error is that of one field |
| Importing.Importer.TrackAlias | backend/common/importexport/refs.go:45-53 | refuses an alias that is taken and changes nothing then |
| Importing.Importer.UpdateEntity | backend/common/importexport/importer.go:156-172 | the row found takes the record's fields over and is remembered under its id and alias |
| Importing.Importer.CreateEntity | backend/common/importexport/importer.go:174-192 | a new row with the record's fields, remembered under its id and alias |
| Importing.Importer.ProcessRecord | backend/common/importexport/importer.go:87-192 | every record ends in one of those ways; updated means that exactly the row with the record's identity changed: it holds the record's fields and what the server fills in, keeps its id and every other field; refused as immutable if and only if a field fixed at creation is in both and differs; later $refs and the alias find its id; the data resolves exactly when the state before the call says so, if the cache key tells the record's identities apart |
| RoundTrip.RefResolves | backend/common/importexport/refs.go:117-170 | a $ref written by the export resolves to the new id of the row it names, from the rows imported before |
| RoundTrip.ReferenceResolves | backend/common/importexport/refs.go:61-93 | a whole reference field resolves to the foreign key with its ids renamed |
| RoundTrip.LineResolves | backend/common/importexport/importer.go:94-97 | every line resolves completely, to the exported row under the renaming |
| RoundTrip.NothingExists | backend/common/importexport/importer.go:128-153 | no earlier row has the line's identity, so it is created and not updated or skipped |
| RoundTrip.NewRowRebuilt | backend/common/importexport/importer.go:174-191 | the created entity is the exported one under its new id, plus only server-managed fields |
| RoundTrip.ForwardFails | backend/common/importexport/refs.go:155-158 | the line of a row that stands before one of its targets does not resolve |
| RoundTrip.ImportStream | backend/common/importexport/importer.go:57-85 | importing lines in any order into an empty server fails nowhere if and only if each stands after all rows it refers to, and then rebuilds them all; in any case the result counts the records by how they ended, up to the first failure unless told to go on |
| RoundTrip.Migrate | backend/common/importexport/exporter.go:148-166 | export then import, for identities the joined cache key tells apart: nothing reaches the server if a reference dangles; otherwise no errors if and only if the row references are acyclic, and then one copy of every row with references renamed |
| Files.FilesKeepTargets | backend/common/importexport/parser.go:16-24 | reading the per-type files in any order keeps every target ahead of its referrer if and only if each target is earlier in the same file or in an earlier file |
| Files.CrossedTypesFail | backend/common/importexport/parser.go:18-24 | when rows of two types refer to each other, no order of the files keeps targets first |
| Files.FilesKeepAcyclicRows | backend/common/importexport/registry.go:80-97 | in an order of types that has targets first, self references aside, the files keep targets first if and only if the rows are acyclic |
| Files.FilesListAll | backend/common/importexport/exporter.go:105-138 | the files together hold every exported row exactly once |
| Files.WriteFiles | backend/common/importexport/exporter.go:117-137 | each requested type's file holds that type's lines in the order of the export, and is empty if it has none |
| Files.ReadFiles | backend/common/importexport/parser.go:32-100 | reading the directory yields the files' lines in the order of the types |
| Files.MigrateFiles | backend/common/importexport/parser.go:18-24 | export to a directory and import from it: no failure if and only if every row is read after its targets; in the registry's order, when it has targets first, if and only if the rows are acyclic; and then the server holds a copy of every row, references included, under new ids |
| Canonical.ListsUnique | backend/common/idempotency/checksum.go:130-140 | the sorted listing of a map's keys is unique |
| Canonical.LessIsBefore | backend/common/idempotency/checksum.go:139 | keys are ordered by the first character in which they differ, a prefix first |
| Canonical.SortStrings | backend/common/idempotency/checksum.go:136-140 | sorting gives that listing for any order the keys come in |
| Canonical.EscapeUnique | backend/common/idempotency/checksum.go:119-128 | an escaped character tells where it ends and which character it was |
| Canonical.StringUnique | backend/common/idempotency/checksum.go:119-128 | so does a string literal, whatever follows |
| Canonical.NumberUnique | backend/common/idempotency/checksum.go:119-128 | a number is told apart from a longer one by what may follow it |
| Canonical.WriteUnique | backend/common/idempotency/checksum.go:119-179 | two encodings in the same place are encodings of the same value, nil containers being null |
| Canonical.WriteNorm | backend/common/idempotency/checksum.go:119-179 | nil containers encode as null does |
| Canonical.EncodeFaithful | backend/common/idempotency/checksum.go:63-128 | the encodings are equal if and only if the values are, nil containers being null |
| Canonical.WriteAppends | backend/common/idempotency/checksum.go:119-179 | whatever follows an encoding comes after it, so encoders may append to a buffer |
| Canonical.WriteIsJson | backend/common/idempotency/checksum.go:110-173 | the encoding is a JSON text of the value (RFC 8259): literals, numbers, strings whose every code stands for its character, elements in order, members by increasing names, no white space |
| Canonical.MarshalString | backend/common/idempotency/checksum.go:119-128 | the loop writes the literal of the string |
| Canonical.CanonicalJson | backend/common/idempotency/checksum.go:119-128 | the bytes are a function of the value alone: map iteration order does not matter; an error if and only if some part cannot be marshalled |
| Canonical.CanonicalObject | backend/common/idempotency/checksum.go:130-160 | the same for the object encoder |
| Canonical.CanonicalArray | backend/common/idempotency/checksum.go:162-179 | the same for the array encoder |
| Checksum.ApplyVariableDefaults | backend/common/idempotency/checksum.go:85-115 | fills the defaults in, or fails if one that is needed does not coerce |
| Checksum.FilledKeeps | backend/common/idempotency/checksum.go:85-115 | supplied values are kept, every variable with a default is present, and nothing else is added |
| Checksum.MergedMeans | backend/common/idempotency/checksum.go:79-108 | without any default the variables go in as they are; with one they are filled in with the first default of each name that was not supplied, or it is an error exactly if one of those does not coerce |
| Checksum.OmitOrSupply | backend/common/idempotency/checksum.go:79-84 | omitting a defaulted variable and supplying its default give the same variables |
| Checksum.ChecksumInput | backend/common/idempotency/checksum.go:36-61 | the hashed bytes: name, text and encoded variables, separated |
| Checksum.InputMeans | backend/common/idempotency/checksum.go:36-61 | the hashed bytes are name, separator, text, separator and the JSON of the merged variables; an error exactly if a default does not coerce or a value cannot be marshalled |
| Checksum.WriteHides | backend/common/idempotency/checksum.go:43-60 | an encoding contains no control character, so never the separator, and with HTML escaping no <, > or & |
| Checksum.InputFaithful | backend/common/idempotency/checksum.go:36-61 | two requests hash the same bytes if and only if name, text and merged variables are the same, for any text |
| Checksum.NilOrEmptyVariables | backend/common/idempotency/checksum.go:85-95 | sending no variables matches sending an empty object if and only if some variable has a default |
| FieldWalk.Walker.Append | backend/common/idempotency/precheck.go:301-323 | appends what CollectFields collects, in document order, and what that is: its own fields and those of the fragments newly expanded, each once, all reachable, none left out |
| FieldWalk.TopLevelFieldNames | backend/common/idempotency/precheck.go:292-294 | terminates on cyclic fragments; the names come in document order, and are the operation's own fields plus those of exactly the reachable fragments, each fragment once |
| FieldWalk.BoundedByDocument | backend/common/idempotency/precheck.go:278-291 | never more names than the document has fields |
| Idempotency.InvStep | backend/common/gqltx/idempotency.go:127-253 | every step of every request and of the janitor keeps: visible rows are committed, commits and prunes balance, in-flight rows exclude one another, every reply is true |
| Idempotency.AtMostOnce | backend/common/gqltx/middleware.go:642-671 | at every moment of every run the mutations committed under a key number at most one more than its prunes, and its row is visible exactly when they do |
| Idempotency.InFlightIsInvisible | backend/common/idempotency/precheck.go:204-236 | every mutation holds an in-flight row of its own from its insert until it is marked, and no read outside its transaction, stale ones included, ever sees one, so the 409 branch is never taken; a marked one is the committed row with the checksum and response it publishes |
| Idempotency.AnswersCommitted | backend/common/idempotency/precheck.go:204-224 | a success, executed or replayed, is the response that committed under that key with that checksum |
| Idempotency.PrunedBetweenCommits | backend/common/gqltx/idempotency.go:127-175 | between two commits under one key it was pruned, whatever the checksums |
| Idempotency.OneAnswer | backend/common/idempotency/precheck.go:159-198 | unless pruned, all successes under a key carry one response and one checksum |
| Idempotency.CommittedKeyDecides | backend/common/idempotency/precheck.go:133-157 | while a key is committed, an insert loses, and lookup and race resolution replay for the same checksum and refuse any other |
| Idempotency.GhostMeansPruned | backend/common/idempotency/precheck.go:171-198 | the row can vanish after a unique violation only because the janitor pruned it |
| Idempotency.ReplyHasCause | backend/common/gqltx/middleware.go:642-696 | every reply in every run has its cause, the step that ended the request in the state it was taken: executed and failed commits by a commit that was or was not reported, replays and 422 by a lookup of a committed row with the same or another checksum, failures by a final error, and so on |
| Idempotency.PhaseHasCause | backend/common/gqltx/middleware.go:674-691 | in every run a request that is not over stands where the last step it took has put it: leased by a missed lookup or a retry, in a transaction by beginning one, and so on |
| Idempotency.MismatchIsReuse | backend/common/idempotency/precheck.go:204-210 | who is answered 422 reused the key of another operation that committed under it |
| Idempotency.CommitDecidesReply | backend/common/gqltx/middleware.go:654-671 | in every run a request has tried to commit exactly if it is answered as executed or as a failed commit |
| Idempotency.AttemptsWithinBudget | backend/common/gqltx/middleware.go:674-691 | in every run a request begins at most one transaction more than it came with retries |
| Idempotency.FreshKeyExecutes | backend/common/gqltx/idempotency.go:127-146 | from any reachable state a request under a key that no row has and no open transaction holds can go through, is answered with its own response and leaves exactly its row and its commit |
| Idempotency.InFlightWouldConflict | backend/common/idempotency/precheck.go:225-227 | were a row in flight to be seen, the request would be answered 409 under its own checksum and 422 under another |
| Retry.PostCommitContainer.Add | backend/common/gqltx/post_commit.go:10-30 | appends a hook, or ignores it once closed |
| Retry.PostCommitContainer.Close | backend/common/gqltx/post_commit.go:86-96 | hands the hooks over once and closes |
| Retry.Middleware.RunPostCommit | backend/common/gqltx/post_commit.go:80-106 | every hook runs once and in order even if one fails, and a failure is reported; a second call runs nothing |
| Retry.Middleware.HandleMutation | backend/common/gqltx/middleware.go:539-602 | the events and the reply of a request are exactly those of its trail of attempts |
| Retry.Middleware.InsertFailed | backend/common/gqltx/idempotency.go:144-175 | a lost race is resolved, a retryable error starts over within budget, anything else is final; always rolled back |
| Retry.Middleware.Finish | backend/common/gqltx/middleware.go:605-636 | nil is final, errors go to the failure path, the rest to the success path |
| Retry.Middleware.HandleFailure | backend/common/gqltx/middleware.go:674-696 | rolls back; a retryable error starts over within budget |
| Retry.Middleware.HandleSuccess | backend/common/gqltx/middleware.go:642-671 | caches the response, commits, runs the hooks; a commit error is answered as such and never retried, whether or not the commit was applied |
| Retry.Middleware.PersistFailed | backend/common/gqltx/idempotency.go:201-250 | rolls back; only a retryable error of the mark starts over, within budget |
| Retry.Middleware.HandleWithoutTx | backend/common/gqltx/middleware.go:512-536 | no transaction; hooks run whether or not the response has errors |
| Retry.RetriesAre | backend/common/gqltx/middleware.go:674-696 | attempts go on exactly while they fail retryably and the budget lasts |
| Retry.AnsweredByLast | backend/common/gqltx/idempotency.go:144-250 | a request is answered by its first attempt that does not start over, or the last its budget allows, and which of the eight replies that gives, for every outcome of insert, resolvers, caching and commit; a commit is logged exactly if that attempt's was applied |
| Retry.CommitsIffReached | backend/common/gqltx/middleware.go:539-696 | the mutation takes effect if and only if one of the first maxRetries + 1 attempts has its commit applied and all before it fail retryably; the reply is success if and only if such a commit is also reported, and a commit failure if and only if such an attempt tries to commit and learns of no success |
| Retry.BoundedAttempts | backend/common/gqltx/middleware.go:539-696 | at most one transaction more than the retries, and at most one commit is even tried |
| Retry.HooksOfCommit | backend/common/gqltx/middleware.go:642-671 | hooks run in order and once, and only those of an attempt whose transaction was applied; those of an applied attempt are run if and only if its commit was reported, or there are none |
| Retry.RegisteredHooks | backend/common/gqltx/post_commit.go:10-30 | each attempt whose resolvers ran registers exactly its own hooks, and no other attempt any |
| Retry.HooksAfterCommit | backend/common/gqltx/middleware.go:654-671 | each hook runs after the commit of its own transaction, nothing but hooks follows a commit, and a commit error ends the request |
| Retry.ExemptFromTx | backend/common/gqltx/middleware.go:392-414 | exempt means one single exempt field; mixed means an exempt field that is not alone |
| OutboxTable.GroupMarksShape | backend/common/events/outbox_handler.go:469-509 | marks are published* then at most one failed or dead; published and dropped add up to the group; the stream gained what is marked, in order, and at most the entry that failed |
| OutboxTable.Handler.PublishEntry | backend/common/events/outbox_handler.go:515-524 | published if and only if the publish was acknowledged |
| OutboxTable.Handler.PublishTransactionGroup | backend/common/events/outbox_handler.go:469-509 | the loop's marks and the stream after it, for every outcome of every publish |
| OutboxTable.Handler.PersistMarks | backend/common/events/outbox_handler.go:549-596 | all marks in one transaction or none; no error only if they are persisted |
| OutboxTable.Handler.PublishDeadLetters | backend/common/events/outbox_handler.go:714-730 | acknowledged are exactly the rows that parse and whose publish was accepted |
| OutboxTable.Handler.DrainDeadLetters | backend/common/events/outbox_handler.go:661-708 | a row leaves the table only if the DLQ has it |
| OutboxTable.Handler.PruneBatch | backend/common/events/outbox_janitor.go:161-186 | removes only prunable rows no one holds, at most the limit, and fewer only when none is left |
| OutboxTable.Handler.Sweep | backend/common/events/outbox_janitor.go:121-146 | whatever other replicas hold during each batch: only prunable rows that some batch could have leave the table, total counts them, on errors too, and a finished sweep leaves nothing its last batch could have had |
| Outbox.ApplyAllSpec | backend/common/events/outbox_helpers.go:311-364 | what a batch of marks does to each row: published, dead, still open, retried |
| Outbox.GroupDoneIsPass | backend/common/events/outbox_handler.go:469-509 | the protocol's publish steps of one group come to exactly what the loop computes |
| Outbox.TruthfulStep | backend/common/events/outbox_handler.go:362-381 | every step, crashes and lost acknowledgements included, keeps the no-loss invariant |
| Outbox.NoLoss | backend/common/events/outbox_handler.go:347-381 | in every run with any partial fetches each inserted row is in the table, the stream or the DLQ, and a row marked published is in the stream |
| Outbox.RowLeaves | backend/common/events/outbox_handler.go:661-708 | in every run a row leaves the table exactly when a janitor sweeps it, or a drain commits that has had it acknowledged |
| OutboxOrder.PersistSettles | backend/common/events/outbox_helpers.go:345-364 | persisting marks dead-letters a transaction as a whole and leaves the rest open or in the stream |
| OutboxOrder.OrderInvStep | backend/common/events/outbox_handler.go:362-381 | every step keeps the order invariant as long as no fetch skips an open row that comes before one it returns |
| OutboxOrder.StreamOrder | backend/common/events/outbox_handler.go:465-509 | in every run of such steps events of a transaction first reach the stream in created_at order, and those stored always form a prefix of it: across crashes, overlapping pollers and lost acknowledgements |
| OutboxOrder.SkippingReorders | backend/common/events/outbox_helpers.go:459-521 | conversely, from any reachable state: whatever a fetch skips ahead of a row it returns, some way to go on stores the later event first, unless the skipped one is in the stream already or the group is out of retries |
| OutboxOrder.PartialFetchReorders | backend/common/events/outbox_helpers.go:459-521 | a concrete run in which a fetch skips a locked row and stores a later event first |
| OutboxTimely.FailedRowIsFirst | backend/common/events/outbox_helpers.go:272-281 | an open row that has failed is the first open row of its transaction |
| OutboxTimely.FetchIsTimely | backend/common/events/outbox_helpers.go:262-309 | what the second statement returns is dropped without publishing or due, if the first statement would still select the transaction at that moment; for a whole group exactly then |
| OutboxTimely.SelectionHolds | backend/common/events/outbox_helpers.go:459-521 | in every run a selected transaction stays selectable until a claim of it or marks on it are committed |
| OutboxTimely.UndisturbedFetchIsTimely | backend/common/events/outbox_helpers.go:459-521 | so in every run a fetched group is dropped or due unless such a commit came between the selector's two statements |
| OutboxTimely.ClaimHoldsBack | backend/common/events/outbox_helpers.go:366-390 | a claim keeps all others from selecting the transaction at any time before the lease ends, unless a row is out of retries |
| OutboxTimely.FailureHoldsBack | backend/common/events/outbox_helpers.go:324-343 | so does a recorded failure at any time before its next_retry_at, which lies ahead |
| OutboxTimely.LeaseStands | backend/common/events/outbox_helpers.go:366-390 | in every run, until a claim of the transaction or marks on it are committed, the rows a poller fetched are open and carry its own lease and no one else's backoff |
| OutboxTimely.RetryGrows | backend/common/events/outbox_helpers.go:311-364 | in every run, partial fetches included, an event's retry count never falls, and has grown between two moments if and only if marks with a failure of it were committed between them |
| OutboxTimely.PublishesEarlyIff | backend/common/events/outbox_handler.go:469-509 | exactly when, in every run: an event that was fetched and is published next is ahead of a backoff recorded since, if and only if it was fetched with retries left, is open and not due, and a failure of it was committed between fetch and publish |
| OutboxTimely.UnlessFailedLeased | backend/common/events/outbox_helpers.go:324-390 | in every run a fetched event that is still open carries, unless a failure of it was committed since, the lease of its own poller or of one that fetched it later, and no backoff |
| OutboxBackoff.BackoffIsSchedule | backend/common/events/outbox_helpers.go:336 | LEAST(POWER(2, n), 3600) is one second doubled n times and capped at an hour |
| OutboxBackoff.FailureMark | backend/common/events/outbox_helpers.go:324-343 | a recorded failure counts once and sets next_retry_at as far ahead as the number of earlier failures says |
| OutboxBackoff.RetryIsFailures | backend/common/events/outbox_helpers.go:334-336 | in every run, partial fetches included, retry_count is the number of committed failures of the event |
| OutboxBackoff.WaitIsScheduled | backend/common/events/outbox_helpers.go:334-338 | in every run a committed failure makes the event wait as that number says |
| OutboxBackoff.WaitsDouble | backend/common/events/outbox_helpers.go:324-343 | in every run, whatever claims come in between: the first failure waits one second, each further one twice as long as the one before it, and none longer than 3600 seconds |
| OutboxRuns.StaleSelectionFetchesEarly | backend/common/events/outbox_helpers.go:459-521 | a concrete run: a poller selects, another one publishes, fails and records it, and the first then fetches the group ahead of its backoff |
| OutboxRuns.ExpiredClaimIsTimely | backend/common/events/outbox_handler.go:421-445 | a commit between the two statements is not enough: a concrete run in which the claim in between has run out and the fetched group is due |
| OutboxRuns.OutlivedLeasePublishesEarly | backend/common/events/outbox_handler.go:421-445 | a concrete run: a poller outlives its lease and publishes an event that another one has put on backoff |
| OutboxRuns.TiesFetchEarly | backend/common/events/outbox_helpers.go:459-521 | a concrete run with equal created_at: an exhausted event selects the group and the other is returned first, ahead of its time |
| Liveness.InvStep | backend/common/liveness/liveness.go:406-425 | every atomic load, store, delete and bump keeps the cache invariant |
| Liveness.Coherent | backend/common/liveness/liveness.go:394-425 | a cached verdict disagrees with the tenant only while an event about it is still to be applied or was lost since its last eviction, an eviction of it begun since the lookup is between bump and delete, or its lookup is between write and re-check or delete |
| Liveness.StaleVerdictIsClosing | backend/common/liveness/liveness.go:406-425 | a verdict looked up before an eviction of its tenant stays only while that very eviction, or that lookup, has one operation left, which removes it; the re-check always notices |
| Liveness.NoStaleSharing | backend/common/liveness/liveness.go:321-361 | callers share only calls for the same tenants and generation, so no one arriving after an eviction joins a call begun before it |
| Liveness.AnswerTrueOrOvertaken | backend/common/liveness/liveness.go:325-350 | what a call in flight would store is true, or about to be corrected by an event unless that is lost, or will not be stored |
| LivenessCalls.LookupsCollapse | backend/common/liveness/liveness.go:306-327 | in every run whoever asks for the same tenants in the same generation as a running call joins it, and no other call is begun; otherwise one is |
| LivenessCalls.VerdictsAreAnswers | backend/common/liveness/liveness.go:328-349 | in every run a cached verdict was written by a call that the source answered; one that it failed stores nothing |
| LivenessCalls.LiveByLastChange | backend/common/liveness/liveness.go:426-432 | in every run a tenant is live if and only if its last lifecycle change made it so |
| LivenessCalls.LostUntilEvicted | backend/common/liveness/liveness.go:422-425 | in every run the tenants with a lost event are those that have not been evicted since |
| LivenessCalls.EventsAddUp | backend/common/liveness/liveness.go:426-432 | in every run each change of a tenant leaves one event, which is waiting, lost or applied |
| LivenessCalls.GenerationCountsEvictions | backend/common/liveness/liveness.go:422-424 | in every run the generation is the number of evictions begun |
| LivenessCalls.LastOtherDecides | backend/common/liveness/liveness.go:406-425 | of what others do to a key between two operations of a lookup, what they stored or dropped last is what they leave |
| LivenessCalls.SomeEviction | backend/common/liveness/liveness.go:422-425 | the generation moves in such a gap if and only if an eviction falls into it |
| LivenessCalls.OneMoreEviction | backend/common/liveness/liveness.go:422-425 | and by one for each |
| LivenessCalls.ActiveUntilDelete | backend/common/liveness/liveness.go:422-425 | in every run an eviction is under way exactly from its bump until its delete |
| LivenessCalls.QuietCallStores | backend/common/liveness/liveness.go:334-349 | left to itself a call stores the verdict of every tenant it asked for and no other, and frees its slot |
| LivenessCalls.TenantsInTurn | backend/common/liveness/liveness.go:345-348 | in every run a call takes the tenants it asked for in turn, each once, and returns after the last |
| LivenessCalls.OvertakenCallStoresNothing | backend/common/liveness/liveness.go:406-414 | one that an event has overtaken stores nothing more and frees its slot |
| LivenessCalls.FreshCallStores | backend/common/liveness/liveness.go:323-352 | from any reachable state, whatever the others are at, whoever asks for tenants that no running call of the generation asks for can be answered, and the cache then holds what the source says of each |
| Liveness.Cache.Evict | backend/common/liveness/liveness.go:422-425 | bumps the generation and drops the one verdict |
| Liveness.Cache.SetFromLookup | backend/common/liveness/liveness.go:406-414 | whatever evictions, stores and drops come in between its operations: the verdict is left exactly if no event came in until the re-check |
| Liveness.Cache.Store | backend/common/liveness/liveness.go:345-348 | whatever comes in between, every entry is an old one, the answer's or another lookup's; undisturbed, exactly the answer's verdicts are added; after an event that came first, nothing is |
| Liveness.Cache.LookupTenants | backend/common/liveness/liveness.go:272-304 | cached verdicts win; on an error or timeout every other tenant is reported not live and nothing is stored; whatever comes in between, every entry is an old one, the answer's or another lookup's |
| Liveness.Cache.Report | backend/common/liveness/liveness.go:294-303 | the reported verdicts, one per requested tenant |
| MemKV.PutAgrees | backend/common/memkv/store.go:64-73 | replacing an entry after unlinking it keeps index and entries in agreement |
| MemKV.SetWhereAgrees | backend/common/memkv/store.go:84-121 | a SetWhere write keeps the agreement if and only if it does not replace an expired entry that is still linked |
| MemKV.BucketIsScan | backend/common/memkv/store.go:177-192 | when they agree, a bucket holds exactly what a scan of all entries would find |
| MemKV.StaleLinkDeletesFresh | backend/common/memkv/store.go:94-120 | after SetWhere over an expired linked entry, deleting by that secondary key hits the new entry |
| MemKV.EmptySecondaryIsSet | backend/common/memkv/store.go:144-171 | an empty secondary key is equivalent to Set if and only if the ttl is not negative or the key already holds that value without expiry and link |
| MemKV.SetThenGet | backend/common/memkv/store.go:50-74 | what Set stores is read until now + ttl, for good with ttl 0, and not at all with a negative one; other keys are as before |
| MemKV.SetWithSecondaryThenGet | backend/common/memkv/store.go:144-171 | with a secondary key a ttl that is not positive is for good; the key is in that bucket and in no other |
| MemKV.SweepIsInvisible | backend/common/memkv/store.go:217-233 | whatever is read at the sweep or later is what would have been read without it |
| MemKV.Store.Set | backend/common/memkv/store.go:50-74 | stores and unlinks; a negative ttl stores nothing; store and index are those of AfterSet |
| MemKV.Store.SetWhere | backend/common/memkv/store.go:84-121 | writes if and only if the predicate approves the unexpired occupant; the agreement survives exactly as above |
| MemKV.Store.SetWithSecondaryKey | backend/common/memkv/store.go:144-171 | the link moves with the key; a negative ttl stores an entry that never expires; store and index are those EmptySecondaryIsSet compares with Set's |
| MemKV.Store.Get | backend/common/memkv/store.go:123-132 | the value of an unexpired entry |
| MemKV.Store.Delete | backend/common/memkv/store.go:134-138 | removes the entry and its link |
| MemKV.Store.DeleteBySecondaryKey | backend/common/memkv/store.go:177-192 | removes and counts exactly the entries a scan would find |
| MemKV.Store.DeleteWhere | backend/common/memkv/store.go:253-265 | removes and counts exactly the entries the predicate picks, links included |
| MemKV.Store.SweepExpired | backend/common/memkv/store.go:217-233 | removes exactly the expired entries, links included |
| Datatypes.TombstoneStays | backend/common/json-schema/cache.go:353-367 | no step revives a tombstoned id slot |
| Datatypes.DeletedForGood | backend/common/json-schema/cache.go:353-401 | a row once seen deleted is never live again in its id slot, for any order and repetition of events |
| Datatypes.NoLiveCopy | backend/common/json-schema/cache.go:393-486 | in every run without a delete event of the row that lacks its slug, no slug slot shows a deleted row live once its deletes are through, whatever the fetcher returns, unless the slug write that put it there was overtaken: a delete of the row began after that update's id write and took its slug step before the slug write |
| Datatypes.SlugWriteOrphans | backend/common/json-schema/cache.go:343-380 | exactly when, in every run: a slug write leaves a live copy of a deleted row, with no delete on its way, if and only if it is approved, no delete of the row is in progress and a delete has overtaken it |
| Datatypes.BlindDeleteOrphans | backend/common/json-schema/cache.go:396-409 | a delete event without a slug leaves a live copy of the deleted row, with no delete on its way, if and only if a slug slot shows the row live and no other delete of it is in progress |
| Datatypes.SplitUpdateResurrects | backend/common/json-schema/cache.go:359-379 | for any live row a concrete run: a delete that runs between Update's two writes leaves a live copy behind |
| Datatypes.UpdateIsSteps | backend/common/json-schema/cache.go:348-380 | Update's two steps, with nothing in between, come to what the method computes |
| Datatypes.DeleteIsSteps | backend/common/json-schema/cache.go:393-456 | Delete's separate steps, with nothing in between, come to what the method computes |
| Datatypes.HighestVersionWins | backend/common/json-schema/cache.go:343-379 | with updates only, in any order, repeated and interleaved between their two writes, a slug slot ends at the highest version that arrived |
| Datatypes.UpdateWrites | backend/common/json-schema/cache.go:348-380 | an update of a live row is kept out of the id slot by a tombstone only, and out of the slug slot by a higher version only |
| Datatypes.DeleteSettles | backend/common/json-schema/cache.go:393-486 | after a delete the slug slot holds a newer version, the deleted mark if no successor could be asked for, the live successor, or nothing, and exactly when which |
| Datatypes.DataTypesCache.Update | backend/common/json-schema/cache.go:348-380 | a tombstone and a higher version win; both slots otherwise hold the row |
| Datatypes.DataTypesCache.Delete | backend/common/json-schema/cache.go:393-456 | tombstones the id; with a slug, promotes, drops or stamps the slug slot by what is fetched, and without one leaves it alone |
| Datatypes.DataTypesCache.ReadByID | backend/common/json-schema/cache.go:237-268 | a tombstone answers without a fetch, and so does a hit the caller may not see; a miss is filled through Update |
| DataIndex.Validate | backend/common/dataindex/validate.go:24-64 | accepts if and only if every binding is in order, no slot is bound twice and every prior binding is kept |
| DataIndex.PooledUnion | backend/common/dataindex/validatehook.go:33-37 | a version that keeps the whole union becomes the union |
| DataIndex.LineageStep | backend/common/dataindex/validatehook.go:44-105 | an accepted save keeps the lineage invariant and the union only grows |
| DataIndex.MergedIsUnion | backend/common/dataindex/validatehook.go:88-93 | merging the row's own bindings gives the lineage's union, with a slug or without |
| DataIndex.DataTypes.MergeCurrent | backend/common/dataindex/validatehook.go:113-139 | the row's own bindings where the lineage has none |
| DataIndex.DataTypes.SaveVersion | backend/common/dataindex/validatehook.go:44-105 | a save is accepted if and only if it is acceptable against everything ever declared; bindings only grow, each slot keeps one name and source; a version without slots is stored with none, whatever the lineage holds |
| Projection.ResolvePointer | backend/common/dataindex/binding.go:206-225 | the loop walks the pointer: nothing on a missing key or a step into no object |
| Projection.Project | backend/common/dataindex/binding.go:121-173 | nothing for missing or null, the value in the slot's kind, an error on a kind mismatch or an element without text |
| Projection.ProjectionMeans | backend/common/dataindex/binding.go:117-173 | nothing is projected exactly when there is no value at the source or null, a value exactly when it is the one at the source in the slot's kind, and it is an error exactly when the kind cannot store the value |
| Projection.AssignableIffStores | backend/common/dataindex/validate.go:66-80 | a declared type may be bound to a slot if and only if the slot can store some value of that type |
| Projection.ConformingProjects | backend/common/dataindex/validate.go:45-80 | a row that conforms to its schema is never refused for an accepted binding of a declared type, as long as its lists hold scalars |
| Projection.UsableIffProjects | backend/common/dataindex/binding.go:200-225 | a source is accepted if and only if something can be indexed through it |
| Projection.ListTexts | backend/common/dataindex/binding.go:175-198 | a list projects if and only if each element has a text, and then holds exactly the texts that are not empty |
| Projection.IndexedRow.ClearRetired | backend/common/dataindex/hook.go:117-139 | clears exactly the slots only the old bindings cover |
| Projection.IndexedRow.ProjectAll | backend/common/dataindex/hook.go:88-92 | all bound slots hold their projection, or the mutation fails because one does not project |
| Projection.IndexedRow.Mutate | backend/common/dataindex/hook.go:47-96 | also when the datatype has gained bindings since the row was last written: after every accepted mutation each bound slot equals the projection of the row's data and every other slot is empty; refused exactly for bulk updates and failing projections, and then unchanged |
| FrozenSlots.SlotsKeepMeaning | backend/common/dataindex/validatehook.go:38-43 | over any history of accepted saves and row mutations: every slot a row fills is bound now to exactly one name, and holds the projection of the row's data under that binding, whatever version it was last written under |
| FrozenSlots.BoundForGood | backend/common/dataindex/validatehook.go:33-37 | what a name is bound to at one time of a history it is bound to ever after |
| FrozenSlots.WriteIsAllowed | backend/common/dataindex/hook.go:47-96 | at any time of a history the bindings a mutation is given keep those its row was last projected under, and bind each slot to one name |
| FrozenSlots.RowsFollowVersion | backend/common/dataindex/hook.go:47-96 | a row just written holds the projection of its data in every slot its version binds, and nothing in any other |
| FrozenSlots.InvStep | backend/common/dataindex/validatehook.go:44-105 | every accepted save and every mutation keeps this, and the union of what is bound only grows |
| Admission.AccountedStep | backend/common/admission/admission.go:106-153 | every step keeps an operation's taken, handed-back and held slots in balance |
| Admission.OccupancyIsHolders | backend/common/admission/admission.go:106-203 | in every run a field's occupancy is the number of operations holding it, never above its cap, and releasing never blocks |
| Admission.GaveIsCounted | backend/common/admission/admission.go:123-152 | what the state records as handed back is the number of steps of the run that handed it back, and a release has fired exactly if one step set it off |
| Admission.ReleasedOnce | backend/common/admission/admission.go:123-152 | in every run, for an operation that is over: the steps that handed one of its slots back number, for each field, exactly what it took, at most one, its release is set off at most once however often its handler is called, and nothing of it changes for the rest of the run |
| AdmissionLife.AdmittedHoldsAll | backend/common/admission/admission.go:170-195 | in every run an admitted operation holds one slot of exactly the limited fields it names; one still acquiring, of those it has come past |
| AdmissionLife.PhaseHasCause | backend/common/admission/admission.go:106-153 | in every run an operation hands back or is over if and only if it was refused a slot, its handler panicked while it was built, or its handler was called; it can be called if and only if its handler was built and has not been |
| AdmissionLife.HandsBackAll | backend/common/admission/admission.go:123-152 | whatever the others do, an operation that hands back can complete by its own steps, each slot it held is free again, and nothing else has changed |
| Admission.Limiter.Acquire | backend/common/admission/admission.go:170-195 | one slot per distinct limited field, or the field that was full with what was taken before it |
| Admission.Limiter.Release | backend/common/admission/admission.go:199-203 | undoes an acquire |
| Admission.Limiter.Enter | backend/common/admission/admission.go:106-121 | a refused operation leaves every slot as it was, and some limited field it names was full; an admitted one holds one slot of each |

## Left out

- OutboxOrder.StreamOrder: assumes that no fetch skips an open row ahead of one it returns; without that it is false, as OutboxOrder.SkippingReorders shows. Events with equal created_at have no order.
- OutboxTimely.FetchIsTimely: under the same assumption, and for a transaction whose events differ in created_at; without the latter it is false, as OutboxRuns.TiesFetchEarly shows.
- StockFix.Ledger.RepairTenant: a statement fails or does not by its number, whatever it says; a failed one writes nothing. The condition for success is exact for chains of up to 65 repositories; in deeper forests it lies between a bound on whole paths and one on stretches of 65 pairs, and with cyclic parents it is stated on the peeled books.
- Liveness.Coherent: entries may expire at any step; how long the TTL leaves a verdict standing is not modelled.
- Liveness.Cache.LookupTenants: the cached verdicts are read at one moment; an answer that arrives after its caller stopped waiting is stored by the shared call, which the state machine covers and this method does not.
- RoundTrip.Migrate: for types with identity fields that are neither references nor server-managed, complete and unique identities, and a server that starts empty, answers every query and accepts every creation. Type names are taken to hold no colon, which the resolver puts between a type's name and the joined identity.
- Files.MigrateFiles: the file of a type is found by the type itself, so type names are taken to differ in more than case; a directory with other files in it and the parser's own errors are not part of this model.
- Importing.Importer.ProcessRecord: while one record is processed, a query for one identity fails always or never; from record to record that may change. An update can set fields the server recomputes, not remove any.
- Idempotency.AtMostOnce: PreCheck's refusals of malformed headers, unnamed or multi-field operations and unauthenticated callers, a cached body that does not decode, the response size limit and lookup errors all come down to a request that ends without committing.
- Retry.Middleware.HandleMutation: sleeping between attempts, metrics and the nesting of contexts are not modelled; each attempt's outcome is given.
- Outbox.NoLoss: the row locks of a drain, which only rule interleavings out, and the stream's duplicate window are not modelled.
- OutboxTable.Handler.Sweep: what other replicas delete or publish between two batches is not modelled.
- Canonical.CanonicalJson: strings are sequences of code points, invalid UTF-8 is not modelled; a number is the token it is printed as.
- Checksum.ChecksumInput: the compact re-print of the operation and SHA-256 are not modelled; the text is arbitrary and the bytes are compared before hashing.
- RowOrder.SortRows: the library's sorting algorithm is not modelled, and what it leaves when the comparison is not transitive is not stated; numbers are exact.
- Projection.Project: numbers and strings are opaque, including the text of a number in a list; the backfill expression is not modelled.
- Projection.IndexedRow.Mutate: the bindings a mutation is given are those of the datatypes as they stand; a cache that is behind them is not modelled. Slots a datatype gains between two mutations of a row are filled by the next mutation or the backfill, which is not part of this model.
- DataIndex.DataTypes.SaveVersion: parsing a schema into bindings and types, bulk updates of datatypes and failing lineage queries are not modelled.
- Admission.Limiter.Enter: waiting does not occur, since a full channel refuses; a panic is a step of the state machine, not of this method.
- Dry runs, interactive confirmation, worker control and quiescence checks of stockfix.
- Read-only query transactions, slug reads and start-up loading of the datatype cache; whether a caller may see a cached row is given.
- LISTEN/NOTIFY, tickers, jitter, batch sizes of the selector and health endpoints.
