# Anansi core, modelled and proved in Dafny

This project models the algorithmic cores of the anansi document store and proves what they promise.

* **Snapshot registry** (`core/bits`). A byte store addressed by packed 64-bit handles: a first-fit hole allocator over
  a byte buffer, a binary slot header with an intrusive free list and generations, an open-addressing id table with
  tombstones, two paged copy-on-write arrays, swap-remove deletion and a defragmenter. Built in layers (`Handles`,
  `LittleEndian`, `PagedArrays`, `SlotHeader`, `FreeList`, `IdTables`, `Snapshots`, `Compaction`, `Transfer`,
  `Registries`, `RegistryOperations`), it is shown to stand for one finite map from ids to byte strings over every run;
  `CachedRegistries` is the cache in front of it; `ReuseOrder` and `SlotLeaks` are runs whose import loses bytes or slots.
* **Query partitioner and in-memory helper** (`core/query`). A filter tree is split by backend capability into a
  pushed part and a residual. `QueryFilters` gives the evaluation, `FilterMeaning` says what each operator decides in
  terms of the values it compares, `Partitioning` gives the split and a sufficient mode
  analysis with errors, `SplitShapes` and `PartitionExactness` prove the analysis exact, `RecordSplits` carries that
  over to records, `Projections` proves early projection invisible, `QueryValidation` gives the checks a helper makes
  before it evaluates, `QueryEngines` puts the pipeline together, `QueryRuns` is the engine with its cache of partitions
  over runs of queries, `Joins` relates whole and streaming joins.
* **JSON Patch** (`core/json/patch.go`, RFC 6902 over RFC 6901 pointers). `JsonPointers`, `JsonPatches`,
  `JsonPatchers`: diff and apply on nested values, for any key order. `PatchMeaning` says what each operation does to
  the place its path leads to, and which error it ends in otherwise.
* **JSON Schema** (`core/json/schema.go`, draft-07). `JsonSchemas` is the declarative meaning, `JsonValidators` the
  issue-collecting walk.
* **Sharded CLOCK/TTL cache** (`core/cache`). `ClockShards` is one shard on values, `CacheShards` the map, list and
  hand kept in step, `CacheModels` all shards together, `ManagedCaches` the cache itself and the in-memory reference.
* **Versions** (`core/common/version.go`). `Versions`: packed versions and their order, runs of operations over
  histories, and addresses into them.

Objects whose methods update fields are classes; loops of the program are loops here, each proved against a function of
its inputs or of the old state. Those functions carry the theorems.

## Findings

Where the obvious claim is false, the exact condition is proved beside it.

* For a filter that uses each of its conditions once, splitting is sound exactly when `ModeOf` calls it a conjunction
  or, if it holds an empty group or a misused operator and so never evaluates, when a part keeps that fault
  (`PartitionExactness.SplitSoundExactly`; on records `RecordSplits.RecordsSplitExactly`). Only a mixed Or is kept
  whole, so an Xor, Xnor or Nand with members on both sides, and a Not over a conjunction cut in two, select other
  records. Input: Xor of "a exists" and "a does not exist", with only the first supported, holds for every record and
  is cut into parts no record passes (`RecordSplits.XorLosesEverything`). An empty group selects nothing, but it is
  dropped, which selects everything (`PartitionExactness.EmptyGroupDropped`).
* A created patch applies exactly when no pair of aligned arrays shrinks by two or more elements
  (`JsonPatchers.Patcher.CreatePatch`, `JsonPatchers.ShrinkByTwoFails`), because removals are emitted at rising indices.
* An export imports back to the same contents, whatever the bytes, exactly when the entries lie in entry order
  (`Transfer.RestoresExactlyInOrder`); being without holes is not enough (`ReuseOrder.ReuseSwapsContents`).
* An import leaks exactly the slots below the highest one that it does not name (`Transfer.WrittenLeaks`), so a store
  runs out of slots exactly when stored ids and leaked slots together take all 65536
  (`RegistryOperations.SlotsExhausted`); right after an import that is exactly when slot 65535 is named
  (`RegistryOperations.SlotsExhaustedAfterImport`). Run: 65536 stores, all but the last deleted, export and import leave
  one entry and no slot for another (`SlotLeaks.ImportLeaks`).
* The capacity check of a write adds up signed lengths, so it rejects exactly content with an entry of 2 GiB or more
  (`Transfer.CapacityCheck`).
* A page pushed to the backend is cut before the residual filter. To a query that lists its fields that is harmless,
  whatever the records, exactly when the page answers nothing, or no record is selected, or the pushed part lets no
  rejected record through (`QueryEngines.PageHarmlessExactly`; smallest input in `QueryEngines.PageCutTooEarly`). For
  filters that ask each field once for presence only the first is left (`QueryEngines.PageHarmlessByShape`).
* A query that lists no fields gets back only the residual filter's fields: the answer is right exactly when every
  selected record consists of those (`QueryEngines.FieldsKeptExactly`), and right for all records, wherever a page is
  cut, exactly when nothing can be selected or the page answers nothing (`QueryEngines.FieldsLostExactly`; smallest
  input in `QueryEngines.FieldsLost`).
* The engine keeps partitions under a key and notes in them the fields of the query last answered. Every run of queries
  of a set is answered as by fresh partitions exactly when the key never leads a query to the partition of one that is
  not interchangeable with it, and no query that includes the empty name is answered through a remainder which another
  query finds after it (`QueryRuns.RunsFreshExactly`). A reference to a field and an object literal can be written down
  alike, and then the second query loses its record (`QueryRuns.ReferenceTakenForObject`); a query with a residual that
  includes the empty name is answered once and refused from then on (`QueryRuns.EmptyNameRefusedAgain`).
* The pipeline checks what remains with a helper that knows no custom operator, before any is registered. A residual is
  refused exactly when it holds a condition with a custom operator (`QueryEngines.CustomOperatorsRefused`), as every
  such condition the backend does not support does (`QueryEngines.UnsupportedRefused`). Input: one condition with the
  operator "custom", no capabilities.
* A page left to the helper with a zero limit works exactly when totals are asked for; otherwise it is refused, and the
  check dereferences nil when the flag is missing (`QueryEngines.ZeroLimitRefused`).
* Comparing two values the other way round turns the answer around exactly for equal values, numbers and strings; beside
  a null the answer is "less" both ways (`QueryFilters.AntisymmetricExactly`).
* An overfull shard may evict the entry just written; when exactly is `ClockShards.NewcomerEvicted`.
* The cached registry needs strings and ids that tell the same keys apart (`CachedRegistries.CachedRegistry.IncoherentOtherwise`).
* `Handle` and `Shift` accept the offset 65536 and wrap it to zero (`Handles.MakeSpec`, `Handles.ShiftSpec`).
* Incrementing tag version 255, or bumping a field at 65535, makes an earlier version: each operation makes a later one
  exactly when `Advances` holds (`Versions.NextIsLater`), and a history rises exactly as long as all do
  (`Versions.RunRises`).
* Only a major bump checks the size of the history, so histories outgrow their 1024 addresses
  (`Versions.HistoriesOutgrowAddresses`). Resolving the address of a version gives an equal version exactly when its
  first place is below 1024 (`Versions.ResolveIndex`); later ones resolve to the oldest version
  (`Versions.LateVersionsMisresolved`).

## Model

| member | source | states |
|---|---|---|
| Handles.NewHandleSpec | core/bits/handle.go:26-34 | widths above 32 bits are refused, zero stands for 32, any other is kept |
| Handles.UnpackPack | core/bits/handle.go:65-138 | offset, length and id read back from a packed handle, for every triple within the widths |
| Handles.PackUnpack | core/bits/handle.go:65-138 | every 64-bit word is the packing of its own fields, so packing is a bijection |
| Handles.FieldsAddUp | core/bits/handle.go:65-138 | a handle is the sum of its offset in the low 16 bits, its length above them and its id above the length |
| Handles.MakeSpec | core/bits/handle.go:65-86 | success exactly on lengths that fit and offsets up to and including 65536, with the fields read back below that |
| Handles.SetIdSpec | core/bits/handle.go:115-130 | exactly ids within the id field are accepted, and offset and length are untouched |
| Handles.ShiftSpec | core/bits/handle.go:101-112 | the offset moves by delta, length and id stay, and reaching 65536 wraps to zero |
| LittleEndian.Word64 | core/bits/registry.go:201-209 | eight bytes hold a 64-bit word and give it back |
| PagedArrays.PersistentEntries.Set | core/bits/registry.go:67-80 | the paged array with one element replaced stands for the sequence with that element replaced |
| PagedArrays.PersistentEntries.Append | core/bits/registry.go:82-104 | the paged array stands for the sequence with the element appended, a new page included |
| PagedArrays.PersistentEntries.Pop | core/bits/registry.go:106-126 | the paged array stands for the sequence without its last element, an emptied page dropped |
| PagedArrays.PersistentEntries.ToSlice | core/bits/registry.go:128-137 | element by element, the sequence the array stands for |
| PagedArrays.PersistentSlots.Set | core/bits/registry.go:152-177 | a function with default -1 changes at one slot, growing by pages of -1 as needed |
| SlotHeader.ReadAfterWrite | core/bits/registry.go:201-209 | writing a word is seen by reading that word and by no other |
| SlotHeader.NewHeader | core/bits/registry.go:253-265 | the new buffer is well formed and decodes to the empty table |
| SlotHeader.SetSlotOffset | core/bits/registry.go:278-282 | in place, one slot becomes live at an offset with its generation kept, all else framed |
| SlotHeader.FreeSlot | core/bits/registry.go:284-292 | in place, the decoded table becomes the freed table: slot dead, generation advanced, slot heads the free list |
| SlotHeader.AllocSlot | core/bits/registry.go:294-320 | the head of the free list, or a new slot below 65536, or failure; the decoded table becomes the allocated one |
| SlotHeader.SlotOffset | core/bits/registry.go:267-276 | an offset exactly for live slots |
| FreeList.HeadIsDead | core/bits/registry.go:294-320 | in a well-formed table the head of the free list is the sentinel or a dead slot in range |
| FreeList.OccupiedSpec | core/bits/registry.go:278-320 | allocating keeps the duplicate-free chain of dead slots and the live count, and touches no other slot |
| FreeList.FreedSpec | core/bits/registry.go:284-292 | freeing a live slot keeps chain and live count, advances its generation and touches no other slot |
| FreeList.LeakedKept | core/bits/registry.go:284-320 | allocation and freeing leave the set of leaked slots, dead but not on the free list, as it is |
| FreeList.SlotsAddUp | core/bits/registry.go:201-320 | every slot is live, on the free list or leaked, and only one of these |
| FreeList.FullExactly | core/bits/registry.go:294-320 | allocation fails exactly when live and leaked slots together are 65536 |
| FreeList.FreeThenOccupy | core/bits/registry.go:284-320 | freeing and allocating again returns the same slot, one generation later, all else as before |
| IdTables.HasEmpty | core/bits/registry.go:406-443 | a table within its load has an empty cell, so every probe ends |
| IdTables.PlacedReachable | core/bits/registry.go:414-443 | writing a fresh id into a free cell its probe reaches keeps every id reachable from its hash |
| IdTables.PlacedDenoted | core/bits/registry.go:414-443 | and adds exactly that id to the map |
| IdTables.RemovedReachable | core/bits/registry.go:471-487 | a tombstone keeps every probe path |
| IdTables.RemovedDenoted | core/bits/registry.go:471-487 | and removes exactly its id from the map |
| IdTables.IdTable.Find | core/bits/registry.go:379-393 | the cell of the id, or none exactly when the map lacks it |
| IdTables.IdTable.Lookup | core/bits/registry.go:395-404 | the value the map has for the id, or none exactly when it has none |
| IdTables.IdTable.InsertOrUpdateInPlace | core/bits/registry.go:414-443 | in place, the map with the id set to the value, tombstones reused |
| IdTables.IdTable.Rehashed | core/bits/registry.go:445-453 | the same map in a table of the new capacity, without tombstones |
| IdTables.InsertOrUpdate | core/bits/registry.go:455-469 | a new table with the id set, the old one untouched, loaded below 70 percent with an empty cell left |
| IdTables.Delete | core/bits/registry.go:471-487 | a new table without the id, and whether it was there |
| Snapshots.Disjoint | core/bits/registry.go:500-513 | live entry ranges and holes never overlap |
| Snapshots.DeletedSpec | core/bits/registry.go:729-772 | swap-remove deletion removes exactly one id from the map and keeps the three mutually inverse tables, the tiling and the free list |
| Snapshots.InsertedSpec | core/bits/registry.go:489-498 | an insertion maps exactly the new id to the bytes of its range and keeps every invariant |
| Snapshots.FitCover | core/bits/registry.go:637-672 | splitting a hole, or swap-removing it, takes exactly the new entry's range out of the holes |
| Snapshots.StoredSpec | core/bits/registry.go:622-727 | first fit or append: exactly the new id maps to the value, and invariant, tiling and free list are kept |
| Compaction.Conservation | core/bits/registry.go:500-513 | live bytes and hole bytes never exceed the data, and add up to it exactly when it is tiled |
| Compaction.OffsetsOnly | core/bits/registry.go:1130-1209 | changing only offsets of live slots keeps the free list and counts well formed |
| Compaction.DefragmentedSpec | core/bits/registry.go:1130-1209 | the denoted map, entries, lookups and generations stay; with holes, entries end up packed in entry order and the data is as long as the live entries |
| Transfer.WrittenSpec | core/bits/registry.go:800-860 | a write of well-formed content is sound, maps each id to the bytes at its cumulative offset, and leaks exactly the slots it leaves unnamed |
| Transfer.WrittenLeaks | core/bits/registry.go:826-833 | the slots below the highest that no entry names are dead and off the free list, and with the entries they are all slots there are |
| Transfer.WrittenBytes | core/bits/registry.go:833-842 | the bytes an id is mapped to start where the lengths of the entries before it add up to, and are as many as its entry's length |
| Transfer.WrittenIds | core/bits/registry.go:833-842 | exactly the ids of the entries written are mapped |
| Transfer.CapacityCheck | core/bits/registry.go:800-860 | the check passes exactly when no entry has 2 GiB or more |
| Transfer.ExportIsLaidOut | core/bits/registry.go:862-889 | the bytes of an export one by one: four of magic, the number of entries and of data bytes, each handle lowest byte first, then the data |
| Transfer.ParseReads | core/bits/registry.go:891-919 | arbitrary bytes parse exactly when header, magic and the announced length are there; which error otherwise, and which handles and data when they do |
| Transfer.ParseExport | core/bits/registry.go:862-919 | parsing an export gives back exactly the handles and the data |
| Transfer.RestoredExactly | core/bits/registry.go:800-919 | the import of an export has the same contents exactly when every entry's bytes equal those at its cumulative offset |
| Transfer.RestoresExactlyInOrder | core/bits/registry.go:800-919 | contents are restored for all possible bytes exactly when the entries lie in entry order |
| ReuseOrder.ReuseSwapsContents | core/bits/registry.go:622-919 | a run of two stores, a deletion and a store whose export imports to different contents although there are no holes |
| Registries.DeletePos | core/bits/registry.go:729-772 | deletion over the concrete arrays, tables and buffer equals deletion on values |
| Registries.FindFit | core/bits/registry.go:622-640 | the first hole that is long enough, or none exactly when none is |
| Registries.Store | core/bits/registry.go:622-727 | the store over the concrete structures equals the store on values, or fails for the reason the values give |
| Registries.Defragmentation | core/bits/registry.go:1130-1209 | the defragmenter's loop equals defragmentation on values |
| Registries.BuildWritten | core/bits/registry.go:800-860 | the loops of a write build the snapshot of the content, or fail exactly on the capacity check |
| RegistryOperations.SetSpec | core/bits/registry.go:586-727 | a Set that does not fail maps exactly the given id to the value and keeps every invariant |
| RegistryOperations.SlotsExhausted | core/bits/registry.go:586-727 | in every sound snapshot, Set runs out of slots exactly when the id is not stored and stored ids and leaked slots together are 65536 |
| RegistryOperations.SetFailsExactly | core/bits/registry.go:586-727 | when a Set fails and why, in terms of the length, the stored ids, the leaked slots, the holes and the size of the data |
| RegistryOperations.Registry.IdOfLowBits | core/bits/registry.go:594-599 | an id is the low bits of the hash, as many as the length field leaves of 48 |
| RegistryOperations.SlotsExhaustedAfterImport | core/bits/registry.go:826-833 | after an import a new id fails for want of a slot exactly when slot 65535 is named |
| SlotLeaks.ImportLeaks | core/bits/registry.go:826-833 | a run of stores and deletions that leaks nothing and leaves one entry, whose import leaks every slot below that entry's and, with all slots used, leaves none for any other id |
| RegistryOperations.ExportThenImport | core/bits/registry.go:862-919 | an export of a sound snapshot parses back and is well-formed content, restored whenever the entries are in order, as after a defragmentation that had holes |
| RegistryOperations.Registry.constructor | core/bits/registry.go:537-555 | the empty registry is sound, tiled and without leaks |
| RegistryOperations.Registry.Get | core/bits/registry.go:557-584 | exactly the mapped bytes and handle; the alive and bounds guards never fire for an indexed id |
| RegistryOperations.Registry.Set | core/bits/registry.go:586-727 | the denoted map with exactly one id set, or the stated failure with the very snapshot unchanged; no slot is leaked or recovered |
| RegistryOperations.Registry.Delete | core/bits/registry.go:774-793 | the denoted map without exactly that id, and whether it was there; no slot is leaked or recovered |
| RegistryOperations.Registry.Defragment | core/bits/registry.go:1053-1057 | map, entries and generations kept; no holes afterwards; packed and exactly as long as the live entries when there were holes |
| RegistryOperations.Registry.Clear | core/bits/registry.go:1041-1051 | the empty snapshot |
| RegistryOperations.Registry.Export | core/bits/registry.go:862-889 | the export byte by byte: magic, the two counts, every handle lowest byte first from byte 12 on, and the data |
| RegistryOperations.Registry.Import | core/bits/registry.go:891-919 | when the bytes are refused and with which error, read off the bytes themselves; otherwise the capacity error, or the map their content denotes, with exactly the unnamed slots leaked; a failure changes nothing |
| CachedRegistries.CachedRegistry.AgreesAfter | core/bits/cached_registry.go:39-89 | a change of one key's id keeps cache and registry in agreement when only that key's entry may have changed |
| CachedRegistries.CachedRegistry.IncoherentOtherwise | core/bits/cached_registry.go:65-74 | two successful writes of different values under keys that string and id tell apart differently leave a cache that still has both in contradiction to the registry |
| CachedRegistries.CachedRegistry.Get | core/bits/cached_registry.go:39-63 | answers exactly as the registry, whatever the cache forgot, and stays coherent |
| CachedRegistries.CachedRegistry.Set | core/bits/cached_registry.go:65-74 | writes through and stays coherent, failing stores included |
| CachedRegistries.CachedRegistry.Delete | core/bits/cached_registry.go:76-80 | removes the key from both and stays coherent |
| CachedRegistries.CachedRegistry.Import | core/bits/cached_registry.go:86-89 | the registry holds exactly what the export says, or the failure is named and the registry is as before; the cache agrees either way |
| QueryFilters.Evaluate | core/common/logical_operators.go:84-142 | the loops with early return and counting give the operator's meaning, errors included |
| QueryFilters.AntisymmetricExactly | core/query/helper.go:1100-1135 | comparing the other way round turns the answer around if and only if the values are equal, both numbers or both strings |
| QueryFilters.ZeroIsEqual | core/query/helper.go:1100-1135 | the comparison is zero exactly for equal values |
| QueryFilters.CompareTransitive | core/query/helper.go:1100-1135 | on numbers and on strings the comparison is an order |
| QueryFilters.EvaluateFilter | core/query/helper.go:874-889 | evaluation of a filter equals its meaning on the judged conditions; FilterMeaning says what the judge decides |
| QueryFilters.EvaluateGroup | core/query/helper.go:995-1005 | members in order, the first error wins, then the operator combines |
| FilterMeaning.PathOfOne | core/utils/maps.go:78-110 | the empty path is the record, a path without dots a field of it or null |
| FilterMeaning.PathOfMore | core/utils/maps.go:78-110 | behind a dot the path goes on inside an object; through anything else it is null |
| FilterMeaning.ValueResolved | core/query/helper.go:947-992 | what each kind of condition value stands for; a list or a call exactly when all its members resolve |
| FilterMeaning.NumbersCompared | core/query/helper.go:892-944 | on two numbers the six comparison operators decide equality and order as their names say |
| FilterMeaning.StringsCompared | core/query/helper.go:892-944 | on two strings they decide equality and the lexicographic order, given by the first differing position or a proper prefix |
| FilterMeaning.OthersCompared | core/query/helper.go:1100-1130 | on all other values: equal ones are equal, and unequal ones, nulls included, answer as less |
| FilterMeaning.MembershipMeans | core/query/helper.go:1008-1022 | In and Nin ask whether some element of the list equals the field, and are errors beside anything but a list |
| FilterMeaning.ContainmentMeans | core/query/helper.go:1024-1035 | Contains and NotContains ask whether the field has the other string between something and something; the errors and the answers beside other values |
| FilterMeaning.PresenceMeans | core/query/helper.go:892-944 | Exists and NotExists ask whether the value at the path is null; an operator nobody knows is an error |
| FilterMeaning.RegisteredMeans | core/query/helper.go:892-944 | an unresolved value is the error it is, and otherwise a registered operator takes the place of the standard ones |
| FilterMeaning.GroupMeans | core/common/logical_operators.go:84-142 | each logical operator in terms of which members are true, and the groups that are errors |
| FilterMeaning.FirstFaultMeans | core/query/helper.go:995-1005 | the first member that cannot be judged decides, whatever the operator |
| Partitioning.Partitioner.PartitionFilters | core/query/partitioner.go:91-179 | the recursive loop computes the parts of the specification; a missing filter has no parts |
| Partitioning.UnsplitIsWhole | core/query/partitioner.go:91-179 | a filter that is not cut goes to one side unchanged |
| Partitioning.LeavesSplit | core/query/partitioner.go:91-183 | nothing is pushed that the backend does not support and nothing is lost or made up; without an Or all that it supports is pushed and the residual asks for the rest alone, text searches included |
| Partitioning.GroupsKeepTheirOperator | core/query/partitioner.go:139-168 | parts of a group are groups with its operator, and an Or never has two parts |
| Partitioning.GroupSpec | core/common/logical_operators.go:84-142 | when a group is true or false in terms of its members, errors included |
| Partitioning.SingleSpec | core/common/logical_operators.go:84-142 | a group of one member is its member or its negation |
| Partitioning.PartsMean | core/query/partitioner.go:91-179 | for every judge of conditions, errors included, a conjunction is true exactly when both parts are, a disjunction false exactly when both are |
| Partitioning.SplitIsSound | core/query/partitioner.go:91-179 | the pushed part and the residual select exactly the records the filter selects |
| Partitioning.AndOrQualifies | core/query/partitioner.go:135-167 | every tree of And and Or groups has the mode that makes the split sound |
| SplitShapes.AndTellsConjunction | core/common/logical_operators.go:89-96 | one member that is not the conjunction of its parts keeps an And from being one |
| SplitShapes.AndTellsDisjunction | core/common/logical_operators.go:89-96 | a cut And of two or more members is never the disjunction of its parts |
| SplitShapes.NorTells | core/common/logical_operators.go:109-115 | a cut Nor is told apart as the And of the negated members |
| SplitShapes.NandTells | core/common/logical_operators.go:124-130 | a cut Nand is told apart as the negated And, with the roles exchanged |
| SplitShapes.ParityTells | core/common/logical_operators.go:116-138 | a cut Xor or Xnor of two or more members is neither conjunction nor disjunction of its parts |
| PartitionExactness.Nonconstant | core/common/logical_operators.go:84-142 | a filter using each condition once can be made true and made false |
| PartitionExactness.OneAssignment | core/query/helper.go:995-1005 | choices for filters sharing no condition come from one assignment |
| PartitionExactness.ModeIsExact | core/query/partitioner.go:91-179 | a mode that is not a conjunction, or not a disjunction, has an assignment showing it |
| PartitionExactness.IllFormedFails | core/query/helper.go:995-1005 | a filter with an empty group, a Not of other than one member or an unknown operator at any depth fails every evaluation |
| PartitionExactness.SplitSoundExactly | core/query/partitioner.go:91-179 | for filters that use each condition once, the split selects what the filter selects under every truth assignment if and only if the filter splits soundly, filters that never evaluate included |
| PartitionExactness.EmptyGroupDropped | core/query/partitioner.go:135-167 | an empty group holds for no record, while its missing parts are passed by every record |
| RecordSplits.RecordsSplitExactly | core/query/partitioner.go:91-179 | for filters that ask each of their fields once for presence, the split selects what the filter selects on every record if and only if the filter splits soundly |
| RecordSplits.SoundOnJudge | core/query/partitioner.go:91-179 | a filter that splits soundly does so on every record, evaluation errors included, empty groups and repeated conditions included |
| RecordSplits.XorLosesEverything | core/query/partitioner.go:154-167 | an Xor of presence and absence holds for every record and is cut into parts no record passes |
| Projections.ProjectRecord | core/query/helper.go:648-706 | the loop over includes computes the projection to the paths |
| Projections.ProjectionExactly | core/query/helper.go:655-706 | at every path: what an include covers is as in the record, an object that leads to an include stays an object, and nothing else is there |
| Projections.PutCommutes | core/query/helper.go:655-706 | two includes may come in either order, even one leading through the other |
| Projections.OrderIrrelevant | core/query/partitioner.go:337-340 | a projection depends on the set of its includes, not their enumeration |
| Projections.ProjectionKeepsFields | core/query/helper.go:655-706 | every included path has the same value in the projected record |
| Projections.LateProjection | core/query/engine.go:127-132 | projecting an early projection to some of its includes is projecting the record |
| Projections.Dependencies.CollectFromFilter | core/query/partitioner.go:366-397 | the collectors add exactly the fields a filter names |
| Projections.FilterDepsExactly | core/query/partitioner.go:366-397 | a filter depends on the fields its conditions ask about and those their values mention, at any depth, and on no others |
| Projections.EvalSame | core/query/helper.go:874-1005 | records agreeing on a filter's dependencies get the same verdict or error |
| Projections.EarlyProjectionSound | core/query/partitioner.go:311-397 | the residual filter answers on the early-projected record as on the full one |
| QueryValidation.QueryHelper.ValidateFilterValue | core/query/helper.go:235-292 | accepts exactly values whose references and calls all have a name |
| QueryValidation.QueryHelper.ValidateQueryFilter | core/query/helper.go:165-232 | the first fault of a filter, or none |
| QueryValidation.FaultlessExactly | core/query/helper.go:165-232 | a filter is accepted exactly when every group has members and every condition at any depth is accepted, with no text search |
| QueryValidation.ResidualAcceptedExactly | core/query/engine.go:110-113 | the residual of a filter its author's helper accepts is accepted by the pipeline's helper exactly when it uses standard operators only |
| QueryValidation.UnsupportedStays | core/query/partitioner.go:91-179 | a condition the backend does not support is in the residual, at whatever depth it stood |
| QueryValidation.CheckedNamesFields | core/query/helper.go:188-192 | an accepted filter names no empty path, in fields and references alike |
| QueryValidation.JudgedAlike | core/query/helper.go:892-949 | a filter on which nothing registered bears gets the same verdict with nothing registered |
| QueryEngines.PartsEvaluate | core/query/helper.go:995-1005 | a filter that evaluates without an error has parts that do |
| QueryEngines.FilteredTwice | core/query/engine.go:112-125 | pushed filter, projection and residual filter keep exactly the records of the whole filter, in order |
| QueryEngines.PaginatedProjected | core/query/helper.go:583-617 | pagination and projection commute |
| QueryEngines.PagePositions | core/query/helper.go:583-617 | a page answers with the positions from its offset on, as many as its limit, as far as there are any; which kinds are no page and which are errors |
| QueryEngines.EmptySelectsAll | core/query/helper.go:583-640 | the empty query selects every record as it is |
| QueryEngines.PipelineIsDirect | core/query/engine.go:60-143 | for every backend the pipeline, checks included, answers as the direct evaluation whenever the query is faithful and that succeeds |
| QueryEngines.CustomOperatorsRefused | core/query/engine.go:110-118 | a residual is refused exactly when it holds a condition with a custom operator, registered or not; otherwise the remainder is evaluated if its page is accepted |
| QueryEngines.UnsupportedRefused | core/query/helper.go:194-205 | a custom operator the backend does not support makes the pipeline fail, wherever it stands |
| QueryEngines.EmptyPathRefused | core/query/helper.go:188-192 | a residual naming the empty path is refused before any record is looked at |
| QueryEngines.ZeroLimitRefused | core/query/helper.go:129-139 | a query, with or without a residual, whose page is left to the helper is answered as the direct evaluation exactly for positive limits or when totals are asked for, with the failure named otherwise |
| QueryEngines.PageHarmlessExactly | core/query/partitioner.go:66-71 | to a query that lists its fields, a page pushed before a residual leaves every answer right if and only if it answers nothing, nothing is ever selected, or the pushed part lets no rejected record through |
| QueryEngines.PageHarmlessByShape | core/query/partitioner.go:66-71 | for filters that ask each field once for presence, if and only if it answers nothing |
| QueryEngines.FieldsKeptExactly | core/query/partitioner.go:311-343 | without included fields the answer is right if and only if every selected record consists of the residual's fields |
| QueryEngines.FieldsLostExactly | core/query/partitioner.go:311-343 | without included fields, behind a pushed page or not, every answer is right if and only if nothing can be selected or the page answers nothing |
| QueryEngines.PageCutTooEarly | core/query/partitioner.go:66-71 | a pushed page loses the one match that a residual filter would have found |
| QueryEngines.FieldsLost | core/query/partitioner.go:311-343 | without included fields a record keeps only the residual filter's fields |
| QueryRuns.QueryEngine.AugmentProjection | core/query/partitioner.go:311-343 | the fields asked for are exactly the residual's dependencies and the wanted ones |
| QueryRuns.QueryEngine.FilterRecords | core/query/helper.go:470-495 | the matching records in order, or the first error |
| QueryRuns.QueryEngine.ValidateQuery | core/query/helper.go:105-142 | why the helper refuses the remainder, or nothing |
| QueryRuns.QueryEngine.PartitionFor | core/query/engine.go:63-83 | the kept partition of the key, or a fresh one that is kept, whatever the cache forgot |
| QueryRuns.QueryEngine.Run | core/query/engine.go:50-143 | the answer through the partition the run so far leaves for the query, and the cache as noted afterwards; the direct evaluation for faithful queries where every run is as fresh |
| QueryRuns.RunsFreshExactly | core/query/engine.go:63-83 | every run of queries of a set is answered as by fresh partitions if and only if keys lead to interchangeable partitions only and no empty name is kept for another query |
| QueryRuns.SameInterchangeable | core/query/engine.go:60-143 | queries with the same parts, page and set of included fields are interchangeable |
| QueryRuns.TellingKeysSuffice | core/query/engine.go:150-161 | a key shared only by such queries, and no empty names, make every run as fresh |
| QueryRuns.EveryRunIsDirect | core/query/engine.go:60-143 | over every such run a faithful query is answered as its direct evaluation |
| QueryRuns.ReferenceTakenForObject | core/query/json.go:233-255 | a comparison with an object, asked after one with a reference that is written down alike, loses the record it selects |
| QueryRuns.EmptyNameRefusedAgain | core/query/engine.go:132 | a faithful query with a residual that includes the empty name is answered once and refused the next time |
| Joins.RightStreamIsBatch | core/query/helper.go:1391-1440 | right documents outermost gives the rows that left documents outermost and the unmatched rest give |
| Joins.LeftIsInner | core/query/helper.go:1541-1566 | a left join is the inner join and the unmatched left documents |
| Joins.FullStreamIsBatch | core/query/helper.go:1442-1518 | the streaming full join has the rows of the whole one |
| Joins.FinishedMultiset | core/query/helper.go:1187-1198 | projecting rows keeps equal row multisets equal |
| Joins.StreamsAgree | core/query/helper.go:1303-1629 | streaming inner and left joins equal the whole joins as sequences, right and full joins as multisets |
| Joins.FullIsLeftAndRest | core/query/helper.go:1595-1629 | a full join is the left join followed by rows of unmatched right documents, each row exactly as often as there are such documents with it |
| Joins.RowsCounted | core/query/helper.go:1303-1629 | for distinct names: every row of a join holds a left document, a right one, or both under their own names, and occurs as often as there are pairs for which the condition is true and documents for which it is true of none |
| Joins.Join | core/query/helper.go:1152-1201 | all rows of the join type, each as often as pairs and unmatched documents give it, the documents under their own names; or an error exactly when some pair cannot be judged |
| Joins.JoinStreams | core/query/helper.go:1206-1261 | the rows sent, each as often as pairs and unmatched documents give it, agree with the whole join; it fails exactly when the whole join does |
| JsonPointers.UnescapeEscape | core/json/utils.go:8-14 | unescaping undoes escaping for every key |
| JsonPointers.UnescapesInOnePass | core/json/patch.go:388-412 | unescaping is one pass over the key: "~1" becomes a slash, and "~0" a tilde that is not read again |
| JsonPointers.PartsRender | core/json/patch.go:388-412 | the keys of a rendered path are the keys it was rendered from, empty keys included |
| JsonPointers.AtoiDecimal | core/json/patch.go:377-386 | a decimal array index reads back within the machine range |
| JsonPointers.AtoiMeans | core/json/patch.go:377-386 | digit by digit, lowest last, behind one sign at most, which number a text of digits is, and that it is none outside the machine range |
| JsonPointers.AtoiRefuses | core/json/patch.go:377-386 | a text with anything but digits behind its sign is no number |
| JsonPatches.RunInObject | core/json/patch.go:229-297 | operations below a key act on that child and nothing else |
| JsonPatches.RunInArray | core/json/patch.go:229-314 | operations below an index act on that element and nothing else, replacements included |
| JsonPatches.AppliedAt | core/json/patch.go:171-225 | applying operations by their path text is applying them by their keys |
| PatchMeaning.AddAtDoes | core/json/patch.go:229-275 | an add puts its value under the key, there before or not, or before the element at the index, or at the end; every error is named by where the path gets stuck |
| PatchMeaning.RemoveAtDoes | core/json/patch.go:277-315 | a remove takes exactly the member or element away; every error is named by where the path gets stuck |
| PatchMeaning.ReplaceDoesSo | core/json/patch.go:186-192 | a replace changes exactly the place its path leads to; the empty path replaces the whole |
| PatchMeaning.AllDo | core/json/patch.go:171-225 | a list of operations is these one after another, up to the first failure |
| PatchMeaning.DoesIsDetermined | core/json/patch.go:171-315 | what is said of an operation leaves it one outcome only |
| JsonPatches.ObjectChild | core/json/patch.go:127-149 | patching one more common key brings exactly that key to its new value |
| JsonPatches.ArrayRemove | core/json/patch.go:99-124 | removals at rising indices: the first works, a second skips an element, the last is out of bounds |
| JsonPatchers.Patcher.GetParts | core/json/patch.go:388-412 | the keys of a path whether cached or not; every cached path keeps its own keys |
| JsonPatchers.Patcher.Apply | core/json/patch.go:171-225 | the operations one after another, each doing to the place its path leads to what it is for, up to the first failure, which is named |
| JsonPatchers.Patcher.HandleArrays | core/json/patch.go:99-124 | the patches appended turn the old array into the outcome |
| JsonPatchers.Patcher.HandleObjects | core/json/patch.go:127-168 | the patches appended turn the old object into the outcome, for any key order |
| JsonPatchers.Patcher.CreatePatch | core/json/patch.go:33-39 | applying the patch gives the new value when no aligned array loses two elements and an index error otherwise; it is empty exactly for equal values |
| JsonPatchers.ShrinkByTwoFails | core/json/patch.go:99-124 | emptying a two-element array creates a patch that fails |
| JsonValidators.Validator.ValidateSchema | core/json/schema.go:509-651 | ends for every schema, cyclic references included; for a plain schema no issue is appended exactly when the instance meets it |
| JsonSchemas.TypeMeans | core/json/schema.go:653-687 | every value has exactly the type named after its kind, and a number without a fraction is an integer too |
| JsonSchemas.ElementMeans | core/json/schema.go:735-793 | the schema of an element by the kind of the items keyword; additional items come behind a tuple only |
| JsonValidators.Validator.Probe | core/json/schema.go:581-650 | a sub-context leaks no issue, only whether there were any |
| JsonValidators.Validator.ValidateArray | core/json/schema.go:735-793 | no issue exactly when counts, elements and contains meet the schema |
| JsonValidators.Validator.ValidateObject | core/json/schema.go:795-871 | no issue exactly when counts, properties, patterns, additional properties, names and dependencies meet the schema, in any order |
| JsonValidators.Validator.CountValid | core/json/schema.go:601-618 | the count is one exactly when a single member is met |
| JsonValidators.Validator.ValidateLogic | core/json/schema.go:575-651 | no issue exactly when the combinators and the conditional meet the schema |
| JsonValidators.Validator.CheckInstanceDepth | core/json/schema.go:921-945 | accepts exactly instances nested within the limit |
| JsonValidators.Validator.ValidateValue | core/json/schema.go:454-485 | for a reference-free schema within the limit, no issue exactly when the value meets it |
| ClockShards.RemovedSpec | core/cache/cache.go:305-325 | removal takes exactly one key out and keeps the hand in the list |
| ClockShards.HandAfterRemoval | core/cache/cache.go:305-325 | the hand stays at its entry; at the removed one it moves to the entry before it, from the front to the one behind, in an emptied shard to none |
| ClockShards.VictimSpec | core/cache/cache.go:343-375 | the victim is the first entry without the accessed bit in cyclic order from the hand, or the starting entry when all have it |
| ClockShards.EvictedOneSpec | core/cache/cache.go:343-375 | eviction removes exactly the victim |
| ClockShards.EvictedOneKeeps | core/cache/cache.go:343-375 | the others keep order and contents, and only entries passed over lose their bit |
| ClockShards.HandAfterEviction | core/cache/cache.go:343-375 | after an eviction the hand is at the entry before the victim, or behind it when that was the front |
| ClockShards.StoredSpec | core/cache/cache.go:420-444 | a write maps the key to the entry, and a new key in a full shard, and only that, costs exactly the victim |
| ClockShards.WritesToFront | core/cache/cache.go:420-444 | a write puts its entry at the front with its bit clear; the others keep order and bits |
| ClockShards.HandAfterWrite | core/cache/cache.go:420-444 | the hand stays at the entry it was at |
| ClockShards.NewcomerEvicted | core/cache/cache.go:420-444 | the entry just written is the one evicted exactly when every entry from the hand to the front has its bit set |
| ClockShards.ReadMarks | core/cache/cache.go:396-415 | a read that does not miss sets the accessed bit of its entry; everything else is as before |
| ClockShards.PersistedSpec | core/cache/cache.go:626-640 | a persisted key answers for ever what it answered, and other keys are untouched |
| ClockShards.SweptSpec | core/cache/cache.go:516-531 | a sweep removes only expired entries within its reach |
| ClockShards.SweptComplete | core/cache/cache.go:516-531 | and all of those |
| ClockShards.SweptGone | core/cache/cache.go:516-531 | a sweep removes every expired key within its reach, whatever else it removes |
| ClockShards.SweepInvisible | core/cache/cache.go:516-531 | every lookup at or after the sweep time answers as before |
| CacheShards.CacheShard.RemoveElementLocked | core/cache/cache.go:305-325 | map, list and hand stay in step and the shared counter drops by one |
| CacheShards.CacheShard.EvictOneCLOCK | core/cache/cache.go:343-375 | the scan in place equals eviction on values and evicts exactly when there is an entry |
| CacheShards.CacheShard.UpsertLocked | core/cache/cache.go:420-444 | the write in place equals the write on values, the cap holds and the counter follows the size |
| CacheShards.CacheShard.GetStatus | core/cache/cache.go:396-415 | the answer of the map at that time, with only the accessed bit of a live entry changed |
| CacheShards.CacheShard.Persist | core/cache/cache.go:626-640 | equals persisting on values, and tells whether the key was live |
| CacheShards.CacheShard.SweepExpiredBounded | core/cache/cache.go:516-531 | the bounded loop from the back equals the sweep on values and counts what it removed |
| CacheShards.CacheShard.CompactIfNeeded | core/cache/cache.go:536-549 | rebuilding the map changes nothing observable |
| CacheModels.MergedSize | core/cache/cache.go:280-283 | the number of keys is the sum of the shard sizes |
| CacheModels.TotalBound | core/cache/cache.go:731-757 | the total never exceeds the larger of the limit and the number of shards |
| CacheModels.MergedStored | core/cache/cache.go:794-826 | a write to a key's home shard writes that key in the whole map, losing at most the victim |
| CacheModels.MergedSwept | core/cache/cache.go:948-972 | sweeping all shards is invisible to lookups from that time on |
| CacheModels.MergedSweptExactly | core/cache/cache.go:948-972 | over all shards: only keys that would miss at that time go, and all of them when no shard is longer than the batch |
| CacheModels.AgreesWithInMemory | core/cache/simple_cache.go:36-112 | without cap and lifetimes, every history of writes, evictions, clears, reads and sweeps is answered as the in-memory cache answers it without the overlong keys |
| ManagedCaches.NextPowerOfTwo | core/cache/config.go:108-117 | the smallest doubling that reaches the bound, a power of two |
| ManagedCaches.Normalize | core/cache/config.go:119-150 | every default filled in, the shard count a power of two |
| ManagedCaches.ManagedCache.SizeIsBounded | core/cache/cache.go:731-757 | the counter counts the keys, and the limit holds up to one entry per shard |
| ManagedCaches.ManagedCache.constructor | core/cache/cache.go:719-766 | empty shards in a power-of-two number, each with its share of the limit |
| ManagedCaches.ManagedCache.SetWithTTL | core/cache/cache.go:794-807 | overlong keys are dropped, any other is mapped to the value with its resolved expiry, losing at most the victim |
| ManagedCaches.ManagedCache.NullifyWithTTL | core/cache/cache.go:813-826 | overlong keys are dropped, any other is marked absent with its resolved expiry, losing at most the victim |
| ManagedCaches.ManagedCache.SetThenGet | core/cache/cache.go:776-807 | after a write, whatever was there, a read at any time answers the value exactly while the lifetime lasts: for ever when it is negative or neither it nor the configured one is positive, else until that many nanoseconds later; the key is missed otherwise, or when a full shard evicted it |
| ManagedCaches.ManagedCache.NullifyThenGet | core/cache/cache.go:776-826 | the same for the absence marker with the negative lifetime |
| ManagedCaches.ManagedCache.GetStatus | core/cache/cache.go:776-787 | the answer of the whole map at that time; the map stays |
| ManagedCaches.ManagedCache.Evict | core/cache/cache.go:840-842 | the whole map without that key |
| ManagedCaches.ManagedCache.Persist | core/cache/cache.go:836-838 | what the key answers now it answers for ever; other keys are untouched |
| ManagedCaches.ManagedCache.Sweep | core/cache/cache.go:948-972 | a janitor tick removes only keys that would miss at that time, and all of them when the batch reaches; it is invisible and counts what it removed |
| ManagedCaches.ManagedCache.Clear | core/cache/cache.go:853-857 | the empty map, and the counter at zero |
| ManagedCaches.ManagedCache.EvictBatch | core/cache/cache.go:1016-1035 | a watermark tick evicts exactly the smaller of the batch size and the surplus over the low watermark |
| ManagedCaches.InMemoryCache.Set | core/cache/simple_cache.go:56-60 | one step of the reference cache |
| Versions.PackingIsExact | core/common/version.go:168-193 | unpacking a packed version gives back its masked fields, and every 64-bit word is the packing of its own version |
| Versions.OrderIsLexicographic | core/common/version.go:195-205 | packed versions compare as their masked fields do, field by field |
| Versions.NextIsLater | core/common/version.go:243-256 | an operation makes a later version if and only if the field it counts is not at its last value, or the promotion goes up |
| Versions.FieldsAfter | core/common/version.go:243-256 | which fields each operation counts up, resets and keeps; it appends the old version to the history |
| Versions.FailsExactly | core/common/version.go:436-576 | when an operation fails and with which error |
| Versions.RunRises | core/common/version.go:425-576 | over every run no version is lost, and history and current version rise strictly if and only if every operation that succeeded advances |
| Versions.AddressesAreExact | core/common/version.go:302-332 | addresses name positions exactly below 1024, and the first position from there on |
| Versions.Index | core/common/version.go:409-421 | the address of the first equal version, or not found exactly when there is none |
| Versions.ResolveIndex | core/common/version.go:397-421 | resolving the address of a version gives an equal version if and only if its first place is below 1024 |
| Versions.HistoriesOutgrowAddresses | core/common/version.go:465-473 | n patch bumps make a history n longer, without bound |
| Versions.LateVersionsMisresolved | core/common/version.go:397-421 | in a rising history every version from position 1024 on resolves to the oldest one |

## Left out

- RegistryOperations.Registry.Import: requires content with distinct slots and ids and data for every entry; the program does not check this.
- RegistryOperations.Registry.Get: the view a key is turned into is the handle and the bytes it is applied to; NewView itself is a parameter of the program.
- Handles.MakeSpec: the specification of handles is restricted to the length widths 1 to 32 that NewHandleSpec accepts.
- IdTables.IdTable.Find: the 64-bit mixing hash is written with integer arithmetic and the mask as a remainder, which agrees with the program for its power-of-two capacities.
- Transfer.WrittenSpec: requires content with distinct slots and ids and data for every entry, as every export of a sound snapshot is; the program does not check this.
- Transfer.CapacityCheck: requires lengths that fit the data; beyond that the 64-bit sum can wrap.
- Registries.BuildWritten: requires well-formed content, as Transfer.WrittenSpec.
- CachedRegistries.CachedRegistry.Import: requires well-formed content, as RegistryOperations.Registry.Import.
- QueryFilters.EvaluateFilter: filter and compute functions that are given the whole record are not modelled, so a standard operator or a call replaced by one is not.
- Partitioning.Partitioner.PartitionFilters: conditions with subqueries are not modelled.
- Partitioning.UnsplitIsWhole: holds for filters without empty groups only; those with one are in PartitionExactness.SplitSoundExactly.
- Partitioning.PartsMean: for filters without empty groups; one with an empty group never evaluates, see PartitionExactness.IllFormedFails.
- Partitioning.SplitIsSound: for filters without empty groups; RecordSplits.SoundOnJudge covers the others.
- Projections.ProjectRecord: nested, excluded and computed fields are not modelled.
- QueryRuns.QueryEngine.AugmentProjection: computed fields, joins, aggregations and sorts are not modelled.
- QueryRuns.QueryEngine.ValidateQuery: the checks of the target's name, sorts, aggregations and distinct settings, which the modelled queries do not have.
- Joins.JoinStreams: rows already sent before an error are not stated.
- JsonPatchers.Patcher.Apply: move, test and removeValue are not modelled.
- ManagedCaches.Normalize: the watermark, interval and batch defaults are not modelled.
- ManagedCaches.NextPowerOfTwo: bounds above 2^62, on which the program doubles without end, are excluded.
- ManagedCaches.ManagedCache.constructor: shard counts above 2^62 are excluded.
- RecordSplits.RecordsSplitExactly: exact for filters over the presence of fields, which realise every truth assignment; other operators need not.
- Versions.RunRises: parsing of version texts and their printing are not modelled.
- PartitionExactness.SplitSoundExactly: exact for filters that use every condition once and search no text; for repeated conditions the mode is sufficient but not necessary, since they can cancel.
- JsonValidators.Validator.ValidateSchema: with references only termination, unchanged depth and visited pairs, and growth of the issues are stated; a schema with a cycle is cut where it is met again.
- QueryEngines.CustomOperatorsRefused: the functions an engine registers after the check, which are given the whole record, are not modelled; none is taken to be registered.
- QueryEngines.PartsEvaluate: for filters without empty groups; others never evaluate.
- QueryEngines.FilteredTwice: for filters without empty groups whose mode is a conjunction; RecordSplits.SoundOnJudge and PartitionExactness.SplitSoundExactly say what holds of others.
- QueryEngines.PageHarmlessExactly: for queries that list fields; FieldsLostExactly is the other case.
- QueryValidation.QueryHelper.ValidateFilterValue: the type tag of a reference, several kinds set at once and subqueries are not modelled.
- QueryRuns.QueryEngine.PartitionFor: the text a query is written down as and its hash are one function, with no value for queries that cannot be written down; the result shape and the document pool noted in a kept partition are not modelled.
- QueryEngines.PipelineIsDirect: says nothing when the direct evaluation fails: an error on a record the pushed part already rejects does not surface in the pipeline.
- Registry `onWrite`, `UpdateHandle` and `Clone`, the data callback of `Read`, statistics and the tombstone counter.
- Sharing of backing arrays: snapshots hold their data as values, so the truncated slice an emptied defragmentation keeps, and the arrays a clone shares, are not visible.
- Timers, goroutines, tickers, channels and locks: every locked operation is one step, the evictor's loop is sequential, and a channel is the sequence that passes through it.
- The restriction of the error returns in Set and Get that no state reaches; they are proved unreachable.
- Subqueries, text search evaluation, unions, custom Go predicates that see the whole record, sorting, aggregation, and conditions set beside a group in one filter.
- Nested, excluded and computed projection fields; joins without a condition.
- `move`, `test`, `removeValue` and unknown operations of a patch; aliasing of operation values, which are not copied when applied; NaN; the difference between nil and empty containers.
- Compiling schema texts and resolving references (resolution is a parameter); regular expressions, formats and `multipleOf` on floating-point numbers (oracles); a `const` of null counts as absent, as in the program.
- The eviction callback, hit and miss counters, cloning of caches, and the floating-point watermarks (the low watermark is a parameter). Shard counts above 2^62 would make the doubling loop overflow and are excluded.
- Result bit sets, document addressing and binding, DTO extraction, hashing and signing, the ephemeral store, code generation, events and error formatting: plumbing, or easy members beside the above.
- Negative pagination offsets and limits: refused when the page is left to the helper, except a negative limit with totals asked for, on which slicing panics.
