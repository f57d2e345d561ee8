# Verified model of AgentStateGraph's core

AgentStateGraph keeps state as a Merkle DAG: maps, lists and sets refer to their children by
content hash. This project models the algorithms that run on that DAG and the key store that
guards it, and proves what they promise.

- **Objects and stores** (`Order`, `Objects`, `Dags`, `Trees`, `ReachableParts`, `AnyStore`). A store is a map
  from ids to objects with an abstract hash. Nothing assumes the hash injective: statements ask
  only that the objects of one store, and those a merge creates, do not collide. Stores written
  child-first are proved acyclic and closed. `Expand` replaces ids by what they name.
- **Three-way merge** (`Merge`, `MergeEngine`, `TreeMerge`, `MergeRefinement`, `MergeCreated`,
  `MergeStrict`, `MergeLaws`, `MergeResolve`, `MergeTheorems`). `MergeEngine` is the code:
  growing vectors, a resolver that remembers its first failure, a loop over sorted keys. `Merge`
  is what it computes, and `TreeMerge` is the merge stated on whole trees, against which the
  id-based one is proved.
- **Structured diff** (`Diff`, `DiffEngine`, `DiffPatch`, `DiffMirror`, `DiffDistinct`,
  `DiffBlurs`, `DiffTruth`, `DiffOrder`, `DiffMerge`). The op stream as a patch, its mirror image, how it composes with merge, and the emitted list as
  exactly the differences of the two trees.
- **Text forms** (`Paths`, `Decimal`, `Hex`).
- **Schemas** (`Json`, `SchemaHints`, `SchemaValidation`). The flat hint index against the schema
  it came from, and the validator against a declarative predicate.
- **Keys and namespaces** (`KeyStore`, `KeyRuns`, `Tenants`, `Namespaces`, `NamespaceCache`).
  `Tenants` is the manager with its fields; each of its calls is proved to be a step of `KeyRuns`,
  whose runs also have failed saves, crashes, restarts, touches at any moment, and bootstraps
  whose check and insert are separate steps.
  `NamespaceCache` interleaves the steps of concurrent lookups.

A store is *sound* when it is acyclic and closed, holds every object under its own id, and its
set nodes were made by `Object::set`. `AnyStore` states the main results again for any acyclic
store in which the three (or two) roots reach only objects that are there, under their own ids and
with canonical sets; the rest of the store may be anything.

`dafny verify dfyconfig.toml` checks the project.

## Model

| member | source | states |
|---|---|---|
| Objects.MakeSet | crates/agentstategraph-core/src/object.rs:207-212 | `Object::set` turns any list of ids, whatever its order and repetitions, into the one ascending listing of their set |
| Objects.CanonicalSetUnique | crates/agentstategraph-core/src/object.rs:207-212 | two set nodes made by `Object::set` with the same members are the same object |
| Objects.IdOrder | crates/agentstategraph-core/src/object.rs:207-212 | the order `sort` uses on ids is total, antisymmetric and transitive |
| Dags.PutSound | crates/agentstategraph-core/src/object.rs:137-145 | writing an object whose children are stored keeps the store sound (acyclic, closed, every object under its own id, sets canonical) and loses nothing |
| Dags.PutAllSound | crates/agentstategraph-core/src/merge.rs:100-111 | writing a child-first list in order keeps the store sound after all of it and stores exactly those objects |
| Dags.BuiltStoreIsSound | crates/agentstategraph-core/src/object.rs:137-145 | a store filled from nothing, children before parents, without hash collisions among its objects, is sound; in particular the rank that falls from parent to child exists |
| Dags.BelowIsStored | crates/agentstategraph-core/src/merge.rs:100-111 | in a closed store every id reached from an object whose children are stored is stored |
| Trees.ExpandExtends | crates/agentstategraph-core/src/object.rs:137-145 | objects added to a store do not change what an id already in it stands for |
| Trees.ObjectsStandForTrees | crates/agentstategraph-core/src/object.rs:137-145 | two objects expand to the same tree exactly when they are the same object |
| Trees.IdsStandForTrees | crates/agentstategraph-core/src/object.rs:137-145 | two ids are equal exactly when their expanded trees are equal |
| Trees.SetSize | crates/agentstategraph-core/src/merge.rs:78 | the count printed for a set node is the number of different trees in it |
| ReachableParts.PartIsSound | crates/agentstategraph-core/src/diff.rs:111-115 | the part of any store that some roots reach is sound when nothing they reach is missing |
| ReachableParts.MergeNeedsOnlyPart | crates/agentstategraph-core/src/merge.rs:115-168 | merging in a store that is closed only from the three roots equals merging in the sound part they reach, strict and lenient |
| ReachableParts.DiffNeedsOnlyPart | crates/agentstategraph-core/src/diff.rs:121-146 | the same for `diff` and its two roots |
| AnyStore.MergeRefinesAnywhere | crates/agentstategraph-core/src/merge.rs:115-168 | in any acyclic store in which the three roots reach nothing missing, whatever else it holds: with `created` written, the merged root is complete and stands for the three-way merge of the three trees, and the conflicts are exactly its clashes |
| AnyStore.NoDanglingAnywhere | crates/agentstategraph-core/src/merge.rs:100-111 | in any such store: after any number of the writes the roots and all objects written so far are complete; after all of them so is the merged root; it reaches every created object |
| AnyStore.WritesGrow | crates/agentstategraph-core/src/merge.rs:100-111 | writing `created` beside anything at all leaves the store acyclic and the reached part intact |
| AnyStore.SwapAnywhere | crates/agentstategraph-core/src/merge.rs:115-168 | the symmetry of merge in any such store |
| AnyStore.SettleAnywhere | crates/agentstategraph-core/src/merge.rs:274-298 | the exactness of the conflict list in any such store |
| AnyStore.ConflictPathsApartAnywhere | crates/agentstategraph-core/src/merge.rs:318-322 | conflict paths form an antichain in any such store |
| AnyStore.ConflictPathParsesAnywhere | crates/agentstategraph-core/src/path.rs:44-76 | conflict paths parse to the keys of the reported values in any such store |
| AnyStore.DiffPatchesAnywhere | crates/agentstategraph-core/src/diff.rs:117-146 | the diff is a patch, and empty exactly for equal ids and equal trees, in any store in which its two roots reach nothing missing |
| AnyStore.DiffsComposeAnywhere | crates/agentstategraph-core/src/merge.rs:301-478 | merge composes diffs, with the same exact condition for conflicts, in any store in which the three roots reach nothing missing |
| TreeMerge.MapsAlwaysMerge | crates/agentstategraph-core/src/merge.rs:222-233 | on trees, the three early exits give for maps what merging key by key gives |
| Merge.ResultKind | crates/agentstategraph-core/src/merge.rs:121-168 | the result is a fast-forward exactly when two roots are equal or one is missing, over the three ids and the store alone; it then creates nothing and goes to the side that changed, or to theirs when the base or ours is missing and to ours when theirs is; every other merge is a success or has conflicts |
| Merge.UnresolvedChild | crates/agentstategraph-core/src/merge.rs:337-373 | a key on all three sides, changed by both, one of whose objects is missing, keeps ours with a bare conflict and creates nothing |
| Merge.UnresolvedAdded | crates/agentstategraph-core/src/merge.rs:383-424 | a key both sides added, one of whose objects is missing, keeps ours and reports what was found |
| Merge.KeysEntries | crates/agentstategraph-core/src/merge.rs:318-473 | the merged map holds for each key exactly what that key decided, and no other key |
| Merge.KeyDeleted | crates/agentstategraph-core/src/merge.rs:426-465 | a key deleted by one side and changed by the other keeps what ours has and reports one conflict with the values of the sides that have it |
| MergeEngine.TrackingResolver.constructor | crates/agentstategraph-core/src/merge.rs:185-188 | a fresh tracker has seen no lookup and no failure |
| MergeEngine.TrackingResolver.Find | crates/agentstategraph-core/src/merge.rs:202-210 | a lookup returns what the wrapped resolver returns and the tracker remembers the first id that failed |
| MergeEngine.RunMerge | crates/agentstategraph-core/src/merge.rs:213-298 | the recursion returns the object, and appends to both vectors and to the lookups exactly what the merge function says |
| MergeEngine.RunMaps | crates/agentstategraph-core/src/merge.rs:301-478 | the sorted keys of the three maps are merged into a new map, pushed last |
| MergeEngine.RunKeys | crates/agentstategraph-core/src/merge.rs:318-473 | its loop over the keys |
| MergeEngine.RunKey | crates/agentstategraph-core/src/merge.rs:324-473 | one key of that loop, all eight cases of presence |
| MergeEngine.RunChild | crates/agentstategraph-core/src/merge.rs:336-373 | a key on all three sides: resolve, recurse, or keep ours with a bare conflict if one does not resolve |
| MergeEngine.RunAdded | crates/agentstategraph-core/src/merge.rs:383-424 | a key both sides added: two maps merge from an empty base, anything else conflicts |
| MergeEngine.RunLists | crates/agentstategraph-core/src/merge.rs:480-518 | lists changed differently keep ours and report the three lengths |
| MergeEngine.RunSets | crates/agentstategraph-core/src/merge.rs:521-533 | sets merge to the canonical node of their union |
| MergeEngine.ThreeWayMergeCollect | crates/agentstategraph-core/src/merge.rs:115-168 | the entry point with its fast-forward exits computes the merge function and asks the lookups in its order |
| MergeEngine.TryThreeWayMergeCollect | crates/agentstategraph-core/src/merge.rs:179-194 | the strict entry point computes the strict merge function |
| MergeRefinement.MergeMatches | crates/agentstategraph-core/src/merge.rs:213-298 | at every depth and path, the merged object expands to the merge of the three expanded trees, and the conflicts are its clashes rendered |
| MergeRefinement.MergeRefinesTreeMerge | crates/agentstategraph-core/src/merge.rs:115-168 | on a sound store the result, read back with `created` written, is the three-way merge defined on expanded trees, and the reported conflicts are exactly its clashes in order; fast-forwards included |
| MergeRefinement.ConflictsAreClashes | crates/agentstategraph-core/src/merge.rs:158-168 | the result is `Conflicts` exactly when the tree merge has a clash, and `Success` exactly when it has none and the roots are different |
| MergeRefinement.SummaryOfExpanded | crates/agentstategraph-core/src/merge.rs:63-83 | the value reported for an object is its tree's: the atom itself, but for bytes, or the kind and size written out |
| MergeCreated.MergeBacked | crates/agentstategraph-core/src/merge.rs:213-298 | `created` is child-first, and the result and every id directly below it are stored or created |
| MergeCreated.CreatedEndsWithRoot | crates/agentstategraph-core/src/merge.rs:475-477 | the merged node is the last object created when three different containers of one kind merge, and nothing is created otherwise |
| MergeCreated.CreatedUnder | crates/agentstategraph-core/src/merge.rs:353-357 | every created object is the result or below it, also when objects are missing |
| MergeCreated.MergeReadBack | crates/agentstategraph-core/src/merge.rs:100-111 | with `created` written the merged root can be read back by its id from a sound store |
| MergeCreated.NoDanglingNodes | crates/agentstategraph-core/src/merge.rs:100-111 | in a sound store, after any number of the writes the store is closed; after all of them everything the merged root reaches is stored; every created object is reached from that root |
| MergeStrict.MergeReadsOnly | crates/agentstategraph-core/src/merge.rs:213-298 | two resolvers that answer the lookups of one run alike get the same object, conflicts, created list and lookups |
| MergeStrict.ThreeWayReadsOnly | crates/agentstategraph-core/src/merge.rs:115-168 | the same for the whole merge, strict and lenient, missing objects included |
| MergeStrict.OkIsFinal | crates/agentstategraph-core/src/merge.rs:179-194 | an `Ok`, result and created list alike, is the same in every larger store |
| MergeStrict.QueriesBelow | crates/agentstategraph-core/src/merge.rs:213-298 | every id looked up is below one of the three objects |
| MergeStrict.ErrNamesFirstMissing | crates/agentstategraph-core/src/merge.rs:170-210 | `Err(id)` names the first lookup that failed, and the id is reached from one of the three roots |
| MergeStrict.ClosedMergeIsOk | crates/agentstategraph-core/src/merge.rs:179-194 | when nothing the roots reach is missing, the strict merge is `Ok` and equals the lenient one |
| MergeLaws.MergeIsSymmetric | crates/agentstategraph-core/src/merge.rs:222-298 | swapping the sides of a tree merge flips every clash in place and keeps the tree when there is none |
| MergeLaws.ClashesAreTruthful | crates/agentstategraph-core/src/merge.rs:274-298 | a clash shows the three pairwise different subtrees at its place, and the partial result has ours there |
| MergeLaws.ClashesFormAntichain | crates/agentstategraph-core/src/merge.rs:318-322 | no clash place is a prefix of another |
| MergeResolve.SettlingIsExact | crates/agentstategraph-core/src/merge.rs:359-465 | for every subset of the clash places, putting ours at them on their side and merging again gives the same tree and exactly the remaining clashes |
| MergeTheorems.SwappedMerge | crates/agentstategraph-core/src/merge.rs:115-168 | swapping ours and theirs succeeds exactly when the original does, with the same tree; otherwise the same conflicts in the same order with the sides exchanged |
| MergeTheorems.SettledMerge | crates/agentstategraph-core/src/merge.rs:274-298 | the code, given a settled version of theirs for any subset of the conflict places, delivers the same tree and reports exactly the remaining conflicts |
| MergeTheorems.RenderIsPrint | crates/agentstategraph-core/src/merge.rs:318-322 | with non-empty keys the path a conflict carries is the printed state path of its keys |
| MergeTheorems.ConflictPathsApart | crates/agentstategraph-core/src/merge.rs:318-322 | with non-empty '/'-free keys the conflict paths are pairwise different and none lies under another |
| MergeTheorems.ConflictPathParses | crates/agentstategraph-core/src/path.rs:44-76 | with keys that are also not numbers and within the caps, `StatePath::parse` of a conflict path gives the keys that lead, in each tree, to the value reported |
| DiffEngine.RunDiff | crates/agentstategraph-core/src/diff.rs:121-146 | `diff` emits the full op stream with each resolved object summarised, and nothing when a root is missing |
| DiffEngine.RunObjects | crates/agentstategraph-core/src/diff.rs:150-193 | one level of the comparison: same objects, atoms, the three containers, a change of type |
| DiffEngine.RunMaps | crates/agentstategraph-core/src/diff.rs:196-260 | removed keys, then added, then changed, each in key order |
| DiffEngine.RunLists | crates/agentstategraph-core/src/diff.rs:262-320 | position by position up to the longer length |
| DiffEngine.RunSets | crates/agentstategraph-core/src/diff.rs:322-356 | removed members, then added, each in id order |
| DiffEngine.RunChild | crates/agentstategraph-core/src/diff.rs:235-257 | a slot with different ids: recurse, or null for null when one does not resolve |
| DiffPatch.PatchGivesNew | crates/agentstategraph-core/src/diff.rs:150-356 | at every path, whatever ops lie elsewhere, applying the ops at and below it to the old tree gives the new tree |
| DiffPatch.DiffIsAPatch | crates/agentstategraph-core/src/diff.rs:117-146 | the op stream turns the old tree into the new one, list positions read against the old list |
| DiffPatch.EmptyDiffMeansEqual | crates/agentstategraph-core/src/diff.rs:126-130 | the diff is empty exactly when the ids are equal, and exactly when the trees are |
| DiffDistinct.DiffHasNoRepeats | crates/agentstategraph-core/src/diff.rs:117-146 | the full op stream lists no op twice, and touches no place twice except for members of one set |
| DiffDistinct.PrintInjective | crates/agentstategraph-core/src/path.rs:124-138 | paths of indices and of non-empty, '/'-free, non-numeric keys that print alike are the same path |
| DiffBlurs.PrintedObject | crates/agentstategraph-core/src/diff.rs:79-110 | what a diff prints for an object depends on its tree only |
| DiffBlurs.TwinsAreBlurs | crates/agentstategraph-core/src/diff.rs:150-356 | at every path, the full stream has two set ops that print alike exactly when, at a place common to the two trees, a set gains or loses two different members that print alike |
| DiffBlurs.EmittedRepeatsExactly | crates/agentstategraph-core/src/diff.rs:117-146 | with such map keys the emitted list repeats an op exactly when, at a place common to the old and the new tree, a set gains or loses two different members that print alike |
| DiffBlurs.SomeDiffRepeats | crates/agentstategraph-core/src/diff.rs:322-356 | a sound store and two ids whose emitted diff repeats an op: the empty set and a set of two one-key maps |
| DiffTruth.ShownValue | crates/agentstategraph-core/src/diff.rs:79-110 | a printed value shows its tree: an atom can be read back from it, and a container shows its kind and size |
| DiffTruth.NamedType | crates/agentstategraph-core/src/diff.rs:358-370 | the type names, written out for every kind of tree |
| DiffTruth.EmitsDifferences | crates/agentstategraph-core/src/diff.rs:150-356 | at every path, the ops of two objects print exactly the differences of their trees |
| DiffTruth.EmittedExactly | crates/agentstategraph-core/src/diff.rs:117-146 | an op is emitted exactly when it states a difference of the two trees at a place its path prints: old and new atom, a key or position only one of them has with its value, a member of only one set, two types in order |
| DiffTruth.MissingRoot | crates/agentstategraph-core/src/diff.rs:134-145 | a missing root gives no ops |
| DiffTruth.MissingPrintsNull | crates/agentstategraph-core/src/diff.rs:207-257 | an object that cannot be found prints as null, on both sides where two values cannot be compared |
| DiffOrder.MapsInOrder | crates/agentstategraph-core/src/diff.rs:196-260 | removed keys, then added keys, then changed ones, each in key order |
| DiffOrder.ListsInOrder | crates/agentstategraph-core/src/diff.rs:262-320 | positions in ascending order |
| DiffOrder.SetsInOrder | crates/agentstategraph-core/src/diff.rs:322-356 | removed members, then added ones, each in id order |
| AnyStore.EmittedExactlyAnywhere | crates/agentstategraph-core/src/diff.rs:117-146 | the emitted diff is exactly the differences of the two trees in any store in which they are complete |
| DiffMirror.DiffMirrors | crates/agentstategraph-core/src/diff.rs:150-356 | for objects at any path, with any objects missing, the reverse diff is the mirrored diff as a multiset |
| DiffMirror.DiffIsMirrorSymmetric | crates/agentstategraph-core/src/diff.rs:121-356 | what the code emits for (b, a) is what it emits for (a, b) with adds and removes exchanged and old and new swapped, as a multiset, for every resolver |
| DiffMerge.MapsByKey | crates/agentstategraph-core/src/diff.rs:196-260 | the map diff holds each key's ops once: over any listing of the keys it is the same multiset |
| DiffMerge.DiffsAddUp | crates/agentstategraph-core/src/merge.rs:301-478 | at every path, for any objects whose changes lie apart: the merge conflicts exactly when both sides changed one list, and without conflict its diff is the two diffs together |
| DiffMerge.MergeComposesDiffs | crates/agentstategraph-core/src/merge.rs:301-478 | for any three trees, if no location of diff(base, ours) is at, above or below one of diff(base, theirs): the merge has conflicts exactly when, by map keys common to the three, there are three pairwise different lists; without conflict diff(base, merged) is the union of the two as multisets, as emitted |
| DiffMerge.ListFreeAgrees | crates/agentstategraph-core/src/merge.rs:480-518 | in particular, never for a base of maps, sets and atoms |
| Paths.Display | crates/agentstategraph-core/src/path.rs:124-138 | the loop writes the printed path |
| Paths.ParseIsCanonical | crates/agentstategraph-core/src/path.rs:44-76 | what `parse` accepts is within the caps, with keys that are non-empty, '/'-free and not numbers |
| Paths.PrintThenParse | crates/agentstategraph-core/src/path.rs:44-76 | printing then parsing is the identity exactly on such paths |
| Paths.ParsePrintParse | crates/agentstategraph-core/src/path.rs:124-138 | parse, print, parse equals parse for every accepted text |
| Paths.IndexNormalises | crates/agentstategraph-core/src/path.rs:58-68 | a segment that reads as a number prints as that number in plain decimal |
| Decimal.ParsePrinted | crates/agentstategraph-core/src/path.rs:61-62 | a printed number, with or without a plus sign, reads back as itself below two to the sixty-fourth and is not an index from there on |
| Decimal.ParseWithZero | crates/agentstategraph-core/src/path.rs:61-62 | a zero in front of a number changes nothing |
| Decimal.NumbersInOrder | crates/agentstategraph-core/src/path.rs:61-62 | digit strings of one length compare as the numbers they write, so each digit has its own value |
| Decimal.DecInOrder | crates/agentstategraph-core/src/path.rs:132 | printed numbers compare, by length and then in dictionary order, as the numbers do |
| Paths.AcceptsExactly | crates/agentstategraph-core/src/path.rs:44-76 | the texts accepted: the empty one, a slash, or a slash and at most 64 non-empty segments of at most 4096 bytes |
| Paths.RefusalIsExact | crates/agentstategraph-core/src/path.rs:44-76 | a refusal names a missing slash, the first bad segment and its length, or the depth of an otherwise good path |
| Paths.Utf8IsShortest | crates/agentstategraph-core/src/path.rs:56-60 | the byte length of a character |
| Order.LexMeaning | crates/agentstategraph-core/src/object.rs:207-212 | the order of ids and keys is dictionary order: a prefix first, else the smaller byte at the first difference |
| Hex.ReadHex | crates/agentstategraph-core/src/object.rs:50-62 | the loop over byte pairs computes `from_hex` |
| Hex.FromHexUndoesPrinting | crates/agentstategraph-core/src/object.rs:42-80 | `from_hex` reads both printed forms back, with any whitespace around them |
| Hex.ReprintIsNormalised | crates/agentstategraph-core/src/object.rs:64-74 | printing a parsed id gives `normalize_hex_prefix` of the input |
| Hex.HexKeepsOrder | crates/agentstategraph-core/src/object.rs:83-85 | the text of ids of one length sorts as the ids do, so each hex digit has its own value |
| Hex.Spaces | crates/agentstategraph-core/src/object.rs:50-51 | the 25 code points trimmed |
| Hex.ReadsFullFragments | crates/agentstategraph-core/src/object.rs:50-74 | `from_hex` accepts exactly the inputs whose normalised fragment has 64 digits |
| SchemaHints.HintNamed | crates/agentstategraph-core/src/schema.rs:122-132 | each of the eight keywords is read to the hint written with it, any other name and no keyword to a custom hint of that name; union-by-id takes the id field |
| SchemaHints.NoHint | crates/agentstategraph-core/src/schema.rs:112-115 | a schema without a string under `x-agentstategraph-merge` has no hint |
| SchemaHints.HintAsWritten | crates/agentstategraph-core/src/schema.rs:112-132 | with one, its hint is written with that keyword, and union-by-id takes the named id field, or `id` |
| SchemaHints.ExtractMergeHints | crates/agentstategraph-core/src/schema.rs:109-155 | the recursion over `properties` and `items` builds the index in which later entries replace earlier ones |
| SchemaHints.ExtractProperties | crates/agentstategraph-core/src/schema.rs:136-146 | its loop over the properties in key order |
| SchemaHints.ExtractItems | crates/agentstategraph-core/src/schema.rs:148-152 | its part for `items` |
| SchemaHints.FromJsonSchema | crates/agentstategraph-core/src/schema.rs:78-90 | a schema so built answers every path as walking the document does, when names are plain |
| SchemaHints.EntryIsWalk | crates/agentstategraph-core/src/schema.rs:109-155 | every entry is the hint of a walk whose steps spell its path, for any names |
| SchemaHints.WalkIsEntry | crates/agentstategraph-core/src/schema.rs:109-155 | every hinted walk has an entry under its spelling, for any names |
| SchemaHints.IndexAnswersWalks | crates/agentstategraph-core/src/schema.rs:88-90 | the index answers every hinted walk exactly when no two hinted walks with the same spelling have different hints |
| SchemaHints.PlainIsUnambiguous | crates/agentstategraph-core/src/schema.rs:136-152 | with '/'-free property names none of which is "*" no two such walks exist |
| SchemaHints.IndexAgreesWithSchema | crates/agentstategraph-core/src/schema.rs:88-90 | for such names and every path string, the lookup gives what splitting the path and walking the schema finds |
| SchemaHints.StarPropertyIsShadowed | crates/agentstategraph-core/src/schema.rs:148-152 | a property "*" beside `items` loses its hint to that of `items` |
| SchemaValidation.CheckRequired | crates/agentstategraph-core/src/schema.rs:183-199 | the loop over `required` pushes an error for each missing field |
| SchemaValidation.CheckOwn | crates/agentstategraph-core/src/schema.rs:183-211 | the required and enum checks of one position |
| SchemaValidation.ValidateFields | crates/agentstategraph-core/src/schema.rs:213-223 | the loop over `properties` the value has |
| SchemaValidation.ValidateElements | crates/agentstategraph-core/src/schema.rs:225-233 | the loop over array items |
| SchemaValidation.ValidateRecursive | crates/agentstategraph-core/src/schema.rs:162-234 | pushes exactly the error list of the position, stopping at a wrong type |
| SchemaValidation.Validate | crates/agentstategraph-core/src/schema.rs:94-105 | valid exactly when the value satisfies the schema at every position; each error accounts for a breach and each unhidden breach for an error |
| SchemaValidation.TypeTable | crates/agentstategraph-core/src/schema.rs:236-251 | a schema naming one of the seven types is satisfied by exactly the values of that constructor; 42 is an integer and not a number |
| SchemaValidation.NoOtherType | crates/agentstategraph-core/src/schema.rs:170-180 | no value satisfies any other type name |
| SchemaValidation.ErrorsAreExact | crates/agentstategraph-core/src/schema.rs:162-234 | an error is listed exactly when some reached position breaks the rule it names, its path points there (a missing field at the field), and no position above, or for other rules that one itself, has a wrong type |
| SchemaValidation.ValidIffSatisfies | crates/agentstategraph-core/src/schema.rs:169-181 | no errors exactly when the type, required and enum rules hold at every position the schema reaches, although a wrong type ends the descent |
| KeyStore.LoadSaved | crates/agentstategraph-mcp/src/auth.rs:642-648 | loading a file saved from keyed keys gives them back |
| KeyStore.LaterKeyWins | crates/agentstategraph-mcp/src/auth.rs:642-648 | of two listed keys with one hash the later is loaded |
| KeyStore.LoadIsKeyed | crates/agentstategraph-mcp/src/auth.rs:642-648 | whatever the file lists, each loaded key is under its own hash |
| KeyStore.ChangeKeepsKeyed | crates/agentstategraph-mcp/src/auth.rs:316-327 | create, bootstrap, rotate and revoke keep each key under its own hash |
| KeyStore.RotationMovesGrant | crates/agentstategraph-mcp/src/auth.rs:382-399 | rotating to a fresh key leaves the multiset of enabled capability records unchanged exactly when the old key was enabled; a disabled one gains a holder |
| KeyRuns.NextAgrees | crates/agentstategraph-mcp/src/auth.rs:293-305 | every step (save that succeeds or fails, bootstrap check, touch, crash after a save, restart) keeps file and memory in agreement |
| KeyRuns.RunAgrees | crates/agentstategraph-mcp/src/auth.rs:293-305 | at every moment of every run from a loaded file each key is under its own hash and loading the file gives the memory except `last_used_at` |
| KeyRuns.RestartLosesNothing | crates/agentstategraph-mcp/src/auth.rs:595-649 | a restart anywhere in a run changes nothing but `last_used_at` |
| KeyRuns.NextKeepsDead | crates/agentstategraph-mcp/src/auth.rs:293-305 | a key disabled in memory and in the file, with no bootstrap of it under way, stays so over every step with fresh generated keys |
| KeyRuns.RunKeepsIds | crates/agentstategraph-mcp/src/auth.rs:316-327 | ids stay unique over every run that starts with unique ids and generates fresh ones |
| KeyRuns.RetiredIsNeverAccepted | crates/agentstategraph-mcp/src/auth.rs:511-533 | once a revoke or rotate returned Ok, the key with that id is not accepted at any later moment of the run, at any time of day, through restarts, crashes, bootstraps and interleaved touches, if no bootstrap of that very key was between its check and its insert |
| KeyRuns.RetirementIsFinal | crates/agentstategraph-mcp/src/auth.rs:403-423 | from any state in which file and memory agree and a key is disabled, it is refused at every moment of every continuation exactly when no bootstrap of it is under way |
| KeyRuns.LateBootstrapRevives | crates/agentstategraph-mcp/src/auth.rs:403-423 | a bootstrap under way can insert its key, under a new id, and the key is accepted |
| KeyRuns.RacedBootstrapRevives | crates/agentstategraph-mcp/src/auth.rs:403-423 | a run from an empty store in which a key is registered, accepted, revoked and refused, and accepted again: two bootstraps of it had both found it missing |
| KeyRuns.IssuedIsAccepted | crates/agentstategraph-mcp/src/auth.rs:343-399 | the key that create, bootstrap or rotate issued is stored as issued and accepted at every time not after its expiry |
| KeyRuns.AcceptedUntilRetired | crates/agentstategraph-mcp/src/auth.rs:308-313 | in every run an enabled key is accepted at every later moment and every time not after its expiry, through failed saves, crashes, restarts, touches and calls about other keys, until a call retires its id |
| KeyRuns.ExpiredIsNeverAccepted | crates/agentstategraph-mcp/src/auth.rs:155-157 | in every run a key with an expiry is accepted at no moment for a time after it |
| KeyRuns.TouchIsSaved | crates/agentstategraph-mcp/src/auth.rs:525-531 | the time of a touch is in memory at once and survives a restart after the next successful change |
| KeyRuns.RequestReadsOneGrant | crates/agentstategraph-mcp/src/auth.rs:545-563 | the two checks of a request, with any calls between them and no bootstrap of its key under way, read the same tenant, admin flag, namespace and expiry |
| KeyStore.ListExists | crates/agentstategraph-mcp/src/auth.rs:654-667 | any keys can be listed the way the file lists them |
| Tenants.Values | crates/agentstategraph-mcp/src/auth.rs:662 | the list taken from the hash map holds each key once |
| Tenants.FileFor | crates/agentstategraph-mcp/src/auth.rs:654-667 | the file written has the current version and lists each key once, ascending by id |
| Tenants.TenantManager.SingleTenant | crates/agentstategraph-mcp/src/auth.rs:224-233 | without auth there are no keys, no file and the default tenant |
| Tenants.TenantManager.MultiTenant | crates/agentstategraph-mcp/src/auth.rs:251-268 | with auth a manager starts with the keys of its file, or none without a file, and an empty cache |
| Tenants.MultiTenantFor | crates/agentstategraph-mcp/src/auth.rs:251-288 | a file of a newer version is refused; any other file, a missing one, or no file at all starts a run |
| Tenants.TenantManager.Update | crates/agentstategraph-mcp/src/auth.rs:293-305 | the changed copy is saved and swapped in, or neither memory nor file changes |
| Tenants.TenantManager.RegisterKey | crates/agentstategraph-mcp/src/auth.rs:316-327 | is an insert step of the runs, under the given id or a generated one |
| Tenants.TenantManager.CreateKeyWith | crates/agentstategraph-mcp/src/auth.rs:343-367 | is an insert step of the runs and returns the key just stored |
| Tenants.TenantManager.KeyId | crates/agentstategraph-mcp/src/auth.rs:370-376 | the id of the key named by its id or by the key itself, if registered |
| Tenants.TenantManager.RotateKey | crates/agentstategraph-mcp/src/auth.rs:382-399 | is a rotate step; answers none exactly when no key has the id; the returned key is the stored successor |
| Tenants.TenantManager.RegisterAdminKey | crates/agentstategraph-mcp/src/auth.rs:403-423 | does nothing for a registered key, even a disabled one; otherwise is the check step and then the insert step of a bootstrap |
| Tenants.TenantManager.RevokeKey | crates/agentstategraph-mcp/src/auth.rs:511-518 | is a revoke step; answers false exactly when no key has the id |
| Tenants.TenantManager.Live | crates/agentstategraph-mcp/src/auth.rs:308-313 | finds a stored key exactly when it is registered, enabled and not expired, that is, when the runs accept it |
| Tenants.TenantManager.ResolveTenant | crates/agentstategraph-mcp/src/auth.rs:523-533 | the tenant of an enabled, unexpired key; its `last_used_at` becomes the time of the touch and nothing else changes |
| Tenants.AdminOpensDefault | crates/agentstategraph-mcp/src/auth.rs:403-423 | a holder of the bootstrap grant gets the default repository whatever the tenant, may migrate, and does not expire |
| Tenants.TenantManager.InsertIfAbsent | crates/agentstategraph-mcp/src/auth.rs:583-589 | the first repository inserted stays and is what every caller gets |
| Tenants.TenantManager.NamespaceRepo | crates/agentstategraph-mcp/src/auth.rs:567-590 | its steps in order: the cached repository, built if the name is valid; no entry is replaced |
| Tenants.TenantManager.GetRepo | crates/agentstategraph-mcp/src/auth.rs:545-563 | which repository or which error, for every key, its tenant, its admin flag and its namespace; an unknown, disabled or expired key is invalid and no other is; keys change at most in `last_used_at` |
| Namespaces.ValidExactly | crates/agentstategraph-core/src/namespace.rs:35-50 | a name is valid exactly when it has 1 to 64 characters, all of them letters, digits, hyphens or underscores |
| NamespaceCache.NextIsCoherent | crates/agentstategraph-mcp/src/auth.rs:567-590 | each of look, build and insert-if-absent, by any request, keeps every cached repository and every answer given so far right |
| NamespaceCache.CacheIsNeverReplaced | crates/agentstategraph-mcp/src/auth.rs:583-589 | over any stretch of any interleaved run cached entries and answers stay as they are |
| NamespaceCache.LookupsAgree | crates/agentstategraph-mcp/src/auth.rs:565-590 | two lookups of one namespace, answered at any moments of any run, get the same answer: one and the same branch-names-only fork for it, or a refusal exactly when the name is not valid |

Where the code and its documentation differ, the model follows the code:

- `validate_recursive` compares type names for equality, so 42 does not have type "number"
  (section 6.1.1 of JSON Schema Validation 2020-12 would accept it).
- A rotation of a disabled key succeeds and adds an enabled key; `RotationMovesGrant` says exactly
  when capabilities are only moved.
- `register_admin_key` checks for the key and inserts it under two locks. A key retired between
  the two comes back (`RacedBootstrapRevives`), and only then (`RetirementIsFinal`). The server
  calls it once, at start-up, before it serves requests (main.rs:808), where nothing can come
  between.
- A rotate or revoke that finds no key still rewrites the file.
- `three_way_merge_collect` fast-forwards when a root is missing; only the strict form reports it.

## Left out

- IEEE floats: a float is an opaque bit pattern whose equality is identity; the code's `==` takes 0.0 and -0.0 for equal although their ids differ.
- Key previews: `preview` is an argument, like the hash of a raw key.
- BLAKE3, SHA-256, Ed25519 and serde encodings: hashes are abstract functions. The untagged `ConflictValue` and `DiffValue` are not claimed to survive serialization.
- `Object::uint` and `from_json_number`: any integer atom is allowed in the model, also those these constructors would normalise.
- The width of ids: `ObjectId` may have any number of bytes except in `Hex`, which fixes 32.
- Resolvers: a resolver is a map, so it answers the same id the same way within a run; the plain resolver is modelled by a tracker whose record is not read.
- Cyclic stores: no store with a cycle can be built, since an object's id depends on its children's; every statement with missing objects still assumes an acyclic store.
- `suggested_resolution`: always `None` in the source.
- Merge hints during merge (sum, max, union by id): the source announces them for later.
- Warnings of the validator, which nothing pushes, and the message, expected and actual texts of its errors: an error carries the rule, the names and the values these are formatted from.
- `EnforcementMode`: stored with a schema, not consulted by the modelled code.
- Version 1 keys files: their keys may get random ids on load.
- Unreadable or unparsable keys files, file permissions, temporary files and fsync: a keys file is a parsed value or absent, and a save is atomic.
- Tenants.TenantManager.RegisterAdminKey: one call at a time here, its two steps with nothing between; what may come between them is in `KeyRuns`.
- Tenants.TenantManager.GetRepo: one call at a time here; that calls between its two checks cannot change the grant it reads is `KeyRuns.RequestReadsOneGrant`.
- Tenants.TenantManager.NamespaceRepo: one call at a time here; all interleavings of its steps are in `NamespaceCache`.
- Poisoned locks: recovering from a panic is not modelled.
- `list_keys` and `has_admin_key` list or search the keys; `is_admin`, `can_migrate`, `get_agent_id`, `get_namespace_id` and `live_key_id` read one field of one live key.
- Fresh random keys and ids: generated values are arguments; `KeyRuns` assumes them new where it says so.
- Repositories: a fork is its namespace and its branch-names-only flag.
- Bindings, C ABI, storage backends, commits, sessions, epochs, queries, HTTP routes and headers.
