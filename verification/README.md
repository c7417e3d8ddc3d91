# ROML in Dafny: projection, revision protocol, canonical views and dense cores

This project models four parts of the ROML repository and proves what they promise.

**The HiGHS projection.** A compiled model keyed by stable ids is kept in a native solver that addresses dense
columns and rows. `Highs` is that solver as a class whose every call may fail and then leave anything behind.
`CompiledModels` says what snapshots, delta ops and overlay ops mean on id-keyed models. `NativeViews`, `Caching` and
`Representing` say when a native model, two index maps and nine caches represent a compiled model, and why each delta
op keeps that true. `Projecting` holds the imperative code: full rebuild and incremental delta, proved against that
specification. `Meanings` and `OpMeanings` tie all of it to what a solver sees: which points the native model accepts,
what its objective is worth there, and what each op does to both. `Validations` says what the preflight checks accept.
`Renamings` compares held states across the renumbering of a full compilation. `Overlaying`, `Rollbacks` and `Sessions`
do the same for temporary overlays, their rollback, once or again, and the verification after it, and for the session's
guards. `Runs` puts whole command sequences together: rebuild, delta, overlay, rollback and verification in any order
the caller's discipline allows, with native failures anywhere. `Solutions` maps user values into columns and back.

**The revision protocol.** `Journals` is the bounded, evicting log with a ghost record of the whole history,
`Synchronizing` the cursors, the coordinator, staged transactions and any number of adapters that follow by replay or
rebuild.

**Canonical views and fingerprint.** `Deltas` proves the single-pass reconstruction of function entries equal to the
full scans it replaced, `Snapshots` says exactly when those entries are the ones a snapshot rebuilds. `Fingerprints`,
`Fnv1a`, `Decoding`, `FingerprintInvariance`, `FingerprintStructures` and `FingerprintStreams` treat the normalized
ordinal fingerprint: what the stream is, byte by byte, that it is uniquely decodable, that it shows exactly the
structure and nothing else, and that a single differing byte always changes the hash (FNV-1a, section 2 of
draft-eastlake-fnv).

**Dense cores.** `IisToggling` is the incremental bound toggler of the infeasibility oracle, `StridedMaps` the checked
mixed-radix map, `Namespaces` the generated-name codec with its lazy namespace.

`Common` and `Sorting` hold sequence facts and the stable sort. `dafny verify dfyconfig.toml` checks everything.

## What the code does not promise

Some natural statements are false of the code. For each, a lemma shows an input, and the exact condition is proved.

- The session remembers a batch's policy correctly if and only if no op after the last policy op removes the objective
  that it names (`TrackingIsExactlySettled`, `UnsettledBatchIsMisremembered`). The compiler emits only such batches
  (`src/compiler/session.rs:1402-1425`).
- The delta guards look at ids and revisions, neither at the session's health nor at the native model. After a removal
  that failed natively, a delta from the same base is accepted and the session ends ready on a model that lacks a
  variable (`DeltaOnTornSession`). After a failed delta the next accepted one is sure to arrive at its target if and
  only if the failure was a refusal (`NextDeltaIsSafeExactlyAfterARefusal`), which changes nothing
  (`SynchronizeDelta`); a caller who keeps to that never sees a wrong ready state (`Run`).
- The guards of `apply_overlay` and `rollback_overlay` do not look at them either. After a failed delta an accepted
  overlay is sure to show the overlaid model under the same condition (`NextOverlayIsSafeExactlyAfterARefusal`); both
  calls compute their prescribed effect on whatever is held (`ApplyOverlay`, `RollbackOverlay`).
- The preflight check of an overlay accepts bounds of its own temporary rows and coefficients of persistent
  objectives, which the apply loop then refuses (`PreflightIsWeakerThanTheLoop`, `PreflightAcceptsPersistentCosts`). An
  overlay goes through exactly when every op finds what it needs (`OverlaySteps`, `OverlayLays`); otherwise the session
  asks for a rebuild.
- The record of an overlay survives its rollback, so the same receipt is accepted again. With a delta in between the
  session can end ready, verified and wrong (`ReplayedReceipt`). A used receipt is sure to leave the base if and only if
  the current compilation is the base (`ReplayIsSafeExactlyAtTheBase`); while the overlay is in force it always does
  (`RollbackOverlay`).
- The native sense is left behind while no objective is active (`SenseIsLeftBehind`). A round trip restores the held
  state bit for bit if and only if an objective is active or the overlay leaves the idle sense as it was
  (`OverlayRoundTrip`).
- A journal query from a revision strictly inside the last batch answers with nothing, as if up to date
  (`InsideRevisionLooksCurrent`); an empty answer means up to date exactly elsewhere (`EmptyMeansCurrent`). With batches
  of one revision each there is no such revision.
- A packed row's function entry ignores `SetCell` on that row in the same batch, although the documentation of
  `functions` speaks of the view of added constraints (`PackedRowMissesLaterCell`). The entries of a batch are those of
  the later snapshot if and only if it writes the cells of its added rows once (`BatchAgreesWithSnapshot`).
- A constraint whose two finite bounds lie within 2^-52 of each other becomes an equality at the lower one
  (`NarrowRangeLosesItsEnd`). Its set is exactly the range if and only if the bounds are equal there, and no infinity of
  the wrong side is a bound elsewhere (`SetIsExactlyBetween`).
- The bound toggler uses an id's number as its native index, which `validate` does not make right
  (`ExchangedIdsMisplaceBounds`): it is right if and only if the snapshot lists its entities in id order
  (`SelectsRightlyExactlyInIdOrder`). Out of that order a selection can also depend on earlier ones
  (`ExchangedIdsRemember`); it never does if and only if each position has the bounds of the entity whose id is that
  number (`HistoryFreeExactlyWhenTruthful`).
- Enlarging a selection can loosen a bound, as a fixing and a lock of one variable do (`FixingAndLockLoosen`); it never
  does if and only if later owners of a side never set it looser (`MonotoneExactlyWhenOrdered`).
- The strided map refuses a coordinate beyond the signed range even where its stride is zero
  (`ZeroStrideIsStillRefused`); when it answers at all is exact (`StridedMap.Get`).
- The base name of a constraint array is not checked against reserved elements (`ReservedElementAsConstraintBase`,
  `NameConstraints`).

## Model

| member | source | states |
|---|---|---|
| Projecting.DeltaRefinesRebuild | roml-highs/src/compiler.rs:594-1032 | Delta refines rebuild: rebuild plus delta ends, entity by entity and cache by cache, where a rebuild from any snapshot of the updated model ends, id gaps included, whatever the two numberings are. |
| Renamings.DeltaRefinesRenamedRebuild | roml-highs/src/compiler.rs:594-1032 | The same against the renumbered snapshot that a full compilation of the updated model issues: the two ends agree entity by entity and cache by cache across the renaming of ids. |
| Renamings.EveryModelHasAValidSnapshot | src/compiler/session.rs:355-445 | Every well-formed model has, under dense new ids, a snapshot that passes validation, so the comparison always has something to compare with. |
| Renamings.EveryModelHasASoundSnapshot | src/compiler/backend_ir.rs:470-534 | Under its own ids, gaps and all, every well-formed model has a snapshot that describes exactly it and on which the rebuild is sound. |
| Renamings.RepresentationIsUniqueUpToNames | roml-highs/src/compiler.rs:327-579 | Two held states that represent one model under two namings agree on everything, up to names and numbering. |
| Representing.OpSimulates | roml-highs/src/compiler.rs:634-1032 | Each of the sixteen delta ops that passes the preflight check takes a held state that represents a model to one that represents the updated model. |
| Representing.RepresentationIsUnique | roml-highs/src/compiler.rs:327-579 | Two held states that represent one model agree on bounds, integrality, matrix, active costs, offset, sense (while an objective is active) and every cache, up to numbering. |
| OpMeanings.NativeMeansModel | roml-highs/src/compiler.rs:327-579 | Whatever represents a model, after a rebuild or any deltas: below the finite stand-in for infinity the native model accepts the column values of a point exactly when the model's variables, rows and integrality do. |
| OpMeanings.NativeMeansObjective | roml-highs/src/compiler.rs:173-254 | The native objective is the selected one, in sense and in value at every point, and zero without a selected one. |
| Meanings.SolutionsCorrespond | roml-highs/src/compiler.rs:327-579 | What holds a snapshot accepts exactly the points that the snapshot's own variables and rows, as listed, accept. |
| Meanings.ObjectivesCorrespond | roml-highs/src/compiler.rs:515-576 | Its native objective has the sense and, at every point, the value of the selected objective as listed. |
| Meanings.UsersCorrespond | roml-highs/src/compiler.rs:451-512 | The user caches know an entity's user exactly where the snapshot's origin names one. |
| Meanings.RepresentedBoundsMean | roml-highs/src/compiler.rs:101-109 | At the column of each variable and the row of each row the native range admits a value below the stand-in for infinity exactly when it lies between the model's bounds, open sides included. |
| Meanings.OverlaidBoundsMean | roml-highs/src/compiler.rs:101-109 | The same while an overlay is applied, for temporary entities too. |
| Runs.Run | roml-highs/src/session.rs:81-296 | Safety over whole runs: for any command sequence under the caller's discipline (deltas and overlays may follow a refusal, but not a native failure) and any pattern of native failures, every ready state seen between commands is faithful to its current compilation id: native model, index maps and every cache, under an overlay too. |
| Sessions.HighsSession.OverlayRoundTrip | roml-highs/src/session.rs:798-1340 | Applying any overlay and rolling it back cleanly restores native model, index maps, caches, policy and compilation id, and verification then succeeds; the state is the same bit for bit if and only if an objective is active or the overlay showed none of another sense. |
| Overlaying.OverlayOpLays | roml-highs/src/session.rs:877-1117 | Every preflighted and served overlay op keeps the loop state equal to the overlaid model, with every changed base bound recorded and temporary entities behind all base ones. |
| Sessions.HighsSession.ApplyOverlay | roml-highs/src/session.rs:798-1137 | On whatever is held, the guards look at ids only and the loop computes the prescribed overlaid state of what is held; a synchronized session succeeds on exactly the overlays its guards, the preflight check and the op arms accept, unless a native call fails, and then shows the overlaid model; a rejected envelope changes nothing, and every failure asks for a rebuild. |
| Sessions.HighsSession.RollbackOverlay | roml-highs/src/session.rs:1148-1300 | On any session with sound index maps a receipt with the record's overlay, base and applied ids computes the prescribed rollback of whatever is held; in force that restores the base unless a native call fails, and on the base it keeps the base; any other receipt changes nothing, is refused as invalid input, and a rebuild is asked for; the record is never cleared. |
| Rollbacks.ReplayIsSafeExactlyAtTheBase | roml-highs/src/session.rs:1148-1300 | Once its overlay is no longer in force, a matching receipt is sure to leave the base if and only if the current compilation is the base. |
| Runs.ReplayedReceipt | roml-highs/src/session.rs:1163-1340 | The failing history: bound, roll back, write one coefficient by a delta, roll back again; unless a native call fails the session is ready, verified, names the base and holds the delta's matrix. |
| Runs.StaleReceipt | roml-highs/src/session.rs:1163-1181 | Overlay 1 is applied and rolled back, overlay 2 applied on the same base: the receipt of overlay 1 leaves everything held alone, is refused as invalid input, and a rebuild is asked for. |
| Runs.ReplayedRowBound | roml-highs/src/session.rs:1305-1340 | With a row bound as the delta in between, the replayed rollback is clean, but the verification fails and asks for a rebuild. |
| Representing.NextDeltaIsSafeExactlyAfterARefusal | roml-highs/src/session.rs:156-267 | After a failed delta, the next nonempty delta from the same base that the guards accept and whose native calls succeed is sure to arrive at its target if and only if the failure was a refusal, by a guard or for an unsupported policy, and not a native one. |
| Runs.DeltaOnTornSession | roml-highs/src/session.rs:147-274 | The failing history on a session: a removal fails natively, a bound change from the same base passes the guards all the same, and unless its native call fails the session ends ready and names a target that nothing it holds can be. |
| Sessions.NextOverlayIsSafeExactlyAfterARefusal | roml-highs/src/session.rs:805-875 | The same condition for overlays: after a failed delta an accepted overlay whose native calls succeed is sure to show the overlaid model if and only if the failure was a refusal. |
| Runs.SenseIsLeftBehind | roml-highs/src/session.rs:1082-1325 | An idle, minimizing session, an overlay that shows an objective to be maximized, and its rollback: unless a native call fails the round trip is clean and verified and what is held has changed. |
| Synchronizing.Interleave | src/sync.rs:54-190 | Convergence: in any interleaving of commits, evictions, replays, partial failures and rebuilds by any number of adapters, every ready replica is the model state at its cursor's revision. |
| Synchronizing.ReplayedIsApplied | src/sync.rs:54-190 | Replaying batches is applying their operations one after the other. |
| Synchronizing.AppliedComposes | src/sync.rs:54-190 | One op is one application, and applying two lists in turn is applying their concatenation. |
| Deltas.ReconstructFunctionEntries | src/delta.rs:573-772 | The single pass returns exactly the sequence of the per-constraint full-scan specification, for every op list. |
| Snapshots.BatchAgreesWithSnapshot | src/delta.rs:459-469 | For every batch: its entries are, as a sequence, the later snapshot's entries without those of constraints it did not add and keep, if and only if it writes the cells of its added rows once and leaves them alone. |
| Deltas.EntryDescribes | src/delta.rs:640-668 | Every entry belongs to an added row that stays; its set holds exactly the values between the row's final bounds, or the lower one where two finite bounds nearly agree. |
| Snapshots.BatchEntryDescribes | src/delta.rs:640-769 | The same of a batch on a store it fits: the bounds are those the store has afterwards. |
| Snapshots.SnapshotEntryDescribes | src/snapshot.rs:391-416 | The same of a snapshot's entries. |
| Deltas.SetIsExactlyBetween | src/model/constraint.rs:92-107 | A set holds exactly the values between its bounds if and only if the bounds are equal where they nearly agree, and no infinity of the wrong side loses anything. |
| Deltas.NarrowRangeLosesItsEnd | src/model/constraint.rs:58-61 | A range narrower than the tolerance becomes an equality and loses its upper end. |
| Deltas.PackedRowMeans | src/delta.rs:674-769 | A packed row has the constraint and the bounds of its block and, at every point and under all parameter values, the value that the block's arrays state, scales included. |
| Deltas.ScaledParamValue | src/value_expr/mod.rs:73-80 | A scaled parameter evaluates to scale times parameter. |
| Deltas.ScansCompose | src/delta.rs:573-640 | A later part of the list appends terms in op order, overrides bounds and adds removals. |
| Deltas.OneOpScanned | src/delta.rs:609-640 | A cell, a bound change and a removal count for their own constraint and for no other; a cell of an objective counts for none. |
| Decoding.DecodeInvertsEncode | src/snapshot.rs:217-289 | A decoder inverts the tagged, counted byte stream and leaves whatever follows it. |
| Decoding.EncodeIsInjective | src/snapshot.rs:217-289 | Equal streams come from equal normalized ordinal forms, and no stream is a proper prefix of another. |
| FingerprintInvariance.RenamingKeepsFingerprint | src/snapshot.rs:180-292 | The fingerprint is unchanged by any injective renaming of variable, constraint, objective and parameter ids that keeps the entity vectors' order. |
| Fnv1a.OneByteAlwaysMatters | src/snapshot.rs:297-316 | Two streams of one length that differ in exactly one byte always have different hashes. |
| FingerprintStructures.StreamsShowExactlyTheStructure | src/snapshot.rs:180-292 | For snapshots that list every id and cell key once, equal streams mean equal structure: one is the other under a renaming that keeps the vectors' order, up to cell order, revision, parameter values and evaluated values; and conversely. |
| FingerprintStreams.SampleStream | src/snapshot.rs:190-369 | The whole stream of a snapshot with every kind of entity, byte by byte: tags, order of fields, eight-byte little-endian words, ordinals, and all ones for an unknown parameter. |
| FingerprintStreams.CellsAreInOrder | src/snapshot.rs:261-279 | The stream lists constraint cells before objective cells, then by target ordinal, then by variable ordinal. |
| FingerprintStreams.VariableStreams | src/snapshot.rs:219-238 | What a variable writes: bounds, type tag, activity, optional semicontinuous bound and fixing. |
| FingerprintStreams.RowStreams | src/snapshot.rs:245-259 | What a constraint and an objective write. |
| Fnv1a.PublishedValues | src/snapshot.rs:297-316 | The published FNV-1a values of the empty stream and of the one-byte stream a. |
| Fnv1a.LeastSignificantFirst | src/snapshot.rs:318-320 | Words are written least significant byte first. |
| IisToggling.HighsAnalysisOracle.ApplySelection | roml-highs/src/iis.rs:69-183 | For any dense ids, success writes the selection's bounds at the number of each id whose mirror differs; in id order that leaves exactly the bounds of the selection, whatever happened before; a failure part-way keeps true mirrors true; an unknown atom changes nothing. |
| IisToggling.SelectsRightlyExactlyInIdOrder | roml-highs/src/iis.rs:69-183 | Over all snapshots with dense ids: every successful selection leaves every native position with the bounds of the entity placed there if and only if entities are listed in id order. |
| IisToggling.HistoryFreeExactlyWhenTruthful | roml-highs/src/iis.rs:69-183 | Over all snapshots with dense ids: what a selection leaves natively is the same after any earlier selections if and only if each position has the bounds of the entity whose id is that number. |
| IisToggling.MonotoneExactlyWhenOrdered | roml-highs/src/iis.rs:106-139 | Enlarging a selection only tightens bounds if and only if, of two atoms that own one side, the later never sets it looser. |
| IisToggling.SelectionMeans | roml-highs/src/iis.rs:86-139 | The bounds of a selection admit a value exactly when it respects, on each side, the last selected atom that owns the side; a side nobody owns is open. |
| IisToggling.RecordedValue | roml-highs/src/iis.rs:106-139 | An atom restricts a side to the first value it records for it. |
| StridedMaps.StridedMap.Get | src/bulk.rs:118-142 | The result is the offset plus the strides of the ordinal's row-major coordinates; there is none exactly on rank mismatch, prefix-product overflow, an ordinal out of range or an overflowing step. |
| Namespaces.ConflictsAreOccupied | roml-python/src/namespace.rs:60-72 | The structural conflict test answers for the expanded namespace of explicit names and all reserved elements, both ways. |
| IndexMaps.NumbersIsBijection | roml-highs/src/index_map.rs:12-15 | A dense numbering is a bijection between live ids and the native indices. |
| IndexMaps.NumbersDelete | roml-highs/src/index_map.rs:51-57 | Removing an id and decrementing every larger index numbers the remaining ids densely, in their old order. |
| IndexMaps.IndexMap.Insert | roml-highs/src/index_map.rs:23-25 | Inserts or overwrites one index and leaves the others. |
| IndexMaps.IndexMap.Remove | roml-highs/src/index_map.rs:33-35 | Returns the old index, if any, and forgets the id. |
| IndexMaps.IndexMap.ReindexAfterDelete | roml-highs/src/index_map.rs:51-57 | Decrements exactly the indices above the deleted one. |
| IndexMaps.IndexMap.ReverseMap | roml-highs/src/index_map.rs:68-70 | The reverse map of a dense numbering holds every native index, and inverts the map. |
| CompiledModels.PackedCostsAreScalarCosts | roml-highs/src/compiler.rs:873-942 | A packed cost block means the same as its scalar coefficient ops in order. |
| CompiledModels.ApplyKeepsWellFormed | src/compiler/backend_ir.rs:587-800 | An op that passes the preflight check and the compiler's guarantee keeps references resolved, objective handles apart and the policy live. |
| CompiledModels.ApplyRegisters | src/compiler/backend_ir.rs:587-800 | The working registry of the preflight check follows the model op by op. |
| CompiledModels.ApplyAllKeepsWellFormed | src/compiler/backend_ir.rs:587-800 | A whole validated batch keeps the model well-formed. |
| SnapshotModels.SoundSnapshotIsWellFormed | src/compiler/backend_ir.rs:490-534 | A snapshot whose references resolve and that stems from user objectives describes a well-formed model. |
| SnapshotModels.UniqueIdsAreFresh | src/compiler/backend_ir.rs:536-558 | Where no family repeats an id, no entry of a snapshot overrides another. |
| BackendIr.ValidIsSound | src/compiler/backend_ir.rs:470-558 | Dense families repeat no id, so validation gives everything the rebuild relies on. |
| Validations.SnapshotIsValidExactly | src/compiler/backend_ir.rs:470-558 | Accepted are exactly the snapshots whose families number their entities from zero without a gap, in any order, that give every entity an origin and name only what they list. |
| Validations.DeltaIsValidExactly | src/compiler/backend_ir.rs:587-800 | Accepted are exactly the batches that lead to another compilation id and a later revision, and in which every op finds everything it names, given the ops before it, and adds only what is new and has an origin. |
| Validations.OverlayIsValidExactly | src/solver/overlay.rs:250-393 | The same of overlays, whose additions must be marked as this overlay's own, variables as violation variables and objectives as bridges; a removal of a temporary row is never accepted. |
| OpMeanings.AddVariableMeans | roml-highs/src/compiler.rs:636-666 | On points: an added variable adds its own condition and nothing else. |
| OpMeanings.RemoveVariableMeans | roml-highs/src/compiler.rs:667-683 | A removed variable takes its condition along; rows and objectives see it at zero. |
| OpMeanings.VariableBoundsMean | roml-highs/src/compiler.rs:684-699 | New bounds replace the old ones of that variable; integrality and all else stay. |
| OpMeanings.AddRowMeans | roml-highs/src/compiler.rs:700-735 | An added row adds its own condition, the value of its listed form within its bounds, and nothing else. |
| OpMeanings.RemoveRowMeans | roml-highs/src/compiler.rs:736-749 | A removed row takes its condition along. |
| OpMeanings.RowBoundsMean | roml-highs/src/compiler.rs:750-765 | New row bounds replace the old ones; the row's form stays. |
| OpMeanings.CoefficientMeans | roml-highs/src/compiler.rs:766-786 | A written coefficient moves its row by the difference to the old one, times the variable. |
| OpMeanings.RemovedCoefficientMeans | roml-highs/src/compiler.rs:787-806 | A removed coefficient takes its own part out of the row. |
| OpMeanings.AddObjectiveMeans | roml-highs/src/compiler.rs:807-819 | An added objective has the value and sense it lists; no other changes. |
| OpMeanings.RemoveObjectiveMeans | roml-highs/src/compiler.rs:820-841 | A removed objective is gone, and the policy with it where it was the selected one. |
| OpMeanings.ObjectiveOpMeans | roml-highs/src/compiler.rs:842-1001 | What scalar and packed cost writes, removals, constants and senses do to the value of their objective at every point, others staying. |
| OpMeanings.OverlayOpsAreDeltaOps | src/solver/overlay.rs:131-180 | While it lasts an accepted temporary op means what the delta op of the same name means. |
| NativeViews.AppendColumn | roml-highs/src/compiler.rs:636-666 | Adding a native column, then its integrality, shows the model with one more variable. |
| NativeViews.DeleteColumn | roml-highs/src/compiler.rs:667-683 | Deleting a native column and closing the gap shows the model without that variable, in every row and in the costs. |
| NativeViews.AppendRow | roml-highs/src/compiler.rs:700-735 | Adding a native row shows the model with one more row. |
| NativeViews.DeleteRow | roml-highs/src/compiler.rs:736-749 | Deleting a native row and closing the gap shows the model without that row. |
| NativeViews.ChangeCell | roml-highs/src/compiler.rs:766-806 | Writing one native coefficient shows the upsert of the cell, and writing zero shows its removal. |
| NativeViews.ScatterIsCells | roml-highs/src/compiler.rs:704-722 | Writing a row's entries at the columns of their ids yields its cells in column order. |
| NativeViews.ScatterOverridesCells | roml-highs/src/compiler.rs:898-941 | A bulk cost write on top of shown costs shows the overridden cost map. |
| NativeViews.RangeIsScatter | roml-highs/src/compiler.rs:905-925 | The contiguous range write and the indexed set write are the same write. |
| Representing.AddVariableSimulates | roml-highs/src/compiler.rs:636-666 | The variable arm keeps native model, index maps and caches those of the updated model. |
| Representing.RemoveVariableSimulates | roml-highs/src/compiler.rs:667-683 | Removing a variable also drops it from every cost cache, and what is held is the updated model. |
| Representing.VariableBoundsSimulate | roml-highs/src/compiler.rs:684-699 | New variable bounds reach the native column and the bound cache. |
| Representing.AddRowSimulates | roml-highs/src/compiler.rs:700-735 | The row arm keeps native model, index maps and caches those of the updated model. |
| Representing.RemoveRowSimulates | roml-highs/src/compiler.rs:736-749 | Removing a row leaves native model, row map and caches of the updated model. |
| Representing.RowBoundsSimulate | roml-highs/src/compiler.rs:750-765 | New row bounds reach the native row and the bound cache. |
| Representing.CoefficientSimulates | roml-highs/src/compiler.rs:766-806 | An upserted or removed coefficient leaves the held state of the updated model. |
| Representing.AddObjectiveSimulates | roml-highs/src/compiler.rs:807-819 | A new objective only enters the caches; the native surface stays that of the policy. |
| Representing.RemoveObjectiveSimulates | roml-highs/src/compiler.rs:820-841 | Removing the active objective clears the surface, removing another one does not touch it; either way the updated model is represented. |
| Representing.ObjectiveSimulates | roml-highs/src/compiler.rs:970-1001 | A changed objective is cached, and shown natively exactly when it is the active one. |
| Representing.CostStep | roml-highs/src/compiler.rs:842-872 | A scalar cost upsert or removal is cached always and written natively exactly when its objective is active. |
| Representing.CostsStep | roml-highs/src/compiler.rs:873-942 | A packed cost block leaves the held state of the updated model, active or not. |
| Representing.PolicySimulates | roml-highs/src/compiler.rs:173-254 | Projecting a policy shows it, whatever costs, offset and sense were left there before. |
| Representing.RebuildCompletes | roml-highs/src/compiler.rs:515-576 | Placed entities, filled caches and the projected policy together hold the snapshot's model, with objectives of any origin. |
| Representing.PartlyAddsRow | roml-highs/src/compiler.rs:406-448 | While a rebuild is in progress each placed row keeps the part placed so far shown. |
| Representing.TrackingIsExactlySettled | roml-highs/src/session.rs:247-257 | Remembering only policy ops is right if and only if no op after the last policy op removes the objective it names. |
| Representing.UnsettledBatchIsMisremembered | roml-highs/src/session.rs:247-257 | A batch that only removes the active objective leaves the session remembering that objective. |
| Representing.AllSimulate | roml-highs/src/compiler.rs:594-1032 | From a held state that represents a model every batch issued for it runs through, and the updated model is represented. |
| Representing.HeldRegisters | src/compiler/backend_ir.rs:587-800 | The registry the preflight check builds from what is held follows every op, on any held state. |
| Representing.SoundColumnsStay | roml-highs/src/compiler.rs:634-1032 | Every op keeps a native column of its own for every indexed variable, on any held state that has one. |
| Representing.RemovalTears | roml-highs/src/compiler.rs:667-675 | A removal that fails natively leaves exactly the index map without that variable, and nothing known of the native model. |
| Projecting.Projection.ClearAllCosts | roml-highs/src/compiler.rs:151-161 | Every native cost becomes zero and nothing else changes. |
| Projecting.Projection.WriteCosts | roml-highs/src/compiler.rs:192-206 | The loop leaves every cost at the column of its variable, in any order, and skips variables without one, whenever no two variables share a column. |
| Projecting.Projection.ProjectObjectivePolicy | roml-highs/src/compiler.rs:173-254 | Shows the policy's costs, sense and offset and sets the active objective, or fails: natively, or because the policy is unsupported; on any held state whose columns are sound. |
| Projecting.Projection.ProjectTemporaryObjective | roml-highs/src/compiler.rs:265-312 | Shows a solve-scoped objective by ordered writes on cleared costs; a missing variable is refused before any cost is cleared. |
| Projecting.Projection.ResolveColumns | roml-highs/src/compiler.rs:704-716 | Maps every entry to its column, or reports exactly that one has none. |
| Projecting.Projection.AddVariable | roml-highs/src/compiler.rs:636-666 | The arm's whole effect on native model, index map and caches. |
| Projecting.Projection.RemoveVariable | roml-highs/src/compiler.rs:667-683 | The arm's whole effect, with the index map re-dense and every cost cache rid of the variable; after a native failure only the index is gone. |
| Projecting.Projection.SetVariableBounds | roml-highs/src/compiler.rs:684-699 | The arm's whole effect; a missing variable changes nothing. |
| Projecting.Projection.AddLinearRow | roml-highs/src/compiler.rs:700-735 | The arm's whole effect; a coefficient without column is a typed error. |
| Projecting.Projection.RemoveLinearRow | roml-highs/src/compiler.rs:736-749 | The arm's whole effect, with the row map re-dense. |
| Projecting.Projection.SetLinearRowBounds | roml-highs/src/compiler.rs:750-765 | The arm's whole effect on native row and cache. |
| Projecting.Projection.WriteCoefficient | roml-highs/src/compiler.rs:766-806 | One native cell is written, or an entity is missing. |
| Projecting.Projection.AddObjective | roml-highs/src/compiler.rs:807-819 | Only caches and the user handle change. |
| Projecting.Projection.RemoveObjective | roml-highs/src/compiler.rs:820-841 | Caches forget the objective; costs and offset are cleared exactly when it was active. |
| Projecting.Projection.SetObjectiveCoefficient | roml-highs/src/compiler.rs:842-872 | Cache upsert, and a native write exactly when active. |
| Projecting.Projection.SetObjectiveCosts | roml-highs/src/compiler.rs:873-942 | Cache upserts and one bulk native write exactly when active and nonempty, by range or by set. |
| Projecting.Projection.RemoveObjectiveCoefficient | roml-highs/src/compiler.rs:944-969 | Native zero when active, then the cache entry goes. |
| Projecting.Projection.SetObjectiveConstant | roml-highs/src/compiler.rs:970-985 | Cached, and written natively exactly when active. |
| Projecting.Projection.SetObjectiveSense | roml-highs/src/compiler.rs:986-1001 | Cached, and written natively exactly when active. |
| Projecting.Projection.RunOp | roml-highs/src/compiler.rs:634-1030 | On whatever is held, one arm of the delta loop computes the specified next held state; a missing entity is reported only for an op that the preflight check on what is held refuses; a native failure leaves what is specified for its op. |
| Projecting.Projection.RunOps | roml-highs/src/compiler.rs:634-1032 | The op loop on whatever is held: the prescribed effect of all ops, or of a prefix and one failed op; a missing entity cannot stop a batch that the preflight check on what is held has passed. |
| Projecting.Projection.ApplyBackendDelta | roml-highs/src/compiler.rs:594-1032 | On whatever is held, success is the prescribed effect of all ops and a native failure that of a prefix with one failed op; a projection that represents a model then represents the updated one; an unsupported policy anywhere in the batch is refused before anything changes, and only then. |
| Projecting.Projection.RebuildFromSnapshot | roml-highs/src/compiler.rs:327-579 | From any state, success holds the snapshot's model natively and in every cache, and represents it where its objectives stem from user objectives; an unsupported policy is refused before the native model is cleared, and only then. |
| Projecting.Projection.RebuildColumns | roml-highs/src/compiler.rs:380-404 | The column loop places every variable in snapshot order. |
| Projecting.Projection.RebuildRows | roml-highs/src/compiler.rs:406-448 | The row loop places every row in snapshot order. |
| Projecting.Projection.RebuildObjectives | roml-highs/src/compiler.rs:450-475 | The objective caches and handles of the snapshot. |
| Projecting.Projection.RebuildSurface | roml-highs/src/compiler.rs:514-576 | The last step shows the policy's objective on cleared costs. |
| Sessions.HighsSession.SynchronizeRebuild | roml-highs/src/session.rs:83-145 | From any state: success makes the session ready and hold the snapshot; an invalid snapshot changes nothing but the health; every failure asks for a rebuild. |
| Sessions.HighsSession.SynchronizeDelta | roml-highs/src/session.rs:147-274 | On whatever is held and in any health: success exactly on the batches that the guards accept, up to unsupported policies and native failures, with the prescribed effect on what is held; a refusal changes nothing but the health, a native failure leaves a prefix and one failed op; a synchronized session arrives at the target, with its policy remembered if and only if the batch is settled. |
| Sessions.HighsSession.SynchronizeCanonical | roml-highs/src/session.rs:276-290 | Canonical requests are refused and ask for a rebuild. |
| Sessions.HighsSession.LastPolicy | roml-highs/src/session.rs:248-257 | The reverse search finds the batch's last policy op. |
| Sessions.PreflightIsWeakerThanTheLoop | roml-highs/src/session.rs:827-967 | An overlay that bounds its own temporary row passes the preflight check and is stopped by the apply loop. |
| Sessions.PreflightAcceptsPersistentCosts | roml-highs/src/session.rs:993-1015 | An overlay that sets a coefficient of a persistent objective passes the preflight check and is stopped by the apply loop. |
| Sessions.OverlayGoesOn | roml-highs/src/session.rs:877-1117 | One applicable op takes the loop state to one that shows the next overlaid model and still holds the captured base. |
| Sessions.OverlaySteps | roml-highs/src/session.rs:877-1117 | On a loop state that shows an overlaid model an op goes through if and only if it is applicable, and then the next overlaid model is shown. |
| Sessions.OverlayLays | roml-highs/src/session.rs:877-1128 | A whole overlay goes through if and only if every op is applicable in turn, and then its overlaid model is shown, with the sense of the last objective it shows. |
| Sessions.SameNumberingIsRestored | roml-highs/src/session.rs:1148-1300 | One model under one numbering fixes native model, index maps and caches, up to the sense of an idle surface. |
| Sessions.HighsSession.LayVariable | roml-highs/src/session.rs:879-919 | A temporary column goes last and its index is recorded. |
| Sessions.HighsSession.LayVariableBounds | roml-highs/src/session.rs:920-952 | New bounds natively and in the cache; only the first prior bound of a variable is recorded. |
| Sessions.HighsSession.LayRowBounds | roml-highs/src/session.rs:953-983 | New row bounds natively and in the cache; only the first prior bound is recorded. |
| Sessions.HighsSession.LayRow | roml-highs/src/session.rs:1030-1071 | A temporary row goes last and only the record knows its index. |
| Sessions.HighsSession.LayCost | roml-highs/src/session.rs:993-1029 | A solve-scoped cost is upserted, and written natively exactly when its objective is selected. |
| Sessions.HighsSession.LayPolicy | roml-highs/src/session.rs:1082-1117 | The policy is projected, from the solve-scoped objective where there is one, and remembered. |
| Sessions.HighsSession.LayOp | roml-highs/src/session.rs:877-1128 | One arm of the apply loop computes the specified next loop state, or fails for a stated reason. |
| Sessions.HighsSession.LayAll | roml-highs/src/session.rs:877-1128 | On whatever is held the loop computes the prescribed overlaid state, or stops where that is undefined, or a native call failed. |
| Sessions.HighsSession.RestoreVariableBounds | roml-highs/src/session.rs:1183-1207 | Puts every recorded variable bound back at the column of its id, in any order, on any state; a variable without column stops it. |
| Sessions.HighsSession.RestoreRowBounds | roml-highs/src/session.rs:1209-1233 | Puts every recorded row bound back at the row of its id, in any order, on any state; a row without index stops it. |
| Sessions.HighsSession.DeleteRows | roml-highs/src/session.rs:1235-1253 | Deletes exactly the temporary rows and forgets their ids. |
| Sessions.HighsSession.DeleteColumns | roml-highs/src/session.rs:1273-1295 | Deletes exactly the temporary columns and forgets their ids. |
| Sessions.HighsSession.Unlay | roml-highs/src/session.rs:1183-1295 | The whole rollback of the native model, on any state with sound index maps, computes the prescribed state; it fails only natively or where something recorded is missing. |
| Sessions.CapturedLooksClean | roml-highs/src/session.rs:1305-1340 | Any state that represents the captured base passes the verification. |
| Rollbacks.InForceRollsBack | roml-highs/src/session.rs:1183-1295 | In force, the prescribed rollback finds everything it looks up and ends on the base. |
| Rollbacks.BaseRollsBack | roml-highs/src/session.rs:1183-1295 | On the base itself the prescribed rollback keeps the base. |
| Rollbacks.ReplayKeepsTheMatrix | roml-highs/src/session.rs:1183-1325 | After one coefficient was written by a delta, a replayed rollback leaves every cache as on the base and a matrix that is not the base's. |
| Rollbacks.CompoundsRecords | roml-highs/src/session.rs:851-1137 | What an overlay records stays true of its base model, whatever happens to the session later. |
| Overlaying.OpShowsSense | roml-highs/src/session.rs:1082-1117 | Among overlay ops only showing an objective changes the native sense, to that objective's. |
| Overlaying.ShownSenseStays | roml-highs/src/session.rs:1082-1117 | An override leaves the sense of the objective it shows, whatever the idle sense was. |
| Sessions.HighsSession.VerifyOverlayClean | roml-highs/src/session.rs:1305-1340 | Succeeds exactly when compilation, dimensions, every variable and row bound, active objective and policy equal the captured ones, and otherwise asks for a rebuild; success on a session that represents a model means that this model has the captured base's entities, bounds, active objective and policy. |
| Sessions.HighsSession.RollbackAndVerify | src/solver/facade.rs:2134-2144 | A clean rollback always verifies and restores any earlier state of the same base. |
| Runs.BetweenIsFaithful | roml-highs/src/session.rs:81-296 | The invariant kept between commands makes every ready state faithful, with or without an overlay in force. |
| Overlaying.UpsertedMap | roml-highs/src/session.rs:1012-1014 | Dropping the old entry of a coefficient list, appending the new one and sorting by id is an upsert of its map. |
| Overlaying.SortKeepsMap | roml-highs/src/session.rs:1012-1014 | Sorting a solve-scoped coefficient list by id keeps its meaning, repeated ids included. |
| Overlaying.OverlayStarts | roml-highs/src/session.rs:851-875 | Capturing the base starts the loop on the base model itself. |
| Overlaying.LayVariable | roml-highs/src/session.rs:879-919 | A temporary variable keeps the loop state true. |
| Overlaying.LayColumnBounds | roml-highs/src/session.rs:920-952 | Repeated bounds on one variable, and bounds on a temporary one, keep the record sufficient for the rollback. |
| Overlaying.LayRowBounds | roml-highs/src/session.rs:953-983 | Temporary bounds of a base row keep the record sufficient for the rollback. |
| Overlaying.LayRow | roml-highs/src/session.rs:1030-1071 | A temporary row, unindexed in the session, keeps the loop state true. |
| Overlaying.LayCost | roml-highs/src/session.rs:993-1029 | A solve-scoped cost keeps the shown objective and the stored one in step. |
| Overlaying.LayPolicy | roml-highs/src/session.rs:1082-1117 | A policy override shows the persistent or solve-scoped objective it names. |
| Overlaying.UnservedIsMissing | roml-highs/src/session.rs:953-1015 | Row bounds of a temporary row and coefficients of a persistent objective find nothing to change. |
| Overlaying.RollbackVariable | roml-highs/src/session.rs:1183-1207 | Putting one recorded variable bound back brings the shown model one variable closer to the base. |
| Overlaying.RollbackRow | roml-highs/src/session.rs:1209-1233 | Putting one recorded row bound back brings the shown model one row closer to the base. |
| Overlaying.RollbackDeletesRows | roml-highs/src/session.rs:1235-1253 | Deleting the recorded native rows leaves exactly the base rows, indices unchanged. |
| Overlaying.RollbackProjectsPolicy | roml-highs/src/session.rs:1255-1271 | Projecting the prior policy shows the base objective again. |
| Overlaying.RollbackCompletes | roml-highs/src/session.rs:1273-1300 | Deleting the recorded native columns leaves the base model represented. |
| Solutions.MapStart | roml-highs/src/start.rs:49-78 | A start maps to the columns of its variables, or is refused with the typed error for a variable without compiled column or without native column; on a valid projection only the first can happen, and exactly for unknown variables. |
| Solutions.Extract | roml-highs/src/solution.rs:236-259 | The report is the user-keyed list of finite column values in column order. |
| Solutions.ReportedExactly | roml-highs/src/solution.rs:241-259 | A value is reported for a variable if and only if its column holds it. |
| Solutions.ReportedOnce | roml-highs/src/solution.rs:241-259 | No variable is reported twice. |
| Solutions.StartComesBack | roml-highs/src/start.rs:49-78 | Whatever the solution holds, the one entry reported for a variable of the start is the value of the column the start was written to. |
| Solutions.StartRoundTrip | roml-highs/src/start.rs:49-78 | In and out on a valid projection: every variable of the start is reported once, with the value of its column. |
| Journals.Journal.Record | src/journal.rs:89-107 | A batch from the latest revision is appended and the window moves on; any other changes nothing. |
| Journals.Journal.HoldsTheLast | src/journal.rs:30-50 | The journal holds exactly the last min(capacity, n) of the n recorded batches, the minimum written out. |
| Journals.Journal.DeltasSince | src/journal.rs:109-131 | The answer is the exact suffix of the whole history, or Compacted exactly when part of it was evicted, or FutureRevision. |
| Journals.BoundarySuffix | src/journal.rs:109-131 | From a batch boundary the answer is exactly the rest of the history. |
| Journals.EmptyMeansCurrent | src/journal.rs:109-131 | An empty answer means up to date exactly when the revision is not strictly inside the last batch. |
| Journals.InsideRevisionLooksCurrent | src/journal.rs:109-131 | After one batch over two revisions, revision 1 gets an empty answer although it is not current. |
| Journals.OnlyBoundariesReplay | src/sync.rs:54-64 | The first batch of an answer is accepted by advance if and only if the cursor stands on a boundary. |
| Journals.UnitStepsHaveNoInside | src/transaction.rs:168-184 | When every batch moves one revision, every revision is a boundary. |
| Synchronizing.AdapterCursor.Advance | src/sync.rs:54-64 | Accepts exactly the batch that starts at the cursor; otherwise nothing changes. |
| Synchronizing.SyncCoordinator.CommitBatch | src/sync.rs:178-182 | Appends to the history and advances the revision, or changes nothing. |
| Synchronizing.SyncCoordinator.BatchesForCursor | src/sync.rs:185-190 | The exact suffix for the cursor, or the reason there is none. |
| Synchronizing.StagingTransaction.Commit | src/transaction.rs:168-184 | All staged operations become one batch to the next revision, or nothing happens and the error says why, overflow included. |
| Synchronizing.Adapter.Replay | src/sync.rs:54-80 | Replaying a suffix advances on every batch and ends at the current state, or the cursor asks for a rebuild. |
| Synchronizing.Adapter.Synchronize | src/sync.rs:178-190 | A completed synchronization is at the current revision and state, by replay or by rebuild. |
| Deltas.AccumulatesNext | src/delta.rs:606-640 | One op of the pass keeps the accumulator equal to all the per-constraint scans. |
| Deltas.PushScalars | src/delta.rs:643-669 | The loop over added constraints yields the scalar entries of the scan. |
| Deltas.PushBlock | src/delta.rs:674-700 | The loop over a block's rows yields the packed entries of the scan, for all three block kinds. |
| Sorting.StableSortIsStable | src/delta.rs:770-771 | The sort orders by key and keeps the order within each key. |
| Sorting.StableSortIsUnique | src/delta.rs:770-771 | Those two promises determine the result, so any stable sort gives the same sequence. |
| Snapshots.TakeFunctions | src/snapshot.rs:489-515 | One grouping pass yields exactly one entry per constraint in strictly ascending constraint order, whatever order the maps are walked in. |
| Snapshots.FunctionsAreUnique | src/snapshot.rs:489-515 | That determines the sequence: no other one meets the contract. |
| Snapshots.AddedAtMostOnce | src/delta.rs:643-769 | A constraint that the batch does not remove is added by at most one op of any kind, and is live afterwards. |
| Snapshots.SortsAgree | src/snapshot.rs:397-416 | Two term lists sort to the same row if and only if they agree variable by variable. |
| Snapshots.ScalarEntryAgrees | src/delta.rs:643-669 | A scalar row's delta entry is the later snapshot's entry if and only if each of its cells is written once and touched by no later op. |
| Snapshots.PackedEntryAgrees | src/delta.rs:674-769 | A packed row's delta entry is the later snapshot's entry if and only if the last later op on each of its cells, if any, leaves what the block wrote. |
| Snapshots.PackedRowMissesLaterCell | src/delta.rs:674-700 | A cell set on a packed row in the same batch is missing from that row's delta entry. |
| Fingerprints.NormalizedOrdinalFingerprint | src/snapshot.rs:190-292 | The streaming hasher returns the hash of exactly the canonical stream of the normalized snapshot. |
| Fingerprints.PutExpr | src/snapshot.rs:334-369 | The recursive hasher writes the prefix code of the coefficient over parameter ordinals. |
| Fingerprints.Ordinals | src/snapshot.rs:192-215 | The collected map gives every listed id its last position, and no other id. |
| Decoding.ExprBack | src/snapshot.rs:334-369 | The coefficient code is a prefix code: its decoder inverts it and leaves any trailing bytes. |
| FingerprintInvariance.CellOrderIsIrrelevant | src/snapshot.rs:254-275 | Permuting cells with distinct keys changes neither the normalized form nor the fingerprint. |
| FingerprintInvariance.KeyedCellsAreDistinct | src/snapshot.rs:256-275 | Distinct cell keys over listed entities have distinct ordinals, so the canonical order is strict. |
| FingerprintInvariance.DataIsInvisible | src/snapshot.rs:180-189 | Revision, parameter values and evaluated coefficients do not enter the fingerprint. |
| Fnv1a.StepIsInjective | src/snapshot.rs:307-310 | One step is injective in the hash so far and in the byte. |
| Fnv1a.MultiplicationIsInjective | src/snapshot.rs:300-310 | The wrapping multiplication by the odd FNV prime can be undone. |
| Fnv1a.Fnv.PutByte | src/snapshot.rs:307-310 | Hashing a byte extends the hashed stream by that byte. |
| Fnv1a.LittleEndianRoundTrip | src/snapshot.rs:318-320 | A word is recovered from its little-endian bytes. |
| IisToggling.HighsAnalysisOracle.DesiredBounds | roml-highs/src/iis.rs:86-139 | The loops compute, for every side, what the last selected owner sets, and leave the others open. |
| IisToggling.HighsAnalysisOracle.ToggleRows | roml-highs/src/iis.rs:141-160 | Writes, at the number of each row id, the desired bounds where the mirror has others; at any point native rows and mirror have moved together; it ends with the mirror on the desired bounds. |
| IisToggling.HighsAnalysisOracle.ToggleColumns | roml-highs/src/iis.rs:161-180 | The same for columns. |
| IisToggling.HighsAnalysisOracle.AfterAnyHistory | roml-highs/src/iis.rs:69-183 | With true mirrors, after any earlier selections, failed or not, a success leaves at the number of each id the bounds the last selection gives it; in id order that is the last selection. |
| IisToggling.InfeasibilityIsUpwardClosed | roml-highs/src/iis.rs:82-139 | When each restriction has one owner, every superset of an infeasible selection is infeasible. |
| IisToggling.LooserOwnerBreaks | roml-highs/src/iis.rs:106-139 | Two owners of one side keep a selection monotone only if the later one is no looser. |
| IisToggling.FixingAndLockLoosen | src/compiler/restriction.rs:98-125 | A fixing and a lock of one variable at different values append atoms that set both its sides twice; selecting the second as well loosens a side. |
| IisToggling.ExchangedIdsMisplaceBounds | roml-highs/src/iis.rs:141-150 | A valid snapshot with two row ids exchanged: selecting one restriction of row 1 leaves the position of row 1 without it. |
| IisToggling.ExchangedIdsRemember | roml-highs/src/iis.rs:141-150 | The same kind of snapshot, with different bounds: one selection leaves one native model at first and another one after a different selection. |
| StridedMaps.StridedMap.OrdinalCount | src/bulk.rs:90-94 | The checked fold gives the product, or nothing exactly when some prefix product overflows. |
| StridedMaps.CoordsRecompose | src/bulk.rs:108-117 | Decomposing an ordinal and recomposing it gives the ordinal back, with coordinates inside the shape. |
| StridedMaps.CoordsAreUnique | src/bulk.rs:108-117 | They are the only coordinates inside the shape with that ordinal. |
| StridedMaps.CanonicalStridesCount | src/bulk.rs:108-117 | On canonical row-major strides the mapped index is the offset plus the ordinal. |
| StridedMaps.GetCanonical | src/bulk.rs:118-142 | On canonical strides the result is the offset plus the ordinal, and there is one exactly when metadata are well-formed, the ordinal is in range, and neither a weighted coordinate nor the result leaves the signed range. |
| StridedMaps.ZeroStrideIsStillRefused | src/bulk.rs:118-142 | A coordinate beyond the signed range is refused even where a zero stride makes the mapped index the offset. |
| Namespaces.SplitInvertsElementName | roml-python/src/namespace.rs:31-47 | Every generated spelling splits into its base and index, and one whose index does not fit is refused. |
| Namespaces.ElementNameInvertsSplit | roml-python/src/namespace.rs:31-47 | Nothing but a generated spelling splits. |
| Namespaces.Spelling | roml-python/src/namespace.rs:31-47 | The spelling: decimal digits, most significant first, in square brackets after the base. |
| Namespaces.ElementsAreDistinct | roml-python/src/namespace.rs:60-67 | Elements of reservations are spelled apart from each other and from every explicit name. |
| Namespaces.ModelState.ProspectiveArrayConflicts | roml-python/src/namespace.rs:76-87 | Reports the smallest element below the length that is an explicit name, if and only if there is one. |
| Namespaces.ModelState.AddVariable | roml-python/src/model.rs:299-316 | Accepted exactly when the name is free in the expanded namespace; the index stays exact. |
| Namespaces.ModelState.AddParameter | roml-python/src/model.rs:333-342 | Accepted exactly when the name is free in the expanded namespace; the index stays exact. |
| Namespaces.ModelState.ReserveVariables | roml-python/src/model.rs:700-712 | Accepted exactly when base and all elements are free in the expanded namespace; only the base is stored. |
| Namespaces.ModelState.AddParameters | roml-python/src/model.rs:790-812 | Accepted exactly when base and all elements are free; every element becomes an explicit name. |
| Namespaces.ModelState.NameConstraints | roml-python/src/model.rs:1226-1258 | A named constraint array keeps the namespace unambiguous if and only if its base is no reserved element: the guard does not check that. |
| Namespaces.ReservedElementAsConstraintBase | roml-python/src/model.rs:1226-1235 | With an array reserved, its first element's name is occupied but passes the constraint-array base guard. |

## Left out

- Sessions.HighsSession.SynchronizeDelta: a batch that shows or clears an objective is stated for index maps in which every variable has a native column of its own; elsewhere the order of the cost writes is that of a hash map, and the result with it.
- Sessions.HighsSession.ApplyOverlay: an overlay that overrides the policy is stated for the same index maps, for the same reason.
- Sessions.HighsSession.RollbackOverlay: with a recorded overlay stated for index maps in which no two variables and no two rows share an index, for the same reason.
- Meanings.SolutionsCorrespond: like the other statements about values of listed coefficients, stated for lists that name each variable once, which is how cells are keyed; the held state of a list with repetitions is still specified, by its last entries.
- FingerprintStructures.StreamsShowExactlyTheStructure: stated for snapshots that list every id and every cell key once and give every cell a listed target, variable and parameters, as a model's snapshot does.
- IisToggling.HighsAnalysisOracle.ApplySelection: the neutralized objective, budgets and feasibility evidence of the oracle are not modelled.
- Synchronizing.Adapter.Synchronize: the snapshot a rebuild uses is a parameter that equals the replayed history; how the model produces it is not modelled.
- The HiGHS library, solving, callbacks, options, capability tables, logging and counters: native calls succeed or fail.
- A failed native call is always reported as recoverable; the terminal health of a licence failure is a branch that no modelled call takes.
- Rounding and not-a-number: bounds, costs and coefficients are reals with two infinities, and the fingerprint treats a float as an opaque word.
- Native infinities: the toggler's raw infinities and the rebuild's normalized ones are the same finite stand-in.
- The core model and the compiler: what they guarantee about snapshots, batches and overlays is a precondition.
- Constructs, objective cells, parameter and patch batches of `src/delta.rs` and `src/snapshot.rs`: they do not reach the function entries or the fingerprint.
- Adapters other than HiGHS, the transaction wrapper that drops its coordinator, identity, revision and metadata counters, and the Python bindings other than the namespace.
- Strings are sequences of characters; the byte positions of a multi-byte name are not modelled.
- Row and column duals, row values and objective values of an extracted solution: they follow the same reverse map as the column values.
