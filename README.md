# Move-path builder of the MIR dataflow framework, in Dafny

This project models the builder in
`compiler/rustc_mir_dataflow/src/move_paths/builder.rs`. The builder makes one linear pass over a MIR
function body: the arguments first, then each basic block's statements, then its terminator. As it goes,
it builds the `MoveData` that the borrow checker and drop elaboration later consume:

- a forest of *move paths*, kept in an arena. Each node has `parent`, `first_child` and `next_sibling`
  indices, and there is one root per tracked local. A new child is inserted at the head of its parent's
  sibling list;
- a memo map `projections` keyed by `(base path, lifted projection element)`, so that the same place
  always resolves to the same node;
- the `MoveOut` table `moves` together with its two indices: `path_map` (moves of each path) and
  `loc_map` (moves at each location);
- the `Init` table `inits` together with `init_path_map` and `init_loc_map`;
- the `un_derefer`, which records for each deref temporary (`_t = CopyForDeref(p)`) the chain of places
  it stands for.

## Structure

- `mir.dfy`: modules `Wrappers` (Option, Result) and `Mir`. `Mir` holds the slice of MIR the builder
  reads: places and projection elements, operands, rvalues, statements, terminators, blocks and local
  declarations. It also holds an abstract `TyKind` that answers the builder's type queries (`Ref`,
  `RawPtr`, `Adt` with `hasDtor`/`isUnion`, `Array(len)`, `Slice`, …), and the well-formedness
  predicates that stand for the `bug!`/`span_bug!`/`unreachable!` arms.
- `move_paths.dfy` (module `MovePaths`): the output data, meaning `MovePath`, `MoveOut`, `Init`,
  `InitKind`, `MoveError` and `MovePathLookup`. It also holds the reconstructed `un_derefer` and
  `find`, and the invariant `ValidData`. `ValidData` says:
  - the tables are index-aligned;
  - `path_map[p]` lists exactly the moves of `p` in order, and likewise for `init_path_map`, `loc_map`
    and `init_loc_map`;
  - every sibling list is exactly the node's children, newest first;
  - every memo entry points at a child of its key's base.
- `legality.dfy` (module `Legality`): `Classify`, the per-step legality match of `move_path_for`, as a
  pure function of a step and the type it projects from.
- `gather.dfy` (module `Gather`): a functional specification of every builder operation on a `MoveData`
  value.
- `builder.dfy` (module `Builder`): class `MoveDataBuilder`, with `body` and a mutable `data` field.
  - Its methods do what the source does: loops over projections, offsets, statements and arguments, and
    in-place pushes and map inserts.
  - Each method is proved to leave `data` equal to the corresponding `Gather` function of the old
    state, and to keep `Valid()`, which is `ValidData`.
  - The `Gatherer` (builder plus current location) is modelled by passing `loc` to the methods.
- `move_path_lemmas.dfy`, `gather_invariant.dfy`, `gather_lemmas.dfy`, `gather_effects.dfy`: the
  properties: how the forest is built, that `ValidData` is preserved, memoisation, legality, unions,
  subslice splitting, and the move and init records of each statement and terminator.

## Model

| member | source | states |
|---|---|---|
| MovePaths.PushPath | compiler/rustc_mir_dataflow/src/move_paths/builder.rs:73-80 | pushing a node appends exactly one node with the given parent and place. If there is a parent, the node's `nextSibling` is the parent's old `firstChild` and the parent's `firstChild` becomes the new node. Every other node is unchanged |
| Gather.NewMovePath | compiler/rustc_mir_dataflow/src/move_paths/builder.rs:66-88 | the new index equals the old length and is valid afterwards. The node has the given parent and place and no children, and the arena is the head-inserted `PushPath`. `path_map` and `init_path_map` each keep their entries and grow by one empty entry, so the three tables stay the same length. Moves, inits and the lookup are unchanged |
| MovePathLemmas.PushPathForest | compiler/rustc_mir_dataflow/src/move_paths/builder.rs:73-80 | head insertion keeps the forest consistent: all parent/child/sibling links stay in range, and every node's sibling list is exactly its children, newest first |
| MovePathLemmas.PushPathChildList | compiler/rustc_mir_dataflow/src/move_paths/builder.rs:76-79 | after a push, the parent's child list gains exactly the new node at its head, and every other node's child list is unchanged |
| GatherEffects.NewMovePathChildList | compiler/rustc_mir_dataflow/src/move_paths/builder.rs:66-88 | `new_move_path` under a parent puts the new index at the head of that parent's sibling list, and leaves every other node's list unchanged |
| GatherInvariant.NewMovePathValid | compiler/rustc_mir_dataflow/src/move_paths/builder.rs:66-88 | `new_move_path` preserves `ValidData` (the index alignment asserted at lines 82 and 85) and only extends the data |
| Builder.MoveDataBuilder.NewMovePath | compiler/rustc_mir_dataflow/src/move_paths/builder.rs:66-88 | the in-place pushes and the `mem::replace` on the parent's `first_child` produce exactly `Gather.NewMovePath`, keeping `Valid()` |
| Gather.InitialData | compiler/rustc_mir_dataflow/src/move_paths/builder.rs:24-64 | the initial data is well shaped for the body: per-location maps with one entry per statement and terminator, and one lookup entry per local |
| Gather.EmptyLocMap | compiler/rustc_mir_dataflow/src/move_paths/builder.rs:35 | `LocationMap::new` gives one empty list per statement and per terminator of every block |
| Gather.EmptyData | compiler/rustc_mir_dataflow/src/move_paths/builder.rs:24-62 | the empty `MoveData`: well shaped for the body, with no path, move or init and no local tracked yet |
| Gather.RootsFrom | compiler/rustc_mir_dataflow/src/move_paths/builder.rs:37-53 | creating the roots of the locals from `i` on keeps the data well shaped. The roots themselves are stated by `GatherEffects.RootsFromRoots` |
| GatherEffects.InitialDataRoots | compiler/rustc_mir_dataflow/src/move_paths/builder.rs:37-53 | every local that is not a deref temp gets a parentless root whose place is the bare local, and deref temps get `None`. There are no moves, inits or memo entries yet, and every path is a root |
| GatherEffects.RootsFromNodes | compiler/rustc_mir_dataflow/src/move_paths/builder.rs:37-53 | building the roots from local `i` on keeps every existing node and adds only parentless nodes |
| GatherEffects.RootsFromKeeps | compiler/rustc_mir_dataflow/src/move_paths/builder.rs:37-53 | building the roots from local `i` on keeps the lookups of the earlier locals and creates no move, init or memo entry |
| GatherEffects.RootsFromRoots | compiler/rustc_mir_dataflow/src/move_paths/builder.rs:37-53 | building the roots from local `i` on gives each later local its own parentless root exactly when it is not a deref temp |
| GatherInvariant.EmptyDataValid | compiler/rustc_mir_dataflow/src/move_paths/builder.rs:33-62 | the empty `MoveData` satisfies `ValidData` |
| GatherInvariant.SetRootValid | compiler/rustc_mir_dataflow/src/move_paths/builder.rs:43-49 | creating a local's root and recording it in `locals` preserves `ValidData` |
| Builder.MoveDataBuilder.constructor | compiler/rustc_mir_dataflow/src/move_paths/builder.rs:24-64 | the loop over the locals builds exactly `Gather.InitialData`, and the result satisfies `Valid()` |
| Gather.AddMovePath | compiler/rustc_mir_dataflow/src/move_paths/builder.rs:261-281 | afterwards `(base, lift(elem))` is in the memo map and maps to the returned index. If the key was already there, the data is unchanged and the old index is returned. Otherwise exactly one child of `base` is created. Moves, inits and the per-location maps never change |
| GatherLemmas.AddMovePathAgain | compiler/rustc_mir_dataflow/src/move_paths/builder.rs:272-280 | resolving the same base and element a second time returns the same index and creates nothing |
| GatherInvariant.AddMovePathValid | compiler/rustc_mir_dataflow/src/move_paths/builder.rs:261-281 | `add_move_path` preserves `ValidData` and only extends the data |
| Builder.MoveDataBuilder.AddMovePath | compiler/rustc_mir_dataflow/src/move_paths/builder.rs:261-281 | the `entry().or_insert_with` update produces exactly `Gather.AddMovePath`, keeping `Valid()` |
| Legality.Classify | compiler/rustc_mir_dataflow/src/move_paths/builder.rs:118-237 | `BorrowedContent` comes back iff the step is a `Deref` of a `Ref` or `RawPtr`. `InteriorOfTypeWithDestructor` comes back iff it is a `Field` of an ADT with a destructor. `InteriorOfSliceOrArray` comes back iff it is an `Index`, or a `ConstantIndex`/`Subslice` of a slice, with `is_index` true exactly for `Index`. The step enters a union iff it is a `Field` of a union without a destructor. Every other step (box deref, `Downcast`, `OpaqueCast`, `Subtype`, array element) is legal |
| Gather.Walk | compiler/rustc_mir_dataflow/src/move_paths/builder.rs:114-258 | the walk over the projection steps changes only the tree. An `Ok` result is a valid path index. An error is either `IllegalMove` or a `UnionMove` carrying a valid path index |
| Gather.MovePathFor | compiler/rustc_mir_dataflow/src/move_paths/builder.rs:99-259 | `UntrackedLocal` comes back iff the local has no root, and then nothing changes (lines 103-105). Otherwise the walk starts at the local's root, and moves and inits are untouched |
| MovePaths.InsertChain | compiler/rustc_mir_dataflow/src/move_paths/builder.rs:373 | after `un_derefer.insert(local, reffed)`, the chain of `local` is the chain of `reffed.local` followed by `reffed`. The chain of `reffed.local` is moved out, and every other chain is unchanged |
| MovePathLemmas.InsertChainTyped | compiler/rustc_mir_dataflow/src/move_paths/builder.rs:373 | recording a deref temporary keeps every chain made of well-typed places |
| MovePathLemmas.IterProjectionsTyped | compiler/rustc_mir_dataflow/src/move_paths/builder.rs:114 | every step `iter_projections` yields for a well-typed place is typed, so the legality match has a rule for it |
| MovePathLemmas.IterProjectionsPrefix | compiler/rustc_mir_dataflow/src/move_paths/builder.rs:114 | the steps yielded for a prefix of a place are the first steps yielded for the place: its local's chain, then its own first steps |
| MovePathLemmas.LiftKey | compiler/rustc_mir_dataflow/src/move_paths/builder.rs:241-242 | two projection elements share a memo key exactly when they differ only in the field or cast type or the index operand |
| MovePathLemmas.FindFromPrefix | compiler/rustc_mir_dataflow/src/move_paths/builder.rs:599 | a lookup that follows the memo map to the end of the steps also succeeds on each prefix of them |
| MovePathLemmas.FindPrefix | compiler/rustc_mir_dataflow/src/move_paths/builder.rs:599 | `find` resolves a place exactly only when it resolves each prefix of it exactly |
| GatherLemmas.WalkInUnion | compiler/rustc_mir_dataflow/src/move_paths/builder.rs:107-112 | once `union_path` is set, no node is created. The result is `UnionMove` of that node unless a deeper step is illegal, and if every remaining step is legal the result is exactly that `UnionMove` |
| GatherLemmas.WalkPlainPrefix | compiler/rustc_mir_dataflow/src/move_paths/builder.rs:238-250 | walking steps that are legal and enter no union creates or finds a path for each of them: the walk of the first `k` plain steps succeeds, and the whole walk continues from the path they end in |
| GatherLemmas.WalkEntersUnion | compiler/rustc_mir_dataflow/src/move_paths/builder.rs:107-112 | when step `k` enters a union after `k` plain steps, the paths of the first `k` steps are created and the rest of the walk runs with `union_path` set to the path they end in |
| GatherLemmas.MovePathForUnion | compiler/rustc_mir_dataflow/src/move_paths/builder.rs:99-259 | when the first step entering a union is step `k`, after plain steps only, `move_path_for` leaves exactly the data of walking the first `k` steps, so nothing below the union is created. Lookup along those steps finds the union path `p`. The result is `UnionMove(p)` or an `IllegalMove` of a later step, and exactly `UnionMove(p)` when no later step is illegal |
| GatherLemmas.MovePathForUnionFind | compiler/rustc_mir_dataflow/src/move_paths/builder.rs:99-259 | for a local with no `un_derefer` entry whose projection enters a union at element `k`: afterwards `find` of the prefix of length `k` is `Exact(p)`, and the result is `UnionMove(p)` unless a later step is illegal |
| GatherLemmas.MovePathForPlain | compiler/rustc_mir_dataflow/src/move_paths/builder.rs:99-259 | a tracked place whose steps are all legal and never enter a union always gets `Ok(path)` |
| GatherLemmas.WalkFirstIllegal | compiler/rustc_mir_dataflow/src/move_paths/builder.rs:118-237 | the walk returns the `IllegalMove` that `Classify` gives for the first illegal step, whether or not a union was entered before it |
| GatherLemmas.WalkStops | compiler/rustc_mir_dataflow/src/move_paths/builder.rs:114-250 | the walk returns at the first illegal step: the data it leaves equals the data of walking only the steps before it, so no node is created for that step or any later one |
| GatherLemmas.MovePathForIllegal | compiler/rustc_mir_dataflow/src/move_paths/builder.rs:114-237 | for a tracked local, `move_path_for` returns the error of the first illegal projection step, at the current location. The data it leaves is that of walking only the steps before that one, so no path is created from the illegal step on |
| GatherLemmas.WalkFind | compiler/rustc_mir_dataflow/src/move_paths/builder.rs:238-250 | when the walk ends in `Ok(path)`, following the memo map along the same steps from the base finds exactly `path` |
| GatherLemmas.MovePathForFind | compiler/rustc_mir_dataflow/src/move_paths/builder.rs:99-259 | after `move_path_for(place)` returns `Ok(path)`, `find(place)` is `Exact(path)` |
| GatherLemmas.WalkAgain | compiler/rustc_mir_dataflow/src/move_paths/builder.rs:238-250 | repeating the walk on its own result creates nothing and returns the same result |
| GatherLemmas.MovePathForAgain | compiler/rustc_mir_dataflow/src/move_paths/builder.rs:240-249 | resolving the same place a second time returns the same result and creates no paths |
| GatherLemmas.WalkKeepsMemo | compiler/rustc_mir_dataflow/src/move_paths/builder.rs:241-249 | the walk never removes or changes a memo entry |
| GatherEffects.MovePathForKeepsMemo | compiler/rustc_mir_dataflow/src/move_paths/builder.rs:99-259 | `move_path_for` never removes or changes a memo entry |
| GatherInvariant.WalkValid | compiler/rustc_mir_dataflow/src/move_paths/builder.rs:114-251 | the walk preserves `ValidData` and only extends the data |
| GatherInvariant.MovePathForValid | compiler/rustc_mir_dataflow/src/move_paths/builder.rs:99-259 | `move_path_for` preserves `ValidData` and only extends the data |
| Builder.MoveDataBuilder.MovePathFor | compiler/rustc_mir_dataflow/src/move_paths/builder.rs:99-259 | the loop, which reassigns `base` and `union_path` and returns early on an illegal step, produces exactly `Gather.MovePathFor`'s data and result, keeping `Valid()` |
| Gather.CreateMovePath | compiler/rustc_mir_dataflow/src/move_paths/builder.rs:283-287 | `create_move_path` changes only the tree, and its error is discarded |
| GatherEffects.CreateMovePathKeepsFind | compiler/rustc_mir_dataflow/src/move_paths/builder.rs:283-287 | a place that `find` resolved exactly before `create_move_path` still resolves to the same path afterwards |
| GatherInvariant.CreateMovePathValid | compiler/rustc_mir_dataflow/src/move_paths/builder.rs:283-287 | `create_move_path` preserves `ValidData` |
| Builder.MoveDataBuilder.CreateMovePath | compiler/rustc_mir_dataflow/src/move_paths/builder.rs:283-287 | produces exactly `Gather.CreateMovePath`, keeping `Valid()` |
| Gather.RecordMove | compiler/rustc_mir_dataflow/src/move_paths/builder.rs:575-583 | pushes exactly one `MoveOut { path, source: loc }`, and changes no node, init, init index or lookup |
| MovePathLemmas.MovesAppend | compiler/rustc_mir_dataflow/src/move_paths/builder.rs:576-582 | appending a move adds its index to the move list of exactly its own path and its own location |
| GatherInvariant.RecordMoveValid | compiler/rustc_mir_dataflow/src/move_paths/builder.rs:575-583 | `record_move` preserves `ValidData`, so the new move's index is listed in `path_map[path]` and `loc_map[loc]` |
| Builder.MoveDataBuilder.RecordMove | compiler/rustc_mir_dataflow/src/move_paths/builder.rs:575-583 | the three in-place pushes produce exactly `Gather.RecordMove`, keeping `Valid()` |
| Gather.InitTarget | compiler/rustc_mir_dataflow/src/move_paths/builder.rs:590-596 | the retargeted place has the same local |
| Gather.GatherInit | compiler/rustc_mir_dataflow/src/move_paths/builder.rs:585-613 | if `find` of the (retargeted) place gives `Exact(path)`, exactly one `Init { path, kind, Statement(loc) }` is pushed, with a valid path. If it gives `Parent`, nothing changes. No node, move, move index or lookup ever changes |
| GatherEffects.GatherInitUnionField | compiler/rustc_mir_dataflow/src/move_paths/builder.rs:590-596 | initialising a field of a union records the init against the union's own path |
| MovePathLemmas.InitsAppend | compiler/rustc_mir_dataflow/src/move_paths/builder.rs:598-612 | appending an init adds its index to the init list of exactly its own path and its own location |
| GatherInvariant.GatherInitValid | compiler/rustc_mir_dataflow/src/move_paths/builder.rs:585-613 | `gather_init` preserves `ValidData`, so a new init's index is listed in `init_path_map[path]` and `init_loc_map[loc]` |
| Builder.MoveDataBuilder.GatherInit | compiler/rustc_mir_dataflow/src/move_paths/builder.rs:585-613 | the union retargeting, the lookup and the in-place pushes produce exactly `Gather.GatherInit`, keeping `Valid()` |
| GatherEffects.CreateAndInitRecords | compiler/rustc_mir_dataflow/src/move_paths/builder.rs:377-387 | for every place, `create_move_path` followed by `gather_init` adds at most one init, of the given kind and at the given location. When the place is not retargeted and resolves to `Ok(path)`, it adds exactly `Init(path, kind, Statement(loc))` |
| GatherInvariant.CreateAndInitValid | compiler/rustc_mir_dataflow/src/move_paths/builder.rs:377-387 | `create_move_path` followed by `gather_init` preserves `ValidData` |
| Gather.CreateAndInit | compiler/rustc_mir_dataflow/src/move_paths/builder.rs:377-387 | `create_move_path` then `gather_init` keeps the data well shaped. Its init is stated by `GatherEffects.CreateAndInitRecords` |
| GatherEffects.SplitSubsliceKeeps | compiler/rustc_mir_dataflow/src/move_paths/builder.rs:560-566 | the loop over `from..to` adds exactly `to - from` moves after the existing ones. It keeps the inits and every memo entry |
| Gather.SplitSubslice | compiler/rustc_mir_dataflow/src/move_paths/builder.rs:537-566 | the loop over offsets keeps the data well shaped. Its moves are stated by `GatherEffects.SplitSubsliceKeeps` and `GatherEffects.SplitSubsliceMoves` |
| GatherEffects.SplitSubsliceMoves | compiler/rustc_mir_dataflow/src/move_paths/builder.rs:560-566 | the move for each offset in `[from, to)` is, in order, against the memoised `ConstantIndex { offset, min_length: len, from_end: false }` child of the base |
| GatherInvariant.SplitSubsliceValid | compiler/rustc_mir_dataflow/src/move_paths/builder.rs:560-566 | the subslice loop preserves `ValidData` |
| Builder.MoveDataBuilder.SplitSubslice | compiler/rustc_mir_dataflow/src/move_paths/builder.rs:560-566 | the loop over offsets produces exactly `Gather.SplitSubslice`, keeping `Valid()` |
| GatherEffects.GatherMoveMoves | compiler/rustc_mir_dataflow/src/move_paths/builder.rs:535-573 | `gather_move` never records an init, and its moves follow the source. A place without a trailing subslice records one move on `Ok` or `UnionMove`, and none otherwise. For a trailing `Subslice { from, to }` over an `Ok` base, `to - from` element moves are recorded against the `ConstantIndex` children. A union base records one move against the union path, and an illegal or untracked base records none |
| Gather.GatherMove | compiler/rustc_mir_dataflow/src/move_paths/builder.rs:535-573 | `gather_move` keeps the data well shaped. Its moves are stated by `GatherEffects.GatherMoveMoves` |
| GatherInvariant.GatherMoveValid | compiler/rustc_mir_dataflow/src/move_paths/builder.rs:535-573 | `gather_move` preserves `ValidData` |
| Builder.MoveDataBuilder.GatherMove | compiler/rustc_mir_dataflow/src/move_paths/builder.rs:535-573 | produces exactly `Gather.GatherMove`, keeping `Valid()` |
| Gather.GatherOperand | compiler/rustc_mir_dataflow/src/move_paths/builder.rs:525-533 | only `Operand::Move` changes anything. `Copy` and `Constant` leave the data unchanged |
| GatherEffects.GatherOperandInits | compiler/rustc_mir_dataflow/src/move_paths/builder.rs:525-533 | gathering an operand never records an init |
| GatherEffects.GatherOperandsInits | compiler/rustc_mir_dataflow/src/move_paths/builder.rs:423-431 | gathering a list of operands never records an init |
| Gather.GatherOperands | compiler/rustc_mir_dataflow/src/move_paths/builder.rs:423-431 | gathering a list of operands keeps the data well shaped. That it records no init is stated by `GatherEffects.GatherOperandsInits` |
| GatherInvariant.GatherOperandValid | compiler/rustc_mir_dataflow/src/move_paths/builder.rs:525-533 | `gather_operand` preserves `ValidData` |
| GatherInvariant.GatherOperandsValid | compiler/rustc_mir_dataflow/src/move_paths/builder.rs:423-431 | gathering a list of operands preserves `ValidData` |
| Builder.MoveDataBuilder.GatherOperand | compiler/rustc_mir_dataflow/src/move_paths/builder.rs:525-533 | produces exactly `Gather.GatherOperand`, keeping `Valid()` |
| Builder.MoveDataBuilder.GatherOperands | compiler/rustc_mir_dataflow/src/move_paths/builder.rs:428-431 | the loop over operands produces exactly `Gather.GatherOperands`, keeping `Valid()` |
| GatherEffects.GatherRvalueInits | compiler/rustc_mir_dataflow/src/move_paths/builder.rs:415-440 | gathering an rvalue never records an init |
| GatherEffects.GatherMoveLookup | compiler/rustc_mir_dataflow/src/move_paths/builder.rs:535-573 | `gather_move` keeps every memo entry, the local roots and the `un_derefer` chains |
| GatherEffects.GatherRvalueLookup | compiler/rustc_mir_dataflow/src/move_paths/builder.rs:415-440 | gathering an rvalue keeps every memo entry, the local roots and the `un_derefer` chains, so every place that `find` resolved exactly still resolves to the same path |
| Gather.GatherRvalue | compiler/rustc_mir_dataflow/src/move_paths/builder.rs:415-440 | gathering an rvalue keeps the data well shaped. Its records are stated by `GatherEffects.GatherRvalueInits` and `GatherEffects.GatherRvalueLookup` |
| GatherInvariant.GatherRvalueValid | compiler/rustc_mir_dataflow/src/move_paths/builder.rs:415-440 | `gather_rvalue` preserves `ValidData` |
| Builder.MoveDataBuilder.GatherRvalue | compiler/rustc_mir_dataflow/src/move_paths/builder.rs:415-440 | produces exactly `Gather.GatherRvalue`, keeping `Valid()` |
| GatherEffects.AssignInit | compiler/rustc_mir_dataflow/src/move_paths/builder.rs:376-388 | an `Assign` records at most one init at its location. The init is `Shallow` when the rvalue's initialisation state is shallow and `Deep` otherwise. When the place resolves to `Ok(path)` and is not retargeted, that init is against `path`. In the shallow case `*place` gets a path (line 382): when `move_path_for(*place)` succeeds, `find(*place)` is still `Exact` of that path after the rvalue is read |
| GatherEffects.StorageDeadMoves | compiler/rustc_mir_dataflow/src/move_paths/builder.rs:393-398 | `StorageDead(local)` creates no path and no init. It records one move of the local's root exactly when the local is not a deref temp and is tracked |
| GatherEffects.AliasDerefTempFind | compiler/rustc_mir_dataflow/src/move_paths/builder.rs:366-375 | after `_t = CopyForDeref(reffed)`, looking up `_t.proj` finds the same result as looking up `reffed.proj`. No path, move or init is added |
| GatherInvariant.AliasDerefTempValid | compiler/rustc_mir_dataflow/src/move_paths/builder.rs:366-375 | the `CopyForDeref` update of `un_derefer` and `locals` preserves `ValidData` |
| Gather.AliasDerefTemp | compiler/rustc_mir_dataflow/src/move_paths/builder.rs:366-375 | the `CopyForDeref` update keeps the data well shaped. Its effect on lookup is stated by `GatherEffects.AliasDerefTempFind` |
| GatherInvariant.GatherStatementValid | compiler/rustc_mir_dataflow/src/move_paths/builder.rs:364-413 | `gather_statement` preserves `ValidData` |
| Gather.GatherStatement | compiler/rustc_mir_dataflow/src/move_paths/builder.rs:364-413 | `gather_statement` keeps the data well shaped. Its records are stated by `GatherEffects.AssignInit`, `GatherEffects.StorageDeadMoves` and `GatherEffects.AliasDerefTempFind` |
| Builder.MoveDataBuilder.GatherStatement | compiler/rustc_mir_dataflow/src/move_paths/builder.rs:347-350 | with the builder at `loc`, produces exactly `Gather.GatherStatement` (lines 364-413), keeping `Valid()` |
| GatherEffects.TerminatorInits | compiler/rustc_mir_dataflow/src/move_paths/builder.rs:442-523 | a `Call` without a target records no init. A `Call` with a target records at most one `NonPanicPathOnly` init at its location, whatever its destination. A `Yield` records at most one `Deep` init, whatever its destination. The other terminators other than `InlineAsm` record none |
| GatherInvariant.GatherAsmOperandValid | compiler/rustc_mir_dataflow/src/move_paths/builder.rs:497-519 | gathering one inline-asm operand preserves `ValidData` |
| GatherInvariant.GatherAsmOperandsValid | compiler/rustc_mir_dataflow/src/move_paths/builder.rs:497-520 | gathering all inline-asm operands preserves `ValidData` |
| GatherInvariant.GatherTerminatorValid | compiler/rustc_mir_dataflow/src/move_paths/builder.rs:442-523 | `gather_terminator` preserves `ValidData` |
| Gather.GatherTerminator | compiler/rustc_mir_dataflow/src/move_paths/builder.rs:442-523 | `gather_terminator` keeps the data well shaped. Its inits are stated by `GatherEffects.TerminatorInits` |
| Gather.GatherAsmOperand | compiler/rustc_mir_dataflow/src/move_paths/builder.rs:497-519 | gathering one inline-asm operand keeps the data well shaped |
| Gather.GatherAsmOperands | compiler/rustc_mir_dataflow/src/move_paths/builder.rs:497-520 | gathering all inline-asm operands keeps the data well shaped |
| Builder.MoveDataBuilder.GatherAsmOperand | compiler/rustc_mir_dataflow/src/move_paths/builder.rs:497-519 | produces exactly `Gather.GatherAsmOperand`, keeping `Valid()` |
| Builder.MoveDataBuilder.GatherAsmOperands | compiler/rustc_mir_dataflow/src/move_paths/builder.rs:497-520 | the loop over operands produces exactly `Gather.GatherAsmOperands`, keeping `Valid()` |
| Builder.MoveDataBuilder.GatherTerminator | compiler/rustc_mir_dataflow/src/move_paths/builder.rs:352-355 | with the builder at `loc`, produces exactly `Gather.GatherTerminator` (lines 442-523), keeping `Valid()` |
| GatherEffects.GatherArgStep | compiler/rustc_mir_dataflow/src/move_paths/builder.rs:333-343 | one argument adds `Init(root, Deep, Argument(arg))` to `inits` exactly when it is tracked. Paths, moves and lookup are unchanged |
| GatherEffects.GatherArgsFromKeeps | compiler/rustc_mir_dataflow/src/move_paths/builder.rs:331-345 | `gather_args` changes no path, move or lookup entry, and keeps the existing inits as a prefix |
| GatherEffects.GatherArgsFromInits | compiler/rustc_mir_dataflow/src/move_paths/builder.rs:331-345 | every init `gather_args` adds is a `Deep` init of an argument's own root, located at `Argument(arg)` |
| GatherEffects.GatherArgsFromCovers | compiler/rustc_mir_dataflow/src/move_paths/builder.rs:331-345 | every tracked argument gets such an init |
| GatherEffects.GatherArgsFromOrdered | compiler/rustc_mir_dataflow/src/move_paths/builder.rs:331-345 | the argument inits are in strictly increasing argument order, so there is exactly one per tracked argument |
| GatherInvariant.GatherArgValid | compiler/rustc_mir_dataflow/src/move_paths/builder.rs:333-343 | one argument's init preserves `ValidData` |
| Gather.GatherArg | compiler/rustc_mir_dataflow/src/move_paths/builder.rs:333-343 | one argument's init keeps the data well shaped. The init is stated by `GatherEffects.GatherArgStep` |
| Gather.GatherArgsFrom | compiler/rustc_mir_dataflow/src/move_paths/builder.rs:331-345 | the arguments' inits keep the data well shaped. They are stated by the `GatherEffects.GatherArgsFrom…` lemmas |
| Builder.MoveDataBuilder.GatherArgs | compiler/rustc_mir_dataflow/src/move_paths/builder.rs:331-345 | the loop over `args_iter()` (locals `1..=arg_count`) produces exactly `Gather.GatherArgsFrom(…, 1)`, keeping `Valid()` |
| Builder.MoveDataBuilder.GatherBlock | compiler/rustc_mir_dataflow/src/move_paths/builder.rs:318-325 | gathers every statement of the block at `Location(bb, i)`, then the terminator at `Location(bb, len)`. The result is exactly `Gather.GatherBlock`, keeping `Valid()` |
| Gather.GatherStatementsFrom | compiler/rustc_mir_dataflow/src/move_paths/builder.rs:319-322 | gathering the statements of a block from index `i` on keeps the data well shaped |
| Gather.GatherBlock | compiler/rustc_mir_dataflow/src/move_paths/builder.rs:318-325 | gathering a block's statements and then its terminator keeps the data well shaped |
| Gather.GatherBlocksFrom | compiler/rustc_mir_dataflow/src/move_paths/builder.rs:318-326 | gathering the blocks from `bb` on keeps the data well shaped |
| Gather.GatherMoves | compiler/rustc_mir_dataflow/src/move_paths/builder.rs:308-328 | the whole pass over a well-formed body gives a well-shaped result. `Builder.GatherMoves` proves that it also satisfies `ValidData` |
| Builder.MoveDataBuilder.Finalize | compiler/rustc_mir_dataflow/src/move_paths/builder.rs:291-305 | returns the accumulated data unchanged, and it satisfies `ValidData` |
| Builder.GatherMoves | compiler/rustc_mir_dataflow/src/move_paths/builder.rs:308-328 | for a well-formed body, the whole pass returns exactly `Gather.GatherMoves(body)`, and that data satisfies `ValidData`: aligned tables, exact sibling lists and a consistent memo map |

## Left out

- `un_derefer.rs` (`insert`, `deref_chain`, `iter_projections`) and `mod.rs` (`MovePathLookup::find`,
  `find_local`, `LocationMap::new`, `lift`, `initialization_state`) are not part of this model. They are
  reconstructed from how the builder uses them, and their properties are stated by the lemmas listed
  above:
  - `InsertChain` stores the chain of `reffed.local` followed by `reffed`;
  - `IterProjections` yields the steps of the chained places, then the place's own steps;
  - `Find` follows the memo map and returns `Exact` or the deepest `Parent`;
  - `Lift` drops the type payloads of `Field`/`OpaqueCast`/`Subtype` and the operand of `Index`;
  - `InitializationState` is shallow exactly for `ShallowInitBox`.
- Type computation (`place.ty`, `has_dtor`, `is_union`, `is_box`, `eval_target_usize`, `mk_place_deref`,
  `mk_place_elems`, `project_deeper`) is not modelled. Instead, the body carries a map from places to an
  abstract `TyKind` with the array length already evaluated. `TyCtxt` and `ParamEnv` disappear.
- The `bug!`, `span_bug!` and `unreachable!` arms (lines 128-131, 133-156, 172-195, 209, 228, 366-368,
  399-404, 433, 558) are not behaviour. They become the preconditions `WellTypedPlace`, `MovablePlace`
  and `WellFormedBody`.
- `debug!` logging and the dump in `finalize` are diagnostic output and are left out.
- Lifetimes and the borrow juggling in `add_move_path` are left out, as is the inlined copy of
  `add_move_path` inside `move_path_for`. Both are modelled by the same memo update.
- Offsets and lengths are unbounded `nat`s. The source's `u64` cannot overflow on any real array
  pattern.
- GatherEffects.StorageDeadMoves: stated only for a local that has no `un_derefer` entry. Only deref
  temps get one, and they record no move. A local with an entry would resolve through its alias chain,
  and this lemma does not follow that chain.
- GatherEffects.AliasDerefTempFind: stated only when `reffed.local` is not itself an alias in
  `un_derefer`, so that the chain is just `reffed`. Nested chains are handled by `InsertChain` but have
  no lookup lemma.
- GatherEffects.CreateAndInitRecords: the exact init path is stated only for a place that is not a
  union field (`InitTarget(place) == place`). The union case is covered by
  `GatherEffects.GatherInitUnionField`.
- GatherEffects.AssignInit: the exact init path is stated only for a place that is not a union field,
  as above.
- GatherEffects.TerminatorInits: says nothing about the inits of `InlineAsm`. Its operands are covered
  only by the `ValidData` preservation lemmas.
