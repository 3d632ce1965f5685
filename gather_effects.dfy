/**
 * The moves and inits each kind of operand, statement and terminator
 * records, the roots the builder starts from, and what aliasing a deref
 * temporary does to lookup.
 */
module GatherEffects {
  import opened Wrappers
  import opened Mir
  import opened MovePaths
  import opened MovePathLemmas
  import opened Legality
  import opened Gather
  import opened GatherLemmas

  // ----- lookup only grows -----

  /** A lookup that succeeded still succeeds, with the same path, once more
      children are memoised. */
  lemma {:induction false} FindFromKept(m: map<ProjKey, nat>, m': map<ProjKey, nat>, result: nat, steps: seq<Step>)
    requires forall k :: k in m ==> k in m' && m'[k] == m[k]
    ensures FindFrom(m, result, steps).Exact? ==> FindFrom(m', result, steps) == FindFrom(m, result, steps)
    decreases |steps|
  {
    if steps != [] && (result, Lift(steps[0].elem)) in m {
      FindFromKept(m, m', m[(result, Lift(steps[0].elem))], steps[1..]);
    }
  }

  lemma MovePathForKeepsMemo(body: Body, d: MoveData, loc: Location, place: Place)
    requires Shaped(body, d) && WellTypedPlace(body, place)
    ensures MemoKept(d, MovePathFor(body, d, loc, place).0)
  {
    if d.revLookup.locals[place.local].Some? {
      IterProjectionsTyped(body, d.revLookup.unDerefer, place);
      WalkKeepsMemo(body, d, loc, d.revLookup.locals[place.local].value, None,
                    IterProjections(d.revLookup.unDerefer, place));
    }
  }

  /** A place that has a path keeps it across any later create_move_path. */
  lemma CreateMovePathKeepsFind(body: Body, d: MoveData, loc: Location, place: Place, other: Place)
    requires Shaped(body, d) && WellTypedPlace(body, other) && place.local < |body.localDecls|
    ensures Find(d.revLookup, place).Exact? ==>
              Find(CreateMovePath(body, d, loc, other).revLookup, place) == Find(d.revLookup, place)
  {
    MovePathForKeepsMemo(body, d, loc, other);
    if d.revLookup.locals[place.local].Some? {
      FindFromKept(d.revLookup.projections, CreateMovePath(body, d, loc, other).revLookup.projections,
                   d.revLookup.locals[place.local].value, IterProjections(d.revLookup.unDerefer, place));
    }
  }

  /** Memo entries, root paths and deref chains all survive: every path
      lookup finds, it finds again. */
  predicate LookupKept(d: MoveData, d': MoveData) {
    MemoKept(d, d') &&
    d'.revLookup.locals == d.revLookup.locals && d'.revLookup.unDerefer == d.revLookup.unDerefer
  }

  lemma LookupKeptTrans(d: MoveData, d1: MoveData, d2: MoveData)
    requires LookupKept(d, d1) && LookupKept(d1, d2)
    ensures LookupKept(d, d2)
  {
  }

  lemma LookupKeptFind(d: MoveData, d': MoveData, place: Place)
    requires LookupKept(d, d') && place.local < |d.revLookup.locals|
    ensures Find(d.revLookup, place).Exact? ==> Find(d'.revLookup, place) == Find(d.revLookup, place)
  {
    if d.revLookup.locals[place.local].Some? {
      FindFromKept(d.revLookup.projections, d'.revLookup.projections,
                   d.revLookup.locals[place.local].value, IterProjections(d.revLookup.unDerefer, place));
    }
  }

  // ----- gather_init -----

  /** Nothing, or one init of `kind` made at `loc`, was appended. */
  predicate AtMostOneInit(d: MoveData, r: MoveData, kind: InitKind, loc: Location) {
    r.inits == d.inits ||
    (|r.inits| == |d.inits| + 1 && r.inits[..|d.inits|] == d.inits &&
     r.inits[|d.inits|].kind == kind && r.inits[|d.inits|].location == Statement(loc))
  }

  /** Initialising a field of a union initialises the union as a whole. */
  lemma GatherInitUnionField(body: Body, d: MoveData, loc: Location, u: Place, field: nat, fieldTy: TyKind,
                             kind: InitKind)
    requires Shaped(body, d) && WellTypedPlace(body, Project(u, Field(field, fieldTy))) && ValidLocation(body, loc)
    requires TyOf(body, u).Adt? && TyOf(body, u).isUnion
    ensures Find(d.revLookup, u).Exact? ==>
              GatherInit(body, d, loc, Project(u, Field(field, fieldTy)), kind).inits ==
              d.inits + [Init(Find(d.revLookup, u).path, kind, Statement(loc))]
  {
    var place := Project(u, Field(field, fieldTy));
    assert Prefix(place, |place.projection| - 1) == u;
  }

  /** create_move_path followed by gather_init makes at most one init, of
      the given kind at `loc`; unless the place is a field of a union, it is
      an init of the path that was just created. */
  lemma CreateAndInitRecords(body: Body, d: MoveData, loc: Location, place: Place, kind: InitKind)
    requires Shaped(body, d) && WellTypedPlace(body, place) && ValidLocation(body, loc)
    ensures AtMostOneInit(d, CreateAndInit(body, d, loc, place, kind), kind, loc)
    ensures InitTarget(body, place) == place && MovePathFor(body, d, loc, place).1.Ok? ==>
              CreateAndInit(body, d, loc, place, kind).inits ==
              d.inits + [Init(MovePathFor(body, d, loc, place).1.value, kind, Statement(loc))]
  {
    MovePathForFind(body, d, loc, place);
  }

  // ----- gather_move -----

  /** Move `i` is the move at `loc` of the memoised constant-index child of
      `basePath` for the offset `offset + (i - start)`. */
  predicate IsElementMove(moves: seq<MoveOut>, i: nat, start: nat, memo: map<ProjKey, nat>,
                          basePath: nat, offset: nat, len: nat, loc: Location)
    requires start <= i < |moves|
  {
    var key := (basePath, AbsConstantIndex(offset + (i - start), len, false));
    key in memo && moves[i] == MoveOut(memo[key], loc)
  }

  /** The moves from index `start` on are, in order, moves of the elements
      from `offset` on. */
  predicate ElementMoves(moves: seq<MoveOut>, start: nat, memo: map<ProjKey, nat>,
                         basePath: nat, offset: nat, len: nat, loc: Location) {
    forall i :: start <= i < |moves| ==> IsElementMove(moves, i, start, memo, basePath, offset, len, loc)
  }

  lemma ElementMovesCons(moves: seq<MoveOut>, start: nat, memo: map<ProjKey, nat>,
                         basePath: nat, offset: nat, len: nat, loc: Location)
    requires start < |moves|
    requires ElementMoves(moves, start + 1, memo, basePath, offset + 1, len, loc)
    requires (basePath, AbsConstantIndex(offset, len, false)) in memo
    requires moves[start] == MoveOut(memo[(basePath, AbsConstantIndex(offset, len, false))], loc)
    ensures ElementMoves(moves, start, memo, basePath, offset, len, loc)
  {
    forall i | start <= i < |moves| ensures IsElementMove(moves, i, start, memo, basePath, offset, len, loc) {
      if i > start {
        assert IsElementMove(moves, i, start + 1, memo, basePath, offset + 1, len, loc);
        assert offset + 1 + (i - (start + 1)) == offset + (i - start);
      }
    }
  }

  /** The element moves after `d2`'s moves, preceded by the move of the
      element at `offset`, are the element moves after `d`'s. */
  lemma ElementMovesPrepend(moves: seq<MoveOut>, moves2: seq<MoveOut>, movesR: seq<MoveOut>,
                            memo2: map<ProjKey, nat>, memoR: map<ProjKey, nat>,
                            basePath: nat, offset: nat, len: nat, loc: Location, path: nat)
    requires moves2 == moves + [MoveOut(path, loc)]
    requires |moves2| <= |movesR| && movesR[..|moves2|] == moves2
    requires (basePath, AbsConstantIndex(offset, len, false)) in memo2
    requires memo2[(basePath, AbsConstantIndex(offset, len, false))] == path
    requires forall k :: k in memo2 ==> k in memoR && memoR[k] == memo2[k]
    requires ElementMoves(movesR, |moves2|, memoR, basePath, offset + 1, len, loc)
    ensures ElementMoves(movesR, |moves|, memoR, basePath, offset, len, loc)
  {
    assert movesR[|moves|] == movesR[..|moves2|][|moves|];
    ElementMovesCons(movesR, |moves|, memoR, basePath, offset, len, loc);
  }

  /** One step of the split: the element's child is memoised and its move
      appended, and nothing else but the forest changes. */
  lemma SplitSubsliceStep(body: Body, d: MoveData, loc: Location, basePath: nat,
                          basePlace: Place, offset: nat, len: nat)
    requires Shaped(body, d) && basePath < |d.movePaths| && ValidLocation(body, loc)
    ensures var elem := ConstantIndex(offset, len, false);
            var (d1, path) := AddMovePath(body, d, basePath, elem, Project(basePlace, elem));
            var d2 := RecordMove(body, d1, loc, path);
            d2.inits == d.inits && MemoKept(d, d2) && d2.moves == d.moves + [MoveOut(path, loc)] &&
            (basePath, AbsConstantIndex(offset, len, false)) in d2.revLookup.projections &&
            d2.revLookup.projections[(basePath, AbsConstantIndex(offset, len, false))] == path
  {
  }

  lemma PrefixOfPrefix<T>(a: seq<T>, b: seq<T>, c: seq<T>)
    requires |a| <= |b| <= |c| && c[..|b|] == b && b[..|a|] == a
    ensures c[..|a|] == a
  {
    assert c[..|b|][..|a|] == c[..|a|];
  }

  /** Splitting a subslice appends one move per offset in [offset, to)
      and changes no init and no memo entry. */
  lemma {:induction false} SplitSubsliceKeeps(body: Body, d: MoveData, loc: Location, basePath: nat,
                                              basePlace: Place, offset: nat, to: nat, len: nat)
    requires Shaped(body, d) && basePath < |d.movePaths| && ValidLocation(body, loc)
    ensures var r := SplitSubslice(body, d, loc, basePath, basePlace, offset, to, len);
            r.inits == d.inits && MemoKept(d, r) &&
            |r.moves| == |d.moves| + (if to > offset then to - offset else 0) &&
            r.moves[..|d.moves|] == d.moves
    decreases if to > offset then to - offset else 0
  {
    if offset < to {
      var elem := ConstantIndex(offset, len, false);
      var (d1, path) := AddMovePath(body, d, basePath, elem, Project(basePlace, elem));
      var d2 := RecordMove(body, d1, loc, path);
      SplitSubsliceStep(body, d, loc, basePath, basePlace, offset, len);
      var r := SplitSubslice(body, d2, loc, basePath, basePlace, offset + 1, to, len);
      SplitSubsliceKeeps(body, d2, loc, basePath, basePlace, offset + 1, to, len);
      PrefixOfPrefix(d.moves, d2.moves, r.moves);
    }
  }

  /** Splitting a subslice moves each offset in [offset, to), in order,
      each from the memoised constant-index child of the base path. */
  lemma {:induction false} SplitSubsliceMoves(body: Body, d: MoveData, loc: Location, basePath: nat,
                                              basePlace: Place, offset: nat, to: nat, len: nat)
    requires Shaped(body, d) && basePath < |d.movePaths| && ValidLocation(body, loc)
    ensures var r := SplitSubslice(body, d, loc, basePath, basePlace, offset, to, len);
            |d.moves| <= |r.moves| &&
            ElementMoves(r.moves, |d.moves|, r.revLookup.projections, basePath, offset, len, loc)
    decreases if to > offset then to - offset else 0
  {
    if offset < to {
      var elem := ConstantIndex(offset, len, false);
      var (d1, path) := AddMovePath(body, d, basePath, elem, Project(basePlace, elem));
      var d2 := RecordMove(body, d1, loc, path);
      SplitSubsliceStep(body, d, loc, basePath, basePlace, offset, len);
      var r := SplitSubslice(body, d2, loc, basePath, basePlace, offset + 1, to, len);
      SplitSubsliceKeeps(body, d2, loc, basePath, basePlace, offset + 1, to, len);
      SplitSubsliceMoves(body, d2, loc, basePath, basePlace, offset + 1, to, len);
      ElementMovesPrepend(d.moves, d2.moves, r.moves, d2.revLookup.projections, r.revLookup.projections,
                          basePath, offset, len, loc, path);
    }
  }

  /** Moving a place records one move of its path (of the union, for a place
      inside one), a subslice of an array one move per element, and a place
      without a legal path nothing; no init is made and no node is lost. */
  lemma GatherMoveMoves(body: Body, d: MoveData, loc: Location, place: Place)
    requires Shaped(body, d) && MovablePlace(body, place) && ValidLocation(body, loc)
    ensures GatherMove(body, d, loc, place).inits == d.inits
    ensures !EndsInSubslice(place) ==>
              var res := MovePathFor(body, d, loc, place).1;
              GatherMove(body, d, loc, place).moves ==
              d.moves + (if res.Ok? then [MoveOut(res.value, loc)]
                         else if res.error.UnionMove? then [MoveOut(res.error.path, loc)]
                         else [])
    ensures EndsInSubslice(place) ==>
              var n := |place.projection| - 1;
              var sub := place.projection[n];
              WellTypedPlace(body, Prefix(place, n)) &&
              var (d1, res) := MovePathFor(body, d, loc, Prefix(place, n));
              var r := GatherMove(body, d, loc, place);
              (res.Ok? ==>
                 |r.moves| == |d.moves| + (if sub.to > sub.from then sub.to - sub.from else 0) &&
                 r.moves[..|d.moves|] == d.moves &&
                 ElementMoves(r.moves, |d.moves|, r.revLookup.projections, res.value, sub.from,
                              TyOf(body, Prefix(place, n)).len, loc)) &&
              (res.Err? && res.error.UnionMove? ==> r.moves == d.moves + [MoveOut(res.error.path, loc)]) &&
              (res.Err? && !res.error.UnionMove? ==> r.moves == d.moves)
  {
    if EndsInSubslice(place) {
      var n := |place.projection| - 1;
      WellTypedPrefix(body, place, n);
      var (d1, res) := MovePathFor(body, d, loc, Prefix(place, n));
      if res.Ok? {
        SplitSubsliceKeeps(body, d1, loc, res.value, Prefix(place, n),
                           place.projection[n].from, place.projection[n].to, TyOf(body, Prefix(place, n)).len);
        SplitSubsliceMoves(body, d1, loc, res.value, Prefix(place, n),
                           place.projection[n].from, place.projection[n].to, TyOf(body, Prefix(place, n)).len);
      }
    }
  }

  /** Splitting a subslice only adds to lookup. */
  lemma {:induction false} SplitSubsliceLookup(body: Body, d: MoveData, loc: Location, basePath: nat,
                                               basePlace: Place, offset: nat, to: nat, len: nat)
    requires Shaped(body, d) && basePath < |d.movePaths| && ValidLocation(body, loc)
    ensures LookupKept(d, SplitSubslice(body, d, loc, basePath, basePlace, offset, to, len))
    decreases if to > offset then to - offset else 0
  {
    if offset < to {
      var elem := ConstantIndex(offset, len, false);
      var (d1, path) := AddMovePath(body, d, basePath, elem, Project(basePlace, elem));
      var d2 := RecordMove(body, d1, loc, path);
      SplitSubsliceStep(body, d, loc, basePath, basePlace, offset, len);
      assert LookupKept(d, d2);
      SplitSubsliceLookup(body, d2, loc, basePath, basePlace, offset + 1, to, len);
      LookupKeptTrans(d, d2, SplitSubslice(body, d2, loc, basePath, basePlace, offset + 1, to, len));
    }
  }

  /** Moving a place only adds to lookup. */
  lemma GatherMoveLookup(body: Body, d: MoveData, loc: Location, place: Place)
    requires Shaped(body, d) && MovablePlace(body, place) && ValidLocation(body, loc)
    ensures LookupKept(d, GatherMove(body, d, loc, place))
  {
    if EndsInSubslice(place) {
      var n := |place.projection| - 1;
      WellTypedPrefix(body, place, n);
      MovePathForKeepsMemo(body, d, loc, Prefix(place, n));
      var (d1, res) := MovePathFor(body, d, loc, Prefix(place, n));
      if res.Ok? {
        SplitSubsliceLookup(body, d1, loc, res.value, Prefix(place, n),
                            place.projection[n].from, place.projection[n].to, TyOf(body, Prefix(place, n)).len);
      }
    } else {
      MovePathForKeepsMemo(body, d, loc, place);
    }
  }

  lemma {:induction false} GatherOperandsLookup(body: Body, d: MoveData, loc: Location, ops: seq<Operand>)
    requires Shaped(body, d) && WellFormedOperands(body, ops) && ValidLocation(body, loc)
    ensures LookupKept(d, GatherOperands(body, d, loc, ops))
    decreases |ops|
  {
    if ops != [] {
      if ops[0].Move? {
        GatherMoveLookup(body, d, loc, ops[0].place);
      }
      assert WellFormedOperands(body, ops[1..]) by {
        forall i | 0 <= i < |ops[1..]| ensures ops[1..][i] == ops[i + 1] { }
      }
      GatherOperandsLookup(body, GatherOperand(body, d, loc, ops[0]), loc, ops[1..]);
    }
  }

  /** Reading an rvalue only adds to lookup. */
  lemma GatherRvalueLookup(body: Body, d: MoveData, loc: Location, rv: Rvalue)
    requires Shaped(body, d) && WellFormedRvalue(body, rv) && ValidLocation(body, loc)
    ensures LookupKept(d, GatherRvalue(body, d, loc, rv))
  {
    match rv
    case Use(op) => if op.Move? { GatherMoveLookup(body, d, loc, op.place); }
    case Repeat(op, _) => if op.Move? { GatherMoveLookup(body, d, loc, op.place); }
    case Cast(op) => if op.Move? { GatherMoveLookup(body, d, loc, op.place); }
    case ShallowInitBox(op) => if op.Move? { GatherMoveLookup(body, d, loc, op.place); }
    case UnaryOp(op) => if op.Move? { GatherMoveLookup(body, d, loc, op.place); }
    case BinaryOp(lhs, rhs) =>
      var d1 := GatherOperand(body, d, loc, lhs);
      if lhs.Move? { GatherMoveLookup(body, d, loc, lhs.place); }
      if rhs.Move? { GatherMoveLookup(body, d1, loc, rhs.place); }
    case CheckedBinaryOp(lhs, rhs) =>
      var d1 := GatherOperand(body, d, loc, lhs);
      if lhs.Move? { GatherMoveLookup(body, d, loc, lhs.place); }
      if rhs.Move? { GatherMoveLookup(body, d1, loc, rhs.place); }
    case Aggregate(ops) => GatherOperandsLookup(body, d, loc, ops);
    case _ =>
  }

  // ----- operands and rvalues -----

  lemma GatherOperandInits(body: Body, d: MoveData, loc: Location, op: Operand)
    requires Shaped(body, d) && WellFormedOperand(body, op) && ValidLocation(body, loc)
    ensures GatherOperand(body, d, loc, op).inits == d.inits
  {
    if op.Move? {
      GatherMoveMoves(body, d, loc, op.place);
    }
  }

  lemma {:induction false} GatherOperandsInits(body: Body, d: MoveData, loc: Location, ops: seq<Operand>)
    requires Shaped(body, d) && WellFormedOperands(body, ops) && ValidLocation(body, loc)
    ensures GatherOperands(body, d, loc, ops).inits == d.inits
    decreases |ops|
  {
    if ops != [] {
      GatherOperandInits(body, d, loc, ops[0]);
      assert WellFormedOperands(body, ops[1..]) by {
        forall i | 0 <= i < |ops[1..]| ensures ops[1..][i] == ops[i + 1] { }
      }
      GatherOperandsInits(body, GatherOperand(body, d, loc, ops[0]), loc, ops[1..]);
    }
  }

  /** Reading an rvalue only ever moves: it initialises nothing. */
  lemma GatherRvalueInits(body: Body, d: MoveData, loc: Location, rv: Rvalue)
    requires Shaped(body, d) && WellFormedRvalue(body, rv) && ValidLocation(body, loc)
    ensures GatherRvalue(body, d, loc, rv).inits == d.inits
  {
    match rv
    case Use(op) => GatherOperandInits(body, d, loc, op);
    case Repeat(op, _) => GatherOperandInits(body, d, loc, op);
    case Cast(op) => GatherOperandInits(body, d, loc, op);
    case ShallowInitBox(op) => GatherOperandInits(body, d, loc, op);
    case UnaryOp(op) => GatherOperandInits(body, d, loc, op);
    case BinaryOp(lhs, rhs) =>
      GatherOperandInits(body, d, loc, lhs);
      GatherOperandInits(body, GatherOperand(body, d, loc, lhs), loc, rhs);
    case CheckedBinaryOp(lhs, rhs) =>
      GatherOperandInits(body, d, loc, lhs);
      GatherOperandInits(body, GatherOperand(body, d, loc, lhs), loc, rhs);
    case Aggregate(ops) => GatherOperandsInits(body, d, loc, ops);
    case _ =>
  }

  // ----- gather_statement -----

  /** An assignment initialises its place, and the rvalue makes no further
      init. A box being allocated is initialised only shallowly, after its
      interior `*place` got a path of its own, which lookup still finds
      once the rvalue is read. */
  lemma AssignInit(body: Body, d: MoveData, loc: Location, place: Place, rv: Rvalue)
    requires Shaped(body, d) && WellFormedStatement(body, Assign(place, rv)) && ValidLocation(body, loc)
    requires !rv.CopyForDeref?
    ensures var kind := if InitializationState(rv) == ShallowState then Shallow else Deep;
            AtMostOneInit(d, GatherStatement(body, d, loc, Assign(place, rv)), kind, loc)
    ensures var kind := if InitializationState(rv) == ShallowState then Shallow else Deep;
            InitTarget(body, place) == place && MovePathFor(body, d, loc, place).1.Ok? ==>
              GatherStatement(body, d, loc, Assign(place, rv)).inits ==
              d.inits + [Init(MovePathFor(body, d, loc, place).1.value, kind, Statement(loc))]
    ensures InitializationState(rv) == ShallowState ==> WellTypedPlace(body, Project(place, Deref))
    ensures InitializationState(rv) == ShallowState &&
            MovePathFor(body, CreateMovePath(body, d, loc, place), loc, Project(place, Deref)).1.Ok? ==>
              Find(GatherStatement(body, d, loc, Assign(place, rv)).revLookup, Project(place, Deref)) ==
              Exact(MovePathFor(body, CreateMovePath(body, d, loc, place), loc, Project(place, Deref)).1.value)
  {
    var d1 := CreateMovePath(body, d, loc, place);
    MovePathForFind(body, d, loc, place);
    var d2;
    if InitializationState(rv) == ShallowState {
      WellTypedProject(body, place, Deref);
      CreateMovePathKeepsFind(body, d1, loc, InitTarget(body, place), Project(place, Deref));
      MovePathForFind(body, d1, loc, Project(place, Deref));
      d2 := GatherInit(body, CreateMovePath(body, d1, loc, Project(place, Deref)), loc, place, Shallow);
      GatherRvalueLookup(body, d2, loc, rv);
      LookupKeptFind(d2, GatherRvalue(body, d2, loc, rv), Project(place, Deref));
    } else {
      d2 := GatherInit(body, d1, loc, place, Deep);
    }
    GatherRvalueInits(body, d2, loc, rv);
  }

  /** A local going out of storage is moved out as a whole, unless it is a
      deref temporary. */
  lemma StorageDeadMoves(body: Body, d: MoveData, loc: Location, local: Local)
    requires Shaped(body, d) && local < |body.localDecls| && ValidLocation(body, loc)
    requires local !in d.revLookup.unDerefer
    ensures var r := GatherStatement(body, d, loc, StorageDead(local));
            r.movePaths == d.movePaths && r.inits == d.inits &&
            r.moves == d.moves + (if !body.localDecls[local].isDerefTemp && d.revLookup.locals[local].Some?
                                  then [MoveOut(d.revLookup.locals[local].value, loc)] else [])
  {
    assert IterProjections(d.revLookup.unDerefer, Place(local, [])) == [];
  }

  /** Only steps with the same abstract elements matter to lookup. */
  lemma {:induction false} FindFromElems(m: map<ProjKey, nat>, result: nat, s1: seq<Step>, s2: seq<Step>)
    requires |s1| == |s2| && forall k :: 0 <= k < |s1| ==> Lift(s1[k].elem) == Lift(s2[k].elem)
    ensures FindFrom(m, result, s1) == FindFrom(m, result, s2)
    decreases |s1|
  {
    if s1 != [] {
      assert Lift(s1[0].elem) == Lift(s2[0].elem);
      if (result, Lift(s1[0].elem)) in m {
        FindFromElems(m, m[(result, Lift(s1[0].elem))], s1[1..], s2[1..]);
      }
    }
  }

  lemma SingleChainSteps(p: Place)
    ensures ChainSteps([p]) == PlaceSteps(p)
  {
    assert [p][1..] == [];
  }

  /** Steps of `a` then of `b` project by the elements of `a` then of `b`. */
  lemma ConcatStepElems(a: Place, b: Place, whole: Place)
    requires whole.projection == a.projection + b.projection
    ensures |PlaceSteps(a) + PlaceSteps(b)| == |PlaceSteps(whole)|
    ensures forall k :: 0 <= k < |PlaceSteps(whole)| ==> (PlaceSteps(a) + PlaceSteps(b))[k].elem == PlaceSteps(whole)[k].elem
  {
    var s1 := PlaceSteps(a) + PlaceSteps(b);
    forall k | 0 <= k < |PlaceSteps(whole)| ensures s1[k].elem == PlaceSteps(whole)[k].elem {
      if k < |a.projection| {
        assert s1[k] == PlaceSteps(a)[k];
      } else {
        assert s1[k] == PlaceSteps(b)[k - |a.projection|];
      }
    }
  }

  /** The steps walked for a place based on a fresh deref temporary are
      those of `reffed` followed by the place's own. */
  lemma AliasSteps(ud: map<Local, seq<Place>>, local: Local, reffed: Place, proj: seq<ProjElem>)
    requires reffed.local !in ud
    ensures var s1 := IterProjections(InsertChain(ud, local, reffed), Place(local, proj));
            var s2 := IterProjections(ud, Place(reffed.local, reffed.projection + proj));
            |s1| == |s2| && forall k :: 0 <= k < |s1| ==> s1[k].elem == s2[k].elem
  {
    var whole := Place(reffed.local, reffed.projection + proj);
    assert DerefChain(InsertChain(ud, local, reffed), local) == [reffed];
    SingleChainSteps(reffed);
    assert IterProjections(InsertChain(ud, local, reffed), Place(local, proj)) ==
           PlaceSteps(reffed) + PlaceSteps(Place(local, proj));
    assert IterProjections(ud, whole) == [] + PlaceSteps(whole);
    assert [] + PlaceSteps(whole) == PlaceSteps(whole);
    ConcatStepElems(reffed, Place(local, proj), whole);
  }

  /** After `local = CopyForDeref(reffed)`, a place based on the temporary
      is looked up as the same projections applied to `reffed`. */
  lemma AliasDerefTempFind(body: Body, d: MoveData, local: Local, reffed: Place, proj: seq<ProjElem>)
    requires Shaped(body, d) && local < |body.localDecls| && WellTypedPlace(body, reffed)
    requires reffed.local !in d.revLookup.unDerefer
    ensures var r := AliasDerefTemp(body, d, local, reffed);
            r.movePaths == d.movePaths && r.moves == d.moves && r.inits == d.inits &&
            Find(r.revLookup, Place(local, proj)) ==
            Find(d.revLookup, Place(reffed.local, reffed.projection + proj))
  {
    var ud := d.revLookup.unDerefer;
    var ud' := InsertChain(ud, local, reffed);
    var r := AliasDerefTemp(body, d, local, reffed);
    assert DerefChain(ud', local)[0] == reffed;
    assert r.revLookup.locals[local] == d.revLookup.locals[reffed.local];
    AliasSteps(ud, local, reffed, proj);
    if r.revLookup.locals[local].Some? {
      FindFromElems(d.revLookup.projections, r.revLookup.locals[local].value,
                    IterProjections(ud', Place(local, proj)),
                    IterProjections(ud, Place(reffed.local, reffed.projection + proj)));
    }
  }

  // ----- gather_terminator -----

  /** A call initialises its destination only on the normal return edge,
      a yield initialises its resume place, and no other terminator
      except inline assembly initialises anything. */
  lemma TerminatorInits(body: Body, d: MoveData, loc: Location, term: TerminatorKind)
    requires Shaped(body, d) && WellFormedTerminator(body, term) && ValidLocation(body, loc)
    ensures term.Call? && term.target.None? ==> GatherTerminator(body, d, loc, term).inits == d.inits
    ensures term.Call? && term.target.Some? ==>
              AtMostOneInit(d, GatherTerminator(body, d, loc, term), NonPanicPathOnly, loc)
    ensures term.Yield? ==> AtMostOneInit(d, GatherTerminator(body, d, loc, term), Deep, loc)
    ensures !term.Call? && !term.Yield? && !term.InlineAsm? ==> GatherTerminator(body, d, loc, term).inits == d.inits
  {
    match term
    case Assert(cond) => GatherOperandInits(body, d, loc, cond);
    case SwitchInt(discr) => GatherOperandInits(body, d, loc, discr);
    case Yield(value, resumeArg) =>
      GatherOperandInits(body, d, loc, value);
      CreateAndInitRecords(body, GatherOperand(body, d, loc, value), loc, resumeArg, Deep);
    case Call(func, args, destination, target) =>
      var d0 := GatherOperand(body, d, loc, func);
      GatherOperandInits(body, d, loc, func);
      GatherOperandsInits(body, d0, loc, args);
      if target.Some? {
        CreateAndInitRecords(body, GatherOperands(body, d0, loc, args), loc, destination, NonPanicPathOnly);
      }
    case _ =>
  }

  // ----- new_move_path -----

  /** A new child goes at the head of its parent's child list, in front of
      the children the parent already had; no other child list changes. */
  lemma NewMovePathChildList(body: Body, d: MoveData, parent: nat, place: Place)
    requires Shaped(body, d) && Links(d.movePaths) && parent < |d.movePaths|
    ensures var (d1, index) := NewMovePath(body, d, Some(parent), place);
            Links(d1.movePaths) &&
            SiblingList(d1.movePaths, d1.movePaths[parent].firstChild) ==
              [index] + SiblingList(d.movePaths, d.movePaths[parent].firstChild) &&
            forall q :: 0 <= q < |d.movePaths| && q != parent ==>
              SiblingList(d1.movePaths, d1.movePaths[q].firstChild) == SiblingList(d.movePaths, d.movePaths[q].firstChild)
  {
    var paths := d.movePaths;
    var paths' := PushPath(paths, Some(parent), place);
    PushPathLinks(paths, Some(parent), place);
    SiblingListFrame(paths, paths', paths[parent].firstChild);
    assert paths'[|paths|].nextSibling == paths[parent].firstChild;
    forall q | 0 <= q < |paths| && q != parent
      ensures SiblingList(paths', paths'[q].firstChild) == SiblingList(paths, paths[q].firstChild)
    {
      SiblingListFrame(paths, paths', paths[q].firstChild);
    }
  }

  // ----- MoveDataBuilder::new -----

  /** Local `l` has a root path of its own exactly when it is not a deref
      temporary. */
  predicate HasOwnRoot(body: Body, r: MoveData, l: Local)
    requires l < |r.revLookup.locals| && l < |body.localDecls|
  {
    (r.revLookup.locals[l].None? <==> body.localDecls[l].isDerefTemp) &&
    (r.revLookup.locals[l].Some? ==>
       r.revLookup.locals[l].value < |r.movePaths| &&
       r.movePaths[r.revLookup.locals[l].value].parent.None? &&
       r.movePaths[r.revLookup.locals[l].value].place == Place(l, []))
  }

  /** Building the roots from local `i` on keeps the nodes there are, and
      adds only parentless nodes. */
  lemma {:induction false} RootsFromNodes(body: Body, d: MoveData, i: nat)
    requires Shaped(body, d) && i <= |body.localDecls|
    ensures var r := RootsFrom(body, d, i);
            |d.movePaths| <= |r.movePaths| &&
            (forall j :: 0 <= j < |d.movePaths| ==>
               r.movePaths[j].parent == d.movePaths[j].parent && r.movePaths[j].place == d.movePaths[j].place) &&
            (forall j :: |d.movePaths| <= j < |r.movePaths| ==> r.movePaths[j].parent.None?)
    decreases |body.localDecls| - i
  {
    if i < |body.localDecls| {
      if body.localDecls[i].isDerefTemp {
        RootsFromNodes(body, d, i + 1);
      } else {
        var (d1, root) := NewMovePath(body, d, None, Place(i, []));
        var d2 := d1.(revLookup := d1.revLookup.(locals := d1.revLookup.locals[i := Some(root)]));
        assert forall j :: 0 <= j < |d.movePaths| ==> d2.movePaths[j] == d.movePaths[j];
        assert |d2.movePaths| == |d.movePaths| + 1 && d2.movePaths[root].parent.None?;
        RootsFromNodes(body, d2, i + 1);
      }
    }
  }

  /** ... and the lookups of the locals before `i`, and creates no move, init
      or memo entry. */
  lemma {:induction false} RootsFromKeeps(body: Body, d: MoveData, i: nat)
    requires Shaped(body, d) && i <= |body.localDecls|
    ensures var r := RootsFrom(body, d, i);
            (forall l :: 0 <= l < i ==> r.revLookup.locals[l] == d.revLookup.locals[l]) &&
            r.moves == d.moves && r.inits == d.inits && r.revLookup.projections == d.revLookup.projections
    decreases |body.localDecls| - i
  {
    if i < |body.localDecls| {
      if body.localDecls[i].isDerefTemp {
        RootsFromKeeps(body, d, i + 1);
      } else {
        var (d1, root) := NewMovePath(body, d, None, Place(i, []));
        var d2 := d1.(revLookup := d1.revLookup.(locals := d1.revLookup.locals[i := Some(root)]));
        assert d2.moves == d.moves && d2.inits == d.inits && d2.revLookup.projections == d.revLookup.projections;
        RootsFromKeeps(body, d2, i + 1);
      }
    }
  }

  /** ... and gives each of those locals its own root exactly when it is not
      a deref temporary. */
  lemma {:induction false} RootsFromRoots(body: Body, d: MoveData, i: nat)
    requires Shaped(body, d) && i <= |body.localDecls|
    requires forall l :: i <= l < |body.localDecls| ==> d.revLookup.locals[l].None?
    ensures var r := RootsFrom(body, d, i);
            forall l :: i <= l < |body.localDecls| ==> HasOwnRoot(body, r, l)
    decreases |body.localDecls| - i
  {
    if i < |body.localDecls| {
      if body.localDecls[i].isDerefTemp {
        RootsFromRoots(body, d, i + 1);
        RootsFromKeeps(body, d, i + 1);
        RootsFromNodes(body, d, i + 1);
      } else {
        var (d1, root) := NewMovePath(body, d, None, Place(i, []));
        var d2 := d1.(revLookup := d1.revLookup.(locals := d1.revLookup.locals[i := Some(root)]));
        assert root == |d.movePaths| && d2.movePaths[root].parent.None? && d2.movePaths[root].place == Place(i, []);
        RootsFromRoots(body, d2, i + 1);
        RootsFromKeeps(body, d2, i + 1);
        RootsFromNodes(body, d2, i + 1);
      }
    }
  }

  /** The builder starts with one parentless root per local that is not a
      deref temporary, and nothing else. */
  lemma InitialDataRoots(body: Body)
    ensures var d := InitialData(body);
            (forall l :: 0 <= l < |body.localDecls| ==> HasOwnRoot(body, d, l)) &&
            (forall j :: 0 <= j < |d.movePaths| ==> d.movePaths[j].parent.None?) &&
            d.moves == [] && d.inits == [] && d.revLookup.projections == map[]
  {
    RootsFromNodes(body, EmptyData(body), 0);
    RootsFromKeeps(body, EmptyData(body), 0);
    RootsFromRoots(body, EmptyData(body), 0);
  }

  // ----- gather_args -----

  /** `x` is the deep init of one of the arguments `arg..argCount`, of the
      root path that argument has in `d`. */
  predicate IsArgInit(body: Body, d: MoveData, x: Init, arg: nat) {
    x.kind == Deep && x.location.Argument? &&
    arg <= x.location.arg <= body.argCount && x.location.arg < |d.revLookup.locals| &&
    d.revLookup.locals[x.location.arg] == Some(x.path)
  }

  function ArgOf(x: Init): nat {
    if x.location.Argument? then x.location.arg else 0
  }

  lemma GatherArgStep(body: Body, d: MoveData, arg: Local)
    requires Shaped(body, d) && arg < |body.localDecls|
    ensures var d1 := GatherArg(body, d, arg);
            d1.movePaths == d.movePaths && d1.moves == d.moves && d1.revLookup == d.revLookup &&
            d1.inits == d.inits + (if d.revLookup.locals[arg].Some?
                                   then [Init(d.revLookup.locals[arg].value, Deep, Argument(arg))] else [])
  {
  }

  /** gather_args only appends inits. */
  lemma {:induction false} GatherArgsFromKeeps(body: Body, d: MoveData, arg: nat)
    requires Shaped(body, d) && body.argCount < |body.localDecls|
    ensures var r := GatherArgsFrom(body, d, arg);
            r.movePaths == d.movePaths && r.moves == d.moves && r.revLookup == d.revLookup &&
            |d.inits| <= |r.inits| && r.inits[..|d.inits|] == d.inits
    decreases body.argCount + 1 - arg
  {
    if arg <= body.argCount {
      var d1 := GatherArg(body, d, arg);
      var r := GatherArgsFrom(body, d1, arg + 1);
      GatherArgsFromKeeps(body, d1, arg + 1);
      GatherArgStep(body, d, arg);
      assert r.inits[..|d1.inits|][..|d.inits|] == r.inits[..|d.inits|];
    }
  }

  /** Each init gather_args appends from `arg` on is a deep init of the root
      path of one of the arguments `arg..argCount`. */
  lemma {:induction false} GatherArgsFromInits(body: Body, d: MoveData, arg: nat)
    requires Shaped(body, d) && body.argCount < |body.localDecls|
    ensures var r := GatherArgsFrom(body, d, arg);
            |d.inits| <= |r.inits| &&
            forall i :: |d.inits| <= i < |r.inits| ==> IsArgInit(body, d, r.inits[i], arg)
    decreases body.argCount + 1 - arg
  {
    GatherArgsFromKeeps(body, d, arg);
    if arg <= body.argCount {
      var d1 := GatherArg(body, d, arg);
      var r := GatherArgsFrom(body, d1, arg + 1);
      GatherArgsFromInits(body, d1, arg + 1);
      GatherArgsFromKeeps(body, d1, arg + 1);
      GatherArgStep(body, d, arg);
      if d.revLookup.locals[arg].Some? {
        assert r.inits[|d.inits|] == Init(d.revLookup.locals[arg].value, Deep, Argument(arg)) by {
          assert r.inits[..|d1.inits|][|d.inits|] == r.inits[|d.inits|];
        }
      }
    }
  }

  /** Every tracked argument from `arg` on gets its init. */
  lemma {:induction false} GatherArgsFromCovers(body: Body, d: MoveData, arg: nat)
    requires Shaped(body, d) && body.argCount < |body.localDecls|
    ensures var r := GatherArgsFrom(body, d, arg);
            |d.inits| <= |r.inits| &&
            forall a :: arg <= a <= body.argCount && d.revLookup.locals[a].Some? ==>
              exists i :: |d.inits| <= i < |r.inits| && r.inits[i] == Init(d.revLookup.locals[a].value, Deep, Argument(a))
    decreases body.argCount + 1 - arg
  {
    GatherArgsFromKeeps(body, d, arg);
    if arg <= body.argCount {
      var d1 := GatherArg(body, d, arg);
      var r := GatherArgsFrom(body, d1, arg + 1);
      GatherArgsFromCovers(body, d1, arg + 1);
      GatherArgsFromKeeps(body, d1, arg + 1);
      GatherArgStep(body, d, arg);
      if d.revLookup.locals[arg].Some? {
        assert r.inits[|d.inits|] == Init(d.revLookup.locals[arg].value, Deep, Argument(arg)) by {
          assert r.inits[..|d1.inits|][|d.inits|] == r.inits[|d.inits|];
        }
      }
    }
  }

  /** The inits gather_args appends are in strictly increasing argument order. */
  lemma {:induction false} GatherArgsFromOrdered(body: Body, d: MoveData, arg: nat)
    requires Shaped(body, d) && body.argCount < |body.localDecls|
    ensures var r := GatherArgsFrom(body, d, arg);
            |d.inits| <= |r.inits| &&
            forall i, j :: |d.inits| <= i < j < |r.inits| ==> ArgOf(r.inits[i]) < ArgOf(r.inits[j])
    decreases body.argCount + 1 - arg
  {
    GatherArgsFromKeeps(body, d, arg);
    if arg <= body.argCount {
      var d1 := GatherArg(body, d, arg);
      var r := GatherArgsFrom(body, d1, arg + 1);
      GatherArgsFromOrdered(body, d1, arg + 1);
      GatherArgsFromInits(body, d1, arg + 1);
      GatherArgsFromKeeps(body, d1, arg + 1);
      GatherArgStep(body, d, arg);
      forall i, j | |d.inits| <= i < j < |r.inits|
        ensures ArgOf(r.inits[i]) < ArgOf(r.inits[j])
      {
        if i < |d1.inits| {
          assert r.inits[i] == d1.inits[i] by {
            assert r.inits[..|d1.inits|][i] == r.inits[i];
          }
          assert IsArgInit(body, d1, r.inits[j], arg + 1);
        }
      }
    }
  }
}
