/**
 * Every builder operation keeps ValidData — the forest stays a forest with
 * exact child lists, the memo map stays a map from (parent, projection) to
 * distinct children, and the index tables keep listing exactly the moves
 * and inits of each path and location — and only ever adds to the data.
 */
module GatherInvariant {
  import opened Wrappers
  import opened Mir
  import opened MovePaths
  import opened MovePathLemmas
  import opened Legality
  import opened Gather

  /** Nodes keep their parent and place, memo entries are kept, and moves
      and inits are only appended. */
  predicate Extends(d: MoveData, d': MoveData) {
    |d.movePaths| <= |d'.movePaths| &&
    (forall i :: 0 <= i < |d.movePaths| ==>
       d'.movePaths[i].parent == d.movePaths[i].parent && d'.movePaths[i].place == d.movePaths[i].place) &&
    (forall k :: k in d.revLookup.projections ==>
       k in d'.revLookup.projections && d'.revLookup.projections[k] == d.revLookup.projections[k]) &&
    d.moves <= d'.moves && d.inits <= d'.inits
  }

  lemma ExtendsTrans(d1: MoveData, d2: MoveData, d3: MoveData)
    requires Extends(d1, d2) && Extends(d2, d3)
    ensures Extends(d1, d3)
  {
  }

  // ----- new_move_path / add_move_path -----

  lemma NewMovePathValid(body: Body, d: MoveData, parent: Option<nat>, place: Place)
    requires ValidData(body, d)
    requires parent.Some? ==> parent.value < |d.movePaths|
    ensures ValidData(body, NewMovePath(body, d, parent, place).0)
    ensures Extends(d, NewMovePath(body, d, parent, place).0)
  {
    var n := |d.movePaths|;
    var d' := NewMovePath(body, d, parent, place).0;
    PushPathForest(d.movePaths, parent, place);
    PushPathLinks(d.movePaths, parent, place);
    assert ValidLookup(d'.revLookup, d'.movePaths);
    forall p | 0 <= p < n + 1
      ensures d'.pathMap[p] == MovesOf(d'.moves, p) && d'.initPathMap[p] == InitsOf(d'.inits, p)
    {
      if p == n {
        MovesOfUnused(d.moves, n);
        InitsOfUnused(d.inits, n);
      } else {
        assert d'.pathMap[p] == d.pathMap[p] && d'.initPathMap[p] == d.initPathMap[p];
      }
    }
    assert Indexed(d');
  }

  /** Memoising a fresh child of `key.0` under an unused key keeps the lookup valid. */
  lemma MemoInsertLookup(lookup: MovePathLookup, paths: seq<MovePath>, key: ProjKey, index: nat)
    requires ValidLookup(lookup, paths) && key !in lookup.projections
    requires key.0 < |paths| && index < |paths| && paths[index].parent == Some(key.0)
    requires forall k :: k in lookup.projections ==> lookup.projections[k] != index
    ensures ValidLookup(lookup.(projections := lookup.projections[key := index]), paths)
  {
  }

  lemma AddMovePathValid(body: Body, d: MoveData, base: nat, elem: ProjElem, place: Place)
    requires ValidData(body, d) && base < |d.movePaths|
    ensures ValidData(body, AddMovePath(body, d, base, elem, place).0)
    ensures Extends(d, AddMovePath(body, d, base, elem, place).0)
  {
    var key := (base, Lift(elem));
    if key !in d.revLookup.projections {
      var (d1, index) := NewMovePath(body, d, Some(base), place);
      NewMovePathValid(body, d, Some(base), place);
      MemoInsertLookup(d1.revLookup, d1.movePaths, key, index);
    }
  }

  // ----- move_path_for / create_move_path -----

  lemma {:induction false} WalkValid(body: Body, d: MoveData, loc: Location, base: nat,
                                     unionPath: Option<nat>, steps: seq<Step>)
    requires ValidData(body, d) && base < |d.movePaths|
    requires unionPath.Some? ==> unionPath.value < |d.movePaths|
    requires StepsTyped(body, steps)
    ensures ValidData(body, Walk(body, d, loc, base, unionPath, steps).0)
    ensures Extends(d, Walk(body, d, loc, base, unionPath, steps).0)
    decreases |steps|
  {
    if steps != [] {
      var step := steps[0];
      assert StepsTyped(body, steps[1..]) by {
        forall k | 0 <= k < |steps[1..]| ensures steps[1..][k] == steps[k + 1] { }
      }
      match Classify(step, TyOf(body, step.base))
      case Illegal(_) =>
      case Legal(entersUnion) =>
        var unionPath' := if unionPath.None? && entersUnion then Some(base) else unionPath;
        if unionPath'.None? {
          var (d1, child) := AddMovePath(body, d, base, step.elem, Project(step.base, step.elem));
          AddMovePathValid(body, d, base, step.elem, Project(step.base, step.elem));
          WalkValid(body, d1, loc, child, None, steps[1..]);
          ExtendsTrans(d, d1, Walk(body, d1, loc, child, None, steps[1..]).0);
        } else {
          WalkValid(body, d, loc, base, unionPath', steps[1..]);
        }
    }
  }

  lemma MovePathForValid(body: Body, d: MoveData, loc: Location, place: Place)
    requires ValidData(body, d) && WellTypedPlace(body, place)
    ensures ValidData(body, MovePathFor(body, d, loc, place).0)
    ensures Extends(d, MovePathFor(body, d, loc, place).0)
  {
    if d.revLookup.locals[place.local].Some? {
      IterProjectionsTyped(body, d.revLookup.unDerefer, place);
      WalkValid(body, d, loc, d.revLookup.locals[place.local].value, None,
                IterProjections(d.revLookup.unDerefer, place));
    }
  }

  lemma CreateMovePathValid(body: Body, d: MoveData, loc: Location, place: Place)
    requires ValidData(body, d) && WellTypedPlace(body, place)
    ensures ValidData(body, CreateMovePath(body, d, loc, place))
    ensures Extends(d, CreateMovePath(body, d, loc, place))
  {
    MovePathForValid(body, d, loc, place);
  }

  // ----- record_move / gather_init -----

  lemma RecordMoveValid(body: Body, d: MoveData, loc: Location, path: nat)
    requires ValidData(body, d) && path < |d.movePaths| && ValidLocation(body, loc)
    ensures ValidData(body, RecordMove(body, d, loc, path))
    ensures Extends(d, RecordMove(body, d, loc, path))
  {
    var d' := RecordMove(body, d, loc, path);
    MovesAppend(d.moves, MoveOut(path, loc));
    forall p | 0 <= p < |d'.pathMap| ensures d'.pathMap[p] == MovesOf(d'.moves, p) {
    }
    forall b, s | 0 <= b < |d'.locMap| && 0 <= s < |d'.locMap[b]|
      ensures d'.locMap[b][s] == MovesAt(d'.moves, Location(b, s))
    {
    }
    assert Indexed(d');
  }

  lemma PushInitValid(body: Body, d: MoveData, path: nat, kind: InitKind, loc: Location)
    requires ValidData(body, d) && path < |d.movePaths| && ValidLocation(body, loc)
    ensures var b, s := loc.block, loc.statementIndex;
            var d' := d.(inits := d.inits + [Init(path, kind, Statement(loc))],
                         initPathMap := d.initPathMap[path := d.initPathMap[path] + [|d.inits|]],
                         initLocMap := d.initLocMap[b := d.initLocMap[b][s := d.initLocMap[b][s] + [|d.inits|]]]);
            ValidData(body, d') && Extends(d, d')
  {
    var b, s := loc.block, loc.statementIndex;
    var d' := d.(inits := d.inits + [Init(path, kind, Statement(loc))],
                 initPathMap := d.initPathMap[path := d.initPathMap[path] + [|d.inits|]],
                 initLocMap := d.initLocMap[b := d.initLocMap[b][s := d.initLocMap[b][s] + [|d.inits|]]]);
    InitsAppend(d.inits, Init(path, kind, Statement(loc)));
    forall p | 0 <= p < |d'.initPathMap| ensures d'.initPathMap[p] == InitsOf(d'.inits, p) {
    }
    forall b, s | 0 <= b < |d'.initLocMap| && 0 <= s < |d'.initLocMap[b]|
      ensures d'.initLocMap[b][s] == InitsAt(d'.inits, Location(b, s))
    {
    }
    assert Indexed(d');
  }

  lemma GatherInitValid(body: Body, d: MoveData, loc: Location, place: Place, kind: InitKind)
    requires ValidData(body, d) && WellTypedPlace(body, place) && ValidLocation(body, loc)
    ensures ValidData(body, GatherInit(body, d, loc, place, kind))
    ensures Extends(d, GatherInit(body, d, loc, place, kind))
  {
    var found := Find(d.revLookup, InitTarget(body, place));
    FindExactBound(body, d, InitTarget(body, place));
    if found.Exact? {
      PushInitValid(body, d, found.path, kind, loc);
    }
  }

  lemma CreateAndInitValid(body: Body, d: MoveData, loc: Location, place: Place, kind: InitKind)
    requires ValidData(body, d) && WellTypedPlace(body, place) && ValidLocation(body, loc)
    ensures ValidData(body, CreateAndInit(body, d, loc, place, kind))
    ensures Extends(d, CreateAndInit(body, d, loc, place, kind))
  {
    var d1 := CreateMovePath(body, d, loc, place);
    CreateMovePathValid(body, d, loc, place);
    GatherInitValid(body, d1, loc, place, kind);
    ExtendsTrans(d, d1, GatherInit(body, d1, loc, place, kind));
  }

  // ----- gather_move and the operand walkers -----

  lemma {:induction false} SplitSubsliceValid(body: Body, d: MoveData, loc: Location, basePath: nat,
                                              basePlace: Place, offset: nat, to: nat, len: nat)
    requires ValidData(body, d) && basePath < |d.movePaths| && ValidLocation(body, loc)
    ensures ValidData(body, SplitSubslice(body, d, loc, basePath, basePlace, offset, to, len))
    ensures Extends(d, SplitSubslice(body, d, loc, basePath, basePlace, offset, to, len))
    decreases if to > offset then to - offset else 0
  {
    if offset < to {
      var elem := ConstantIndex(offset, len, false);
      var (d1, path) := AddMovePath(body, d, basePath, elem, Project(basePlace, elem));
      AddMovePathValid(body, d, basePath, elem, Project(basePlace, elem));
      var d2 := RecordMove(body, d1, loc, path);
      RecordMoveValid(body, d1, loc, path);
      SplitSubsliceValid(body, d2, loc, basePath, basePlace, offset + 1, to, len);
      ExtendsTrans(d, d1, d2);
      ExtendsTrans(d, d2, SplitSubslice(body, d2, loc, basePath, basePlace, offset + 1, to, len));
    }
  }

  lemma GatherMoveValid(body: Body, d: MoveData, loc: Location, place: Place)
    requires ValidData(body, d) && MovablePlace(body, place) && ValidLocation(body, loc)
    ensures ValidData(body, GatherMove(body, d, loc, place))
    ensures Extends(d, GatherMove(body, d, loc, place))
  {
    var d' := GatherMove(body, d, loc, place);
    if EndsInSubslice(place) {
      var n := |place.projection| - 1;
      var basePlace := Prefix(place, n);
      WellTypedPrefix(body, place, n);
      var (d1, res) := MovePathFor(body, d, loc, basePlace);
      MovePathForValid(body, d, loc, basePlace);
      if res.Ok? {
        var from, to, len := place.projection[n].from, place.projection[n].to, TyOf(body, basePlace).len;
        assert d' == SplitSubslice(body, d1, loc, res.value, basePlace, from, to, len);
        SplitSubsliceValid(body, d1, loc, res.value, basePlace, from, to, len);
        ExtendsTrans(d, d1, d');
      } else if res.error.UnionMove? {
        assert d' == RecordMove(body, d1, loc, res.error.path);
        RecordMoveValid(body, d1, loc, res.error.path);
        ExtendsTrans(d, d1, d');
      }
    } else {
      var (d1, res) := MovePathFor(body, d, loc, place);
      MovePathForValid(body, d, loc, place);
      if res.Ok? || res.error.UnionMove? {
        var path := if res.Ok? then res.value else res.error.path;
        assert d' == RecordMove(body, d1, loc, path);
        RecordMoveValid(body, d1, loc, path);
        ExtendsTrans(d, d1, d');
      }
    }
  }

  lemma GatherOperandValid(body: Body, d: MoveData, loc: Location, op: Operand)
    requires ValidData(body, d) && WellFormedOperand(body, op) && ValidLocation(body, loc)
    ensures ValidData(body, GatherOperand(body, d, loc, op))
    ensures Extends(d, GatherOperand(body, d, loc, op))
  {
    if op.Move? {
      GatherMoveValid(body, d, loc, op.place);
    }
  }

  lemma {:induction false} GatherOperandsValid(body: Body, d: MoveData, loc: Location, ops: seq<Operand>)
    requires ValidData(body, d) && WellFormedOperands(body, ops) && ValidLocation(body, loc)
    ensures ValidData(body, GatherOperands(body, d, loc, ops))
    ensures Extends(d, GatherOperands(body, d, loc, ops))
    decreases |ops|
  {
    if ops != [] {
      var d1 := GatherOperand(body, d, loc, ops[0]);
      GatherOperandValid(body, d, loc, ops[0]);
      assert WellFormedOperands(body, ops[1..]) by {
        forall i | 0 <= i < |ops[1..]| ensures ops[1..][i] == ops[i + 1] { }
      }
      GatherOperandsValid(body, d1, loc, ops[1..]);
      ExtendsTrans(d, d1, GatherOperands(body, d1, loc, ops[1..]));
    }
  }

  lemma GatherRvalueValid(body: Body, d: MoveData, loc: Location, rv: Rvalue)
    requires ValidData(body, d) && WellFormedRvalue(body, rv) && ValidLocation(body, loc)
    ensures ValidData(body, GatherRvalue(body, d, loc, rv))
    ensures Extends(d, GatherRvalue(body, d, loc, rv))
  {
    match rv
    case Use(op) => GatherOperandValid(body, d, loc, op);
    case Repeat(op, _) => GatherOperandValid(body, d, loc, op);
    case Cast(op) => GatherOperandValid(body, d, loc, op);
    case ShallowInitBox(op) => GatherOperandValid(body, d, loc, op);
    case UnaryOp(op) => GatherOperandValid(body, d, loc, op);
    case BinaryOp(lhs, rhs) =>
      GatherOperandValid(body, d, loc, lhs);
      GatherOperandValid(body, GatherOperand(body, d, loc, lhs), loc, rhs);
      ExtendsTrans(d, GatherOperand(body, d, loc, lhs), GatherRvalue(body, d, loc, rv));
    case CheckedBinaryOp(lhs, rhs) =>
      GatherOperandValid(body, d, loc, lhs);
      GatherOperandValid(body, GatherOperand(body, d, loc, lhs), loc, rhs);
      ExtendsTrans(d, GatherOperand(body, d, loc, lhs), GatherRvalue(body, d, loc, rv));
    case Aggregate(ops) => GatherOperandsValid(body, d, loc, ops);
    case _ =>
  }

  // ----- gather_statement -----

  lemma AliasDerefTempValid(body: Body, d: MoveData, local: Local, reffed: Place)
    requires ValidData(body, d) && local < |body.localDecls| && WellTypedPlace(body, reffed)
    ensures ValidData(body, AliasDerefTemp(body, d, local, reffed))
    ensures Extends(d, AliasDerefTemp(body, d, local, reffed))
  {
    var d' := AliasDerefTemp(body, d, local, reffed);
    assert ValidLookup(d'.revLookup, d'.movePaths);
  }

  lemma GatherStatementValid(body: Body, d: MoveData, loc: Location, stmt: StatementKind)
    requires ValidData(body, d) && WellFormedStatement(body, stmt) && ValidLocation(body, loc)
    ensures ValidData(body, GatherStatement(body, d, loc, stmt))
    ensures Extends(d, GatherStatement(body, d, loc, stmt))
  {
    var d' := GatherStatement(body, d, loc, stmt);
    match stmt
    case Assign(place, rv) =>
      if rv.CopyForDeref? {
        AliasDerefTempValid(body, d, place.local, rv.reffed);
      } else {
        var d1 := CreateMovePath(body, d, loc, place);
        CreateMovePathValid(body, d, loc, place);
        var d2;
        if InitializationState(rv) == ShallowState {
          WellTypedProject(body, place, Deref);
          var dInterior := CreateMovePath(body, d1, loc, Project(place, Deref));
          CreateMovePathValid(body, d1, loc, Project(place, Deref));
          d2 := GatherInit(body, dInterior, loc, place, Shallow);
          GatherInitValid(body, dInterior, loc, place, Shallow);
          ExtendsTrans(d1, dInterior, d2);
        } else {
          d2 := GatherInit(body, d1, loc, place, Deep);
          GatherInitValid(body, d1, loc, place, Deep);
        }
        GatherRvalueValid(body, d2, loc, rv);
        ExtendsTrans(d, d1, d2);
        ExtendsTrans(d, d2, d');
      }
    case FakeRead(place) => CreateMovePathValid(body, d, loc, place);
    case StorageDead(local) =>
      if !body.localDecls[local].isDerefTemp {
        GatherMoveValid(body, d, loc, Place(local, []));
      }
    case _ =>
  }

  // ----- gather_terminator -----

  lemma GatherAsmOperandValid(body: Body, d: MoveData, loc: Location, op: InlineAsmOperand)
    requires ValidData(body, d) && WellFormedAsmOperand(body, op) && ValidLocation(body, loc)
    ensures ValidData(body, GatherAsmOperand(body, d, loc, op))
    ensures Extends(d, GatherAsmOperand(body, d, loc, op))
  {
    match op
    case In(value) => GatherOperandValid(body, d, loc, value);
    case Out(place) =>
      if place.Some? {
        CreateAndInitValid(body, d, loc, place.value, Deep);
      }
    case InOut(inValue, outPlace) =>
      var d1 := GatherOperand(body, d, loc, inValue);
      GatherOperandValid(body, d, loc, inValue);
      if outPlace.Some? {
        CreateAndInitValid(body, d1, loc, outPlace.value, Deep);
        ExtendsTrans(d, d1, GatherAsmOperand(body, d, loc, op));
      }
    case _ =>
  }

  lemma {:induction false} GatherAsmOperandsValid(body: Body, d: MoveData, loc: Location, ops: seq<InlineAsmOperand>)
    requires ValidData(body, d) && ValidLocation(body, loc)
    requires forall i :: 0 <= i < |ops| ==> WellFormedAsmOperand(body, ops[i])
    ensures ValidData(body, GatherAsmOperands(body, d, loc, ops))
    ensures Extends(d, GatherAsmOperands(body, d, loc, ops))
    decreases |ops|
  {
    if ops != [] {
      var d1 := GatherAsmOperand(body, d, loc, ops[0]);
      GatherAsmOperandValid(body, d, loc, ops[0]);
      assert forall i :: 0 <= i < |ops[1..]| ==> ops[1..][i] == ops[i + 1];
      GatherAsmOperandsValid(body, d1, loc, ops[1..]);
      ExtendsTrans(d, d1, GatherAsmOperands(body, d1, loc, ops[1..]));
    }
  }

  lemma GatherTerminatorValid(body: Body, d: MoveData, loc: Location, term: TerminatorKind)
    requires ValidData(body, d) && WellFormedTerminator(body, term) && ValidLocation(body, loc)
    ensures ValidData(body, GatherTerminator(body, d, loc, term))
    ensures Extends(d, GatherTerminator(body, d, loc, term))
  {
    match term
    case Assert(cond) => GatherOperandValid(body, d, loc, cond);
    case SwitchInt(discr) => GatherOperandValid(body, d, loc, discr);
    case Yield(value, resumeArg) =>
      var d1 := GatherOperand(body, d, loc, value);
      GatherOperandValid(body, d, loc, value);
      CreateAndInitValid(body, d1, loc, resumeArg, Deep);
      ExtendsTrans(d, d1, GatherTerminator(body, d, loc, term));
    case Call(func, args, destination, target) =>
      var d0 := GatherOperand(body, d, loc, func);
      GatherOperandValid(body, d, loc, func);
      var d1 := GatherOperands(body, d0, loc, args);
      GatherOperandsValid(body, d0, loc, args);
      ExtendsTrans(d, d0, d1);
      if target.Some? {
        CreateAndInitValid(body, d1, loc, destination, NonPanicPathOnly);
        ExtendsTrans(d, d1, GatherTerminator(body, d, loc, term));
      }
    case InlineAsm(ops) => GatherAsmOperandsValid(body, d, loc, ops);
    case _ =>
  }

  // ----- MoveDataBuilder::new and gather_args -----

  lemma EmptyDataValid(body: Body)
    ensures ValidData(body, EmptyData(body))
  {
  }

  /** Giving local `i` a new root keeps the invariant. */
  lemma SetRootValid(body: Body, d: MoveData, i: nat)
    requires ValidData(body, d) && i < |body.localDecls|
    ensures var (d1, root) := NewMovePath(body, d, None, Place(i, []));
            var d2 := d1.(revLookup := d1.revLookup.(locals := d1.revLookup.locals[i := Some(root)]));
            ValidData(body, d2) && Extends(d, d2)
  {
    var (d1, root) := NewMovePath(body, d, None, Place(i, []));
    NewMovePathValid(body, d, None, Place(i, []));
    var d2 := d1.(revLookup := d1.revLookup.(locals := d1.revLookup.locals[i := Some(root)]));
    assert ValidLookup(d2.revLookup, d2.movePaths);
  }

  lemma GatherArgValid(body: Body, d: MoveData, arg: Local)
    requires ValidData(body, d) && arg < |body.localDecls|
    ensures ValidData(body, GatherArg(body, d, arg))
    ensures Extends(d, GatherArg(body, d, arg))
  {
    if d.revLookup.locals[arg].Some? {
      var d' := GatherArg(body, d, arg);
      InitsAppend(d.inits, Init(d.revLookup.locals[arg].value, Deep, Argument(arg)));
      forall p | 0 <= p < |d'.initPathMap| ensures d'.initPathMap[p] == InitsOf(d'.inits, p) {
      }
      assert Indexed(d');
    }
  }
}
