/**
 * The move-path builder as the source runs it: one object whose data is
 * updated in place by each operation. Every method is proved to leave
 * exactly the state the matching function of Gather describes, and to
 * keep the invariant ValidData.
 */
module Builder {
  import opened Wrappers
  import opened Mir
  import opened MovePaths
  import opened MovePathLemmas
  import opened Legality
  import Gather
  import opened GatherInvariant
  import opened GatherLemmas

  class MoveDataBuilder {
    const body: Body
    var data: MoveData

    ghost predicate Valid()
      reads this
    {
      ValidData(body, data)
    }

    /** MoveDataBuilder::new: a root path for every local that is not a
        deref temporary, in local order. */
    constructor (body: Body)
      ensures this.body == body && Valid()
      ensures data == Gather.InitialData(body)
    {
      this.body := body;
      data := Gather.EmptyData(body);
      new;
      EmptyDataValid(body);
      var i := 0;
      while i < |body.localDecls|
        invariant i <= |body.localDecls| && this.body == body
        invariant Valid()
        invariant Gather.RootsFrom(body, data, i) == Gather.InitialData(body)
        decreases |body.localDecls| - i
      {
        if !body.localDecls[i].isDerefTemp {
          ghost var before := data;
          var root := NewMovePath(None, Place(i, []));
          data := data.(revLookup := data.revLookup.(locals := data.revLookup.locals[i := Some(root)]));
          SetRootValid(body, before, i);
          assert Gather.RootsFrom(body, before, i) == Gather.RootsFrom(body, data, i + 1);
        }
        i := i + 1;
      }
    }

    /** new_move_path: push the node, thread it at the head of its parent's
        child list, and give it empty move and init lists. */
    method NewMovePath(parent: Option<nat>, place: Place) returns (index: nat)
      requires Valid() && (parent.Some? ==> parent.value < |data.movePaths|)
      modifies this
      ensures Valid() && (data, index) == Gather.NewMovePath(body, old(data), parent, place)
    {
      index := |data.movePaths|;
      var paths := data.movePaths + [MovePath(None, None, parent, place)];
      if parent.Some? {
        var p := parent.value;
        var nextSibling := paths[p].firstChild;
        paths := paths[p := paths[p].(firstChild := Some(index))];
        paths := paths[index := paths[index].(nextSibling := nextSibling)];
      }
      assert paths == PushPath(data.movePaths, parent, place);
      data := data.(movePaths := paths, pathMap := data.pathMap + [[]], initPathMap := data.initPathMap + [[]]);
      NewMovePathValid(body, old(data), parent, place);
    }

    /** add_move_path: the memoised child of `base` under `elem`, created
        and memoised on first use. */
    method AddMovePath(base: nat, elem: ProjElem, place: Place) returns (index: nat)
      requires Valid() && base < |data.movePaths|
      modifies this
      ensures Valid() && (data, index) == Gather.AddMovePath(body, old(data), base, elem, place)
    {
      var key := (base, Lift(elem));
      if key in data.revLookup.projections {
        index := data.revLookup.projections[key];
      } else {
        index := NewMovePath(Some(base), place);
        data := data.(revLookup := data.revLookup.(projections := data.revLookup.projections[key := index]));
        AddMovePathValid(body, old(data), base, elem, place);
      }
    }

    /** move_path_for: walk the projections of `place` (behind any deref
        temporaries), creating one path per legal step until a union is
        entered. */
    method MovePathFor(loc: Location, place: Place) returns (res: Result<nat, MoveError>)
      requires Valid() && WellTypedPlace(body, place)
      modifies this
      ensures Valid() && (data, res) == Gather.MovePathFor(body, old(data), loc, place)
    {
      if data.revLookup.locals[place.local].None? {
        return Err(UntrackedLocal);
      }
      var base: nat := data.revLookup.locals[place.local].value;
      var unionPath: Option<nat> := None;
      var steps := IterProjections(data.revLookup.unDerefer, place);
      IterProjectionsTyped(body, data.revLookup.unDerefer, place);
      while steps != []
        invariant Valid()
        invariant base < |data.movePaths| && (unionPath.Some? ==> unionPath.value < |data.movePaths|)
        invariant StepsTyped(body, steps)
        invariant Gather.Walk(body, data, loc, base, unionPath, steps) == Gather.MovePathFor(body, old(data), loc, place)
        decreases |steps|
      {
        var step := steps[0];
        match Classify(step, TyOf(body, step.base)) {
          case Illegal(kind) =>
            return Err(IllegalMove(loc, kind));
          case Legal(entersUnion) =>
            ghost var prevBase, prevUnion := base, unionPath;
            if unionPath.None? && entersUnion {
              unionPath := Some(base);
            }
            WalkNext(body, data, loc, prevBase, prevUnion, steps, unionPath);
            if unionPath.None? {
              base := AddMovePath(base, step.elem, Project(step.base, step.elem));
            }
        }
        steps := steps[1..];
      }
      if unionPath.Some? {
        res := Err(UnionMove(unionPath.value));
      } else {
        res := Ok(base);
      }
    }

    /** create_move_path: move_path_for with its error dropped. */
    method CreateMovePath(loc: Location, place: Place)
      requires Valid() && WellTypedPlace(body, place)
      modifies this
      ensures Valid() && data == Gather.CreateMovePath(body, old(data), loc, place)
    {
      var _ := MovePathFor(loc, place);
    }

    /** record_move: a new move, listed under its path and its location. */
    method RecordMove(loc: Location, path: nat)
      requires Valid() && path < |data.movePaths| && ValidLocation(body, loc)
      modifies this
      ensures Valid() && data == Gather.RecordMove(body, old(data), loc, path)
    {
      var moveOut := |data.moves|;
      data := data.(moves := data.moves + [MoveOut(path, loc)]);
      data := data.(pathMap := data.pathMap[path := data.pathMap[path] + [moveOut]]);
      var b, s := loc.block, loc.statementIndex;
      data := data.(locMap := data.locMap[b := data.locMap[b][s := data.locMap[b][s] + [moveOut]]]);
      RecordMoveValid(body, old(data), loc, path);
    }

    /** gather_init: an init of the place (of the whole union, for a union
        field) when that place already has a path of its own. */
    method GatherInit(loc: Location, place: Place, kind: InitKind)
      requires Valid() && WellTypedPlace(body, place) && ValidLocation(body, loc)
      modifies this
      ensures Valid() && data == Gather.GatherInit(body, old(data), loc, place, kind)
    {
      var target := place;
      if |place.projection| > 0 && place.projection[|place.projection| - 1].Field? {
        var placeBase := Prefix(place, |place.projection| - 1);
        if TyOf(body, placeBase).Adt? && TyOf(body, placeBase).isUnion {
          target := placeBase;
        }
      }
      assert target == Gather.InitTarget(body, place);
      Gather.FindExactBound(body, data, target);
      ghost var after := Gather.GatherInit(body, data, loc, place, kind);
      match Find(data.revLookup, target) {
        case Exact(path) =>
          PushInitValid(body, data, path, kind, loc);
          var init := |data.inits|;
          var b, s := loc.block, loc.statementIndex;
          data := data.(inits := data.inits + [Init(path, kind, Statement(loc))],
                        initPathMap := data.initPathMap[path := data.initPathMap[path] + [init]],
                        initLocMap := data.initLocMap[b := data.initLocMap[b][s := data.initLocMap[b][s] + [init]]]);
          assert data == after;
        case Parent(_) =>
      }
    }

    /** The subslice arm of gather_move: one move per element index in
        `from..to` of the array at `basePath`. */
    method SplitSubslice(loc: Location, basePath: nat, basePlace: Place, first: nat, stop: nat, len: nat)
      requires Valid() && basePath < |data.movePaths| && ValidLocation(body, loc)
      modifies this
      ensures Valid() && data == Gather.SplitSubslice(body, old(data), loc, basePath, basePlace, first, stop, len)
    {
      var offset := first;
      while offset < stop
        invariant Valid() && basePath < |data.movePaths|
        invariant Gather.SplitSubslice(body, data, loc, basePath, basePlace, offset, stop, len) ==
                  Gather.SplitSubslice(body, old(data), loc, basePath, basePlace, first, stop, len)
        decreases stop - offset
      {
        var elem := ConstantIndex(offset, len, false);
        var path := AddMovePath(basePath, elem, Project(basePlace, elem));
        RecordMove(loc, path);
        offset := offset + 1;
      }
    }

    /** gather_move: a trailing subslice of an array is moved element by
        element; otherwise the place's path (or its union's) is moved. */
    method GatherMove(loc: Location, place: Place)
      requires Valid() && MovablePlace(body, place) && ValidLocation(body, loc)
      modifies this
      ensures Valid() && data == Gather.GatherMove(body, old(data), loc, place)
    {
      if Gather.EndsInSubslice(place) {
        var n := |place.projection| - 1;
        var basePlace := Prefix(place, n);
        WellTypedPrefix(body, place, n);
        ghost var start := data;
        var res := MovePathFor(loc, basePlace);
        assert (data, res) == Gather.MovePathFor(body, start, loc, basePlace);
        match res {
          case Ok(basePath) =>
            SplitSubslice(loc, basePath, basePlace, place.projection[n].from, place.projection[n].to,
                          TyOf(body, basePlace).len);
          case Err(UnionMove(path)) =>
            RecordMove(loc, path);
          case Err(_) =>
        }
      } else {
        ghost var start := data;
        var res := MovePathFor(loc, place);
        assert (data, res) == Gather.MovePathFor(body, start, loc, place);
        match res {
          case Ok(path) => RecordMove(loc, path);
          case Err(UnionMove(path)) => RecordMove(loc, path);
          case Err(_) =>
        }
      }
    }

    /** gather_operand: only a move operand moves anything. */
    method GatherOperand(loc: Location, op: Operand)
      requires Valid() && WellFormedOperand(body, op) && ValidLocation(body, loc)
      modifies this
      ensures Valid() && data == Gather.GatherOperand(body, old(data), loc, op)
    {
      match op {
        case Move(place) => GatherMove(loc, place);
        case Copy(_) =>
        case Constant =>
      }
    }

    /** The operands of an aggregate or the arguments of a call, in order. */
    method GatherOperands(loc: Location, ops: seq<Operand>)
      requires Valid() && WellFormedOperands(body, ops) && ValidLocation(body, loc)
      modifies this
      ensures Valid() && data == Gather.GatherOperands(body, old(data), loc, ops)
    {
      var i := 0;
      assert ops[0..] == ops;
      while i < |ops|
        invariant i <= |ops| && Valid()
        invariant WellFormedOperands(body, ops[i..])
        invariant Gather.GatherOperands(body, data, loc, ops[i..]) == Gather.GatherOperands(body, old(data), loc, ops)
        decreases |ops| - i
      {
        assert ops[i..][0] == ops[i] && ops[i..][1..] == ops[i + 1..];
        GatherOperand(loc, ops[i]);
        i := i + 1;
      }
    }

    /** gather_rvalue: the operands an rvalue reads by move. */
    method GatherRvalue(loc: Location, rv: Rvalue)
      requires Valid() && WellFormedRvalue(body, rv) && ValidLocation(body, loc)
      modifies this
      ensures Valid() && data == Gather.GatherRvalue(body, old(data), loc, rv)
    {
      match rv {
        case Use(op) => GatherOperand(loc, op);
        case Repeat(op, _) => GatherOperand(loc, op);
        case Cast(op) => GatherOperand(loc, op);
        case ShallowInitBox(op) => GatherOperand(loc, op);
        case UnaryOp(op) => GatherOperand(loc, op);
        case BinaryOp(lhs, rhs) =>
          GatherOperand(loc, lhs);
          GatherOperand(loc, rhs);
        case CheckedBinaryOp(lhs, rhs) =>
          GatherOperand(loc, lhs);
          GatherOperand(loc, rhs);
        case Aggregate(ops) => GatherOperands(loc, ops);
        case _ =>
      }
    }

    /** gather_statement. */
    method GatherStatement(loc: Location, stmt: StatementKind)
      requires Valid() && WellFormedStatement(body, stmt) && ValidLocation(body, loc)
      modifies this
      ensures Valid() && data == Gather.GatherStatement(body, old(data), loc, stmt)
    {
      match stmt {
        case Assign(place, rv) =>
          if rv.CopyForDeref? {
            // the temporary now stands for `reffed` and shares its base's root
            var local := place.local;
            AliasDerefTempValid(body, data, local, rv.reffed);
            InsertChainTyped(body, data.revLookup.unDerefer, local, rv.reffed);
            var lookup := data.revLookup;
            lookup := lookup.(unDerefer := InsertChain(lookup.unDerefer, local, rv.reffed));
            var baseLocal := DerefChain(lookup.unDerefer, local)[0].local;
            lookup := lookup.(locals := lookup.locals[local := lookup.locals[baseLocal]]);
            data := data.(revLookup := lookup);
          } else {
            CreateMovePath(loc, place);
            if InitializationState(rv) == ShallowState {
              WellTypedProject(body, place, Deref);
              CreateMovePath(loc, Project(place, Deref));
              GatherInit(loc, place, Shallow);
            } else {
              GatherInit(loc, place, Deep);
            }
            GatherRvalue(loc, rv);
          }
        case FakeRead(place) => CreateMovePath(loc, place);
        case StorageDead(local) =>
          if !body.localDecls[local].isDerefTemp {
            GatherMove(loc, Place(local, []));
          }
        case _ =>
      }
    }

    /** One operand of an inline assembly block. */
    method GatherAsmOperand(loc: Location, op: InlineAsmOperand)
      requires Valid() && WellFormedAsmOperand(body, op) && ValidLocation(body, loc)
      modifies this
      ensures Valid() && data == Gather.GatherAsmOperand(body, old(data), loc, op)
    {
      match op {
        case In(value) => GatherOperand(loc, value);
        case Out(place) =>
          if place.Some? {
            CreateMovePath(loc, place.value);
            GatherInit(loc, place.value, Deep);
          }
        case InOut(inValue, outPlace) =>
          GatherOperand(loc, inValue);
          if outPlace.Some? {
            CreateMovePath(loc, outPlace.value);
            GatherInit(loc, outPlace.value, Deep);
          }
        case _ =>
      }
    }

    /** gather_terminator. */
    method GatherTerminator(loc: Location, term: TerminatorKind)
      requires Valid() && WellFormedTerminator(body, term) && ValidLocation(body, loc)
      modifies this
      ensures Valid() && data == Gather.GatherTerminator(body, old(data), loc, term)
    {
      match term {
        case Assert(cond) => GatherOperand(loc, cond);
        case SwitchInt(discr) => GatherOperand(loc, discr);
        case Yield(value, resumeArg) =>
          GatherOperand(loc, value);
          CreateMovePath(loc, resumeArg);
          GatherInit(loc, resumeArg, Deep);
        case Call(func, args, destination, target) =>
          GatherOperand(loc, func);
          GatherOperands(loc, args);
          if target.Some? {
            CreateMovePath(loc, destination);
            GatherInit(loc, destination, NonPanicPathOnly);
          }
        case InlineAsm(ops) => GatherAsmOperands(loc, ops);
        case _ =>
      }
    }

    /** The operands of an inline assembly block, in order. */
    method GatherAsmOperands(loc: Location, ops: seq<InlineAsmOperand>)
      requires Valid() && ValidLocation(body, loc)
      requires forall j :: 0 <= j < |ops| ==> WellFormedAsmOperand(body, ops[j])
      modifies this
      ensures Valid() && data == Gather.GatherAsmOperands(body, old(data), loc, ops)
    {
      var i := 0;
      assert ops[0..] == ops;
      while i < |ops|
        invariant i <= |ops| && Valid()
        invariant Gather.GatherAsmOperands(body, data, loc, ops[i..]) == Gather.GatherAsmOperands(body, old(data), loc, ops)
        decreases |ops| - i
      {
        assert ops[i..][0] == ops[i] && ops[i..][1..] == ops[i + 1..];
        GatherAsmOperand(loc, ops[i]);
        i := i + 1;
      }
    }

    /** gather_args: a deep init of every argument that has a root path. */
    method GatherArgs()
      requires Valid() && body.argCount < |body.localDecls|
      modifies this
      ensures Valid() && data == Gather.GatherArgsFrom(body, old(data), 1)
    {
      var arg := 1;
      while arg <= body.argCount
        invariant 1 <= arg <= body.argCount + 1 && Valid()
        invariant Gather.GatherArgsFrom(body, data, arg) == Gather.GatherArgsFrom(body, old(data), 1)
        decreases body.argCount + 1 - arg
      {
        GatherArgValid(body, data, arg);
        match data.revLookup.locals[arg] {
          case Some(path) =>
            var init := |data.inits|;
            data := data.(inits := data.inits + [Init(path, Deep, Argument(arg))]);
            data := data.(initPathMap := data.initPathMap[path := data.initPathMap[path] + [init]]);
          case None =>
        }
        arg := arg + 1;
      }
    }

    /** One block of gather_moves: its statements in order, then its
        terminator. */
    method GatherBlock(bb: nat)
      requires Valid() && bb < |body.basicBlocks| && WellFormedBlock(body, body.basicBlocks[bb])
      modifies this
      ensures Valid() && data == Gather.GatherBlock(body, old(data), bb)
    {
      var block := body.basicBlocks[bb];
      var i := 0;
      while i < |block.statements|
        invariant i <= |block.statements| && Valid()
        invariant Gather.GatherStatementsFrom(body, data, bb, i) == Gather.GatherStatementsFrom(body, old(data), bb, 0)
        decreases |block.statements| - i
      {
        ghost var before := data;
        GatherStatement(Location(bb, i), block.statements[i]);
        assert Gather.GatherStatementsFrom(body, before, bb, i) == Gather.GatherStatementsFrom(body, data, bb, i + 1);
        i := i + 1;
      }
      GatherTerminator(Location(bb, i), block.terminator);
    }

    /** finalize: hand out the data. */
    method Finalize() returns (d: MoveData)
      requires Valid()
      ensures d == data && ValidData(body, d)
    {
      d := data;
    }
  }

  /** gather_moves: roots, argument inits, then every statement and
      terminator of every block in order. */
  method GatherMoves(body: Body) returns (d: MoveData)
    requires WellFormedBody(body)
    ensures d == Gather.GatherMoves(body) && ValidData(body, d)
  {
    var builder := new MoveDataBuilder(body);
    builder.GatherArgs();
    var bb := 0;
    while bb < |body.basicBlocks|
      invariant bb <= |body.basicBlocks| && builder.body == body && builder.Valid()
      invariant WellFormedBlocksFrom(body, bb)
      invariant Gather.GatherBlocksFrom(body, builder.data, bb) == Gather.GatherMoves(body)
      decreases |body.basicBlocks| - bb
    {
      builder.GatherBlock(bb);
      bb := bb + 1;
    }
    d := builder.Finalize();
  }
}
