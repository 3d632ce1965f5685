/**
 * The move-path builder as functions on MoveData values: each function
 * gives the state after one builder operation (and, where the operation
 * has one, its result). The class in Builder performs the same operations
 * in place and is proved against these; GatherInvariant proves that each
 * of them keeps the builder's invariant.
 */
module Gather {
  import opened Wrappers
  import opened Mir
  import opened MovePaths
  import opened MovePathLemmas
  import opened Legality

  /** Everything but the forest, its index lists and the memo map is untouched. */
  predicate OnlyTreeChanged(d: MoveData, d': MoveData) {
    d'.moves == d.moves && d'.inits == d.inits &&
    d'.locMap == d.locMap && d'.initLocMap == d.initLocMap &&
    d'.revLookup.locals == d.revLookup.locals && d'.revLookup.unDerefer == d.revLookup.unDerefer
  }

  // ----- new_move_path -----

  /** A new node for `place` under `parent`, with empty move and init lists. */
  function NewMovePath(body: Body, d: MoveData, parent: Option<nat>, place: Place): (r: (MoveData, nat))
    requires Shaped(body, d)
    requires parent.Some? ==> parent.value < |d.movePaths|
    ensures Shaped(body, r.0)
    // the new node is the next index of the arena and of both index tables
    ensures r.1 == |d.movePaths| && |r.0.movePaths| == |d.movePaths| + 1
    ensures r.0.movePaths[r.1].parent == parent && r.0.movePaths[r.1].place == place
    ensures r.0.movePaths[r.1].firstChild.None?
    // the rest of the arena is PushPath's, and no move or init is listed for the new node
    ensures r.0.movePaths == PushPath(d.movePaths, parent, place)
    ensures r.0.pathMap[..r.1] == d.pathMap && r.0.pathMap[r.1] == []
    ensures r.0.initPathMap[..r.1] == d.initPathMap && r.0.initPathMap[r.1] == []
    ensures OnlyTreeChanged(d, r.0) && r.0.revLookup == d.revLookup
  {
    (d.(movePaths := PushPath(d.movePaths, parent, place),
        pathMap := d.pathMap + [[]],
        initPathMap := d.initPathMap + [[]]),
     |d.movePaths|)
  }

  // ----- add_move_path -----

  /** The child of `base` under `elem`: the memoised one, or a new node
      that is memoised from then on. */
  function AddMovePath(body: Body, d: MoveData, base: nat, elem: ProjElem, place: Place): (r: (MoveData, nat))
    requires Shaped(body, d) && base < |d.movePaths|
    ensures Shaped(body, r.0) && OnlyTreeChanged(d, r.0)
    ensures (base, Lift(elem)) in r.0.revLookup.projections
    ensures r.0.revLookup.projections[(base, Lift(elem))] == r.1
    // a memoised child is returned as it is and nothing changes
    ensures (base, Lift(elem)) in d.revLookup.projections ==>
              r == (d, d.revLookup.projections[(base, Lift(elem))])
    // otherwise the child is a new node under `base`, and its key the only new memo entry
    ensures (base, Lift(elem)) !in d.revLookup.projections ==>
              var d1 := NewMovePath(body, d, Some(base), place);
              r.1 == d1.1 &&
              r.0 == d1.0.(revLookup := d1.0.revLookup.(projections := d.revLookup.projections[(base, Lift(elem)) := r.1]))
  {
    var key := (base, Lift(elem));
    if key in d.revLookup.projections then
      (d, d.revLookup.projections[key])
    else
      var (d1, index) := NewMovePath(body, d, Some(base), place);
      (d1.(revLookup := d1.revLookup.(projections := d1.revLookup.projections[key := index])), index)
  }

  // ----- move_path_for -----

  /** The loop of move_path_for from the current `base` and union path
      over the steps still to walk. Once inside a union no node is created. */
  function Walk(body: Body, d: MoveData, loc: Location, base: nat, unionPath: Option<nat>, steps: seq<Step>)
    : (r: (MoveData, Result<nat, MoveError>))
    requires Shaped(body, d) && base < |d.movePaths|
    requires unionPath.Some? ==> unionPath.value < |d.movePaths|
    requires StepsTyped(body, steps)
    ensures Shaped(body, r.0) && OnlyTreeChanged(d, r.0)
    ensures |d.movePaths| <= |r.0.movePaths|
    ensures r.1.Ok? ==> r.1.value < |r.0.movePaths|
    ensures r.1.Err? ==> r.1.error.IllegalMove? || r.1.error.UnionMove?
    ensures r.1.Err? && r.1.error.UnionMove? ==> r.1.error.path < |r.0.movePaths|
    decreases |steps|
  {
    if steps == [] then
      (d, if unionPath.Some? then Err(UnionMove(unionPath.value)) else Ok(base))
    else
      var step := steps[0];
      match Classify(step, TyOf(body, step.base))
      case Illegal(kind) => (d, Err(IllegalMove(loc, kind)))
      case Legal(entersUnion) =>
        var unionPath' := if unionPath.None? && entersUnion then Some(base) else unionPath;
        if unionPath'.None? then
          var (d1, child) := AddMovePath(body, d, base, step.elem, Project(step.base, step.elem));
          Walk(body, d1, loc, child, None, steps[1..])
        else
          Walk(body, d, loc, base, unionPath', steps[1..])
  }

  /** The move path for `place`, created with all its ancestors as needed,
      or why there is none. */
  function MovePathFor(body: Body, d: MoveData, loc: Location, place: Place): (r: (MoveData, Result<nat, MoveError>))
    requires Shaped(body, d) && WellTypedPlace(body, place)
    ensures Shaped(body, r.0) && OnlyTreeChanged(d, r.0)
    // a local without a root path is untracked, and then nothing is created
    ensures d.revLookup.locals[place.local].None? <==> r.1 == Err(UntrackedLocal)
    ensures d.revLookup.locals[place.local].None? ==> r.0 == d
    ensures r.1.Ok? ==> r.1.value < |r.0.movePaths|
    ensures r.1.Err? && r.1.error.UnionMove? ==> r.1.error.path < |r.0.movePaths|
  {
    match d.revLookup.locals[place.local]
    case None => (d, Err(UntrackedLocal))
    case Some(root) =>
      IterProjectionsTyped(body, d.revLookup.unDerefer, place);
      Walk(body, d, loc, root, None, IterProjections(d.revLookup.unDerefer, place))
  }

  // ----- create_move_path -----

  /** Make the path exist if it can; a failure is dropped, as the access
      being recorded moves nothing. */
  function CreateMovePath(body: Body, d: MoveData, loc: Location, place: Place): (r: MoveData)
    requires Shaped(body, d) && WellTypedPlace(body, place)
    ensures Shaped(body, r) && OnlyTreeChanged(d, r)
  {
    MovePathFor(body, d, loc, place).0
  }

  // ----- record_move -----

  /** A move of `path` at `loc`, listed under both. */
  function RecordMove(body: Body, d: MoveData, loc: Location, path: nat): (r: MoveData)
    requires Shaped(body, d) && path < |d.movePaths| && ValidLocation(body, loc)
    ensures Shaped(body, r)
    // one more move, and nothing but the move indices changes
    ensures r.moves == d.moves + [MoveOut(path, loc)]
    ensures r.movePaths == d.movePaths && r.inits == d.inits && r.revLookup == d.revLookup
    ensures r.initPathMap == d.initPathMap && r.initLocMap == d.initLocMap
  {
    var index := |d.moves|;
    var b, s := loc.block, loc.statementIndex;
    d.(moves := d.moves + [MoveOut(path, loc)],
       pathMap := d.pathMap[path := d.pathMap[path] + [index]],
       locMap := d.locMap[b := d.locMap[b][s := d.locMap[b][s] + [index]]])
  }

  // ----- gather_init -----

  /** An init of a field of a union initialises the whole union. */
  function InitTarget(body: Body, place: Place): (t: Place)
    ensures t.local == place.local
  {
    if |place.projection| > 0 && place.projection[|place.projection| - 1].Field? &&
       TyOf(body, Prefix(place, |place.projection| - 1)).Adt? &&
       TyOf(body, Prefix(place, |place.projection| - 1)).isUnion
    then Prefix(place, |place.projection| - 1)
    else place
  }

  lemma {:induction false} FindFromBound(projections: map<ProjKey, nat>, n: nat, result: nat, steps: seq<Step>)
    requires result < n && forall k :: k in projections ==> projections[k] < n
    ensures FindFrom(projections, result, steps).Exact? ==> FindFrom(projections, result, steps).path < n
    decreases |steps|
  {
    if steps != [] && (result, Lift(steps[0].elem)) in projections {
      FindFromBound(projections, n, projections[(result, Lift(steps[0].elem))], steps[1..]);
    }
  }

  /** A path found by lookup is a node of the arena. */
  lemma FindExactBound(body: Body, d: MoveData, place: Place)
    requires Shaped(body, d) && place.local < |body.localDecls|
    ensures Find(d.revLookup, place).Exact? ==> Find(d.revLookup, place).path < |d.movePaths|
  {
    if d.revLookup.locals[place.local].Some? {
      FindFromBound(d.revLookup.projections, |d.movePaths|, d.revLookup.locals[place.local].value,
                    IterProjections(d.revLookup.unDerefer, place));
    }
  }

  /** An init of `place` at `loc`, recorded only when the (union-retargeted)
      place already has a move path of its own. */
  function GatherInit(body: Body, d: MoveData, loc: Location, place: Place, kind: InitKind): (r: MoveData)
    requires Shaped(body, d) && WellTypedPlace(body, place) && ValidLocation(body, loc)
    ensures Shaped(body, r)
    ensures Find(d.revLookup, InitTarget(body, place)).Exact? ==>
              var path := Find(d.revLookup, InitTarget(body, place)).path;
              path < |d.movePaths| && r.inits == d.inits + [Init(path, kind, Statement(loc))]
    ensures r.movePaths == d.movePaths && r.moves == d.moves && r.revLookup == d.revLookup
    ensures r.pathMap == d.pathMap && r.locMap == d.locMap
    ensures Find(d.revLookup, InitTarget(body, place)).Parent? ==> r == d
  {
    FindExactBound(body, d, InitTarget(body, place));
    match Find(d.revLookup, InitTarget(body, place))
    case Parent(_) => d
    case Exact(path) =>
      var index := |d.inits|;
      var b, s := loc.block, loc.statementIndex;
      d.(inits := d.inits + [Init(path, kind, Statement(loc))],
         initPathMap := d.initPathMap[path := d.initPathMap[path] + [index]],
         initLocMap := d.initLocMap[b := d.initLocMap[b][s := d.initLocMap[b][s] + [index]]])
  }

  /** create_move_path followed by gather_init, as every initialising
      statement and terminator does. */
  function CreateAndInit(body: Body, d: MoveData, loc: Location, place: Place, kind: InitKind): (r: MoveData)
    requires Shaped(body, d) && WellTypedPlace(body, place) && ValidLocation(body, loc)
    ensures Shaped(body, r)
  {
    GatherInit(body, CreateMovePath(body, d, loc, place), loc, place, kind)
  }

  // ----- gather_move -----

  /** One move per offset in [offset, to), each of the constant-index child
      of `basePath` for that offset. */
  function SplitSubslice(body: Body, d: MoveData, loc: Location, basePath: nat, basePlace: Place,
                         offset: nat, to: nat, len: nat): (r: MoveData)
    requires Shaped(body, d) && basePath < |d.movePaths| && ValidLocation(body, loc)
    ensures Shaped(body, r)
    decreases if to > offset then to - offset else 0
  {
    if to <= offset then d
    else
      var elem := ConstantIndex(offset, len, false);
      var (d1, path) := AddMovePath(body, d, basePath, elem, Project(basePlace, elem));
      SplitSubslice(body, RecordMove(body, d1, loc, path), loc, basePath, basePlace, offset + 1, to, len)
  }

  /** Whether `place` ends in a subslice that does not count from the end. */
  predicate EndsInSubslice(place: Place) {
    |place.projection| > 0 && place.projection[|place.projection| - 1].Subslice? &&
    !place.projection[|place.projection| - 1].fromEnd
  }

  /** The move of `place` at `loc`: a subslice of an array becomes one move
      per element; a place inside a union moves the whole union; a place
      with no legal path moves nothing. */
  function GatherMove(body: Body, d: MoveData, loc: Location, place: Place): (r: MoveData)
    requires Shaped(body, d) && MovablePlace(body, place) && ValidLocation(body, loc)
    ensures Shaped(body, r)
  {
    if EndsInSubslice(place) then
      var n := |place.projection| - 1;
      var basePlace := Prefix(place, n);
      WellTypedPrefix(body, place, n);
      var (d1, res) := MovePathFor(body, d, loc, basePlace);
      match res
      case Ok(basePath) =>
        SplitSubslice(body, d1, loc, basePath, basePlace,
                      place.projection[n].from, place.projection[n].to, TyOf(body, basePlace).len)
      case Err(UnionMove(path)) => RecordMove(body, d1, loc, path)
      case Err(_) => d1
    else
      var (d1, res) := MovePathFor(body, d, loc, place);
      match res
      case Ok(path) => RecordMove(body, d1, loc, path)
      case Err(UnionMove(path)) => RecordMove(body, d1, loc, path)
      case Err(_) => d1
  }

  // ----- gather_operand / gather_rvalue -----

  function GatherOperand(body: Body, d: MoveData, loc: Location, op: Operand): (r: MoveData)
    requires Shaped(body, d) && WellFormedOperand(body, op) && ValidLocation(body, loc)
    ensures Shaped(body, r)
    // copies and constants move nothing
    ensures !op.Move? ==> r == d
  {
    match op
    case Move(place) => GatherMove(body, d, loc, place)
    case Copy(_) => d
    case Constant => d
  }

  function GatherOperands(body: Body, d: MoveData, loc: Location, ops: seq<Operand>): (r: MoveData)
    requires Shaped(body, d) && WellFormedOperands(body, ops) && ValidLocation(body, loc)
    ensures Shaped(body, r)
    decreases |ops|
  {
    if ops == [] then d
    else GatherOperands(body, GatherOperand(body, d, loc, ops[0]), loc, ops[1..])
  }

  function GatherRvalue(body: Body, d: MoveData, loc: Location, rv: Rvalue): (r: MoveData)
    requires Shaped(body, d) && WellFormedRvalue(body, rv) && ValidLocation(body, loc)
    ensures Shaped(body, r)
  {
    match rv
    case Use(op) => GatherOperand(body, d, loc, op)
    case Repeat(op, _) => GatherOperand(body, d, loc, op)
    case Cast(op) => GatherOperand(body, d, loc, op)
    case ShallowInitBox(op) => GatherOperand(body, d, loc, op)
    case UnaryOp(op) => GatherOperand(body, d, loc, op)
    case BinaryOp(lhs, rhs) => GatherOperand(body, GatherOperand(body, d, loc, lhs), loc, rhs)
    case CheckedBinaryOp(lhs, rhs) => GatherOperand(body, GatherOperand(body, d, loc, lhs), loc, rhs)
    case Aggregate(ops) => GatherOperands(body, d, loc, ops)
    case ThreadLocalRef => d
    case Ref(_) => d
    case AddressOf(_) => d
    case Discriminant(_) => d
    case Len(_) => d
    case NullaryOp => d
  }

  // ----- gather_statement -----

  /** CopyForDeref into a deref temporary: the temporary stands for the
      chain behind `reffed`, and shares the root path of that chain's base. */
  function AliasDerefTemp(body: Body, d: MoveData, local: Local, reffed: Place): (r: MoveData)
    requires Shaped(body, d) && local < |body.localDecls| && WellTypedPlace(body, reffed)
    ensures Shaped(body, r)
  {
    var ud := InsertChain(d.revLookup.unDerefer, local, reffed);
    InsertChainTyped(body, d.revLookup.unDerefer, local, reffed);
    var baseLocal := DerefChain(ud, local)[0].local;
    d.(revLookup := d.revLookup.(unDerefer := ud,
                                 locals := d.revLookup.locals[local := d.revLookup.locals[baseLocal]]))
  }

  function GatherStatement(body: Body, d: MoveData, loc: Location, stmt: StatementKind): (r: MoveData)
    requires Shaped(body, d) && WellFormedStatement(body, stmt) && ValidLocation(body, loc)
    ensures Shaped(body, r)
  {
    match stmt
    case Assign(place, rv) =>
      if rv.CopyForDeref? then
        AliasDerefTemp(body, d, place.local, rv.reffed)
      else
        var d1 := CreateMovePath(body, d, loc, place);
        var d2 :=
          if InitializationState(rv) == ShallowState then
            // a box starts out uninitialised: its interior gets a path of its own
            WellTypedProject(body, place, Deref);
            GatherInit(body, CreateMovePath(body, d1, loc, Project(place, Deref)), loc, place, Shallow)
          else
            GatherInit(body, d1, loc, place, Deep);
        GatherRvalue(body, d2, loc, rv)
    case FakeRead(place) => CreateMovePath(body, d, loc, place)
    case StorageDead(local) =>
      // deref temporaries own no storage of their own
      if body.localDecls[local].isDerefTemp then d else GatherMove(body, d, loc, Place(local, []))
    case StorageLive(_) => d
    case Retag(_) => d
    case AscribeUserType(_) => d
    case PlaceMention(_) => d
    case Coverage => d
    case Intrinsic => d
    case ConstEvalCounter => d
    case Nop => d
  }

  // ----- gather_terminator -----

  function GatherAsmOperand(body: Body, d: MoveData, loc: Location, op: InlineAsmOperand): (r: MoveData)
    requires Shaped(body, d) && WellFormedAsmOperand(body, op) && ValidLocation(body, loc)
    ensures Shaped(body, r)
  {
    match op
    case In(value) => GatherOperand(body, d, loc, value)
    case Out(place) =>
      if place.Some? then CreateAndInit(body, d, loc, place.value, Deep) else d
    case InOut(inValue, outPlace) =>
      var d1 := GatherOperand(body, d, loc, inValue);
      if outPlace.Some? then CreateAndInit(body, d1, loc, outPlace.value, Deep) else d1
    case Const => d
    case SymFn => d
    case SymStatic => d
  }

  function GatherAsmOperands(body: Body, d: MoveData, loc: Location, ops: seq<InlineAsmOperand>): (r: MoveData)
    requires Shaped(body, d) && ValidLocation(body, loc)
    requires forall i :: 0 <= i < |ops| ==> WellFormedAsmOperand(body, ops[i])
    ensures Shaped(body, r)
    decreases |ops|
  {
    if ops == [] then d
    else GatherAsmOperands(body, GatherAsmOperand(body, d, loc, ops[0]), loc, ops[1..])
  }

  function GatherTerminator(body: Body, d: MoveData, loc: Location, term: TerminatorKind): (r: MoveData)
    requires Shaped(body, d) && WellFormedTerminator(body, term) && ValidLocation(body, loc)
    ensures Shaped(body, r)
  {
    match term
    case Assert(cond) => GatherOperand(body, d, loc, cond)
    case SwitchInt(discr) => GatherOperand(body, d, loc, discr)
    case Yield(value, resumeArg) =>
      CreateAndInit(body, GatherOperand(body, d, loc, value), loc, resumeArg, Deep)
    case Call(func, args, destination, target) =>
      var d1 := GatherOperands(body, GatherOperand(body, d, loc, func), loc, args);
      // only the normal return edge initialises the destination
      if target.Some? then CreateAndInit(body, d1, loc, destination, NonPanicPathOnly) else d1
    case InlineAsm(ops) => GatherAsmOperands(body, d, loc, ops)
    case Goto(_) => d
    case FalseEdge => d
    case FalseUnwind => d
    case Return => d
    case UnwindResume => d
    case UnwindTerminate => d
    case CoroutineDrop => d
    case Unreachable => d
    case Drop(_) => d
  }

  // ----- MoveDataBuilder::new -----

  /** One empty list per statement and terminator of the body. */
  function EmptyLocMap(body: Body): (lm: seq<seq<seq<nat>>>)
    ensures LocShaped(body, lm)
    ensures forall b, s :: 0 <= b < |lm| && 0 <= s < |lm[b]| ==> lm[b][s] == []
  {
    seq(|body.basicBlocks|, b requires 0 <= b < |body.basicBlocks| =>
      seq(|body.basicBlocks[b].statements| + 1, _ => []))
  }

  /** The builder's data before any local has a root path. */
  function EmptyData(body: Body): (d: MoveData)
    ensures Shaped(body, d)
    ensures d.movePaths == [] && d.moves == [] && d.inits == []
    ensures forall l :: 0 <= l < |d.revLookup.locals| ==> d.revLookup.locals[l].None?
  {
    MoveData([], [], EmptyLocMap(body), [],
             MovePathLookup(seq(|body.localDecls|, _ => None), map[], map[]),
             [], EmptyLocMap(body), [])
  }

  /** Root paths for the locals from `i` on, except deref temporaries. */
  function RootsFrom(body: Body, d: MoveData, i: nat): (r: MoveData)
    requires Shaped(body, d) && i <= |body.localDecls|
    ensures Shaped(body, r)
    decreases |body.localDecls| - i
  {
    if i == |body.localDecls| then d
    else if body.localDecls[i].isDerefTemp then RootsFrom(body, d, i + 1)
    else
      var (d1, root) := NewMovePath(body, d, None, Place(i, []));
      RootsFrom(body, d1.(revLookup := d1.revLookup.(locals := d1.revLookup.locals[i := Some(root)])), i + 1)
  }

  function InitialData(body: Body): (d: MoveData)
    ensures Shaped(body, d)
  {
    RootsFrom(body, EmptyData(body), 0)
  }

  // ----- gather_args -----

  /** A deep init of argument `arg`, located at the argument itself. */
  function GatherArg(body: Body, d: MoveData, arg: Local): (r: MoveData)
    requires Shaped(body, d) && arg < |body.localDecls|
    ensures Shaped(body, r)
  {
    match d.revLookup.locals[arg]
    case None => d
    case Some(path) =>
      d.(inits := d.inits + [Init(path, Deep, Argument(arg))],
         initPathMap := d.initPathMap[path := d.initPathMap[path] + [|d.inits|]])
  }

  /** The arguments `arg..argCount` (locals 1..argCount are the arguments). */
  function GatherArgsFrom(body: Body, d: MoveData, arg: nat): (r: MoveData)
    requires Shaped(body, d) && body.argCount < |body.localDecls|
    ensures Shaped(body, r)
    decreases body.argCount + 1 - arg
  {
    if arg > body.argCount then d
    else GatherArgsFrom(body, GatherArg(body, d, arg), arg + 1)
  }

  // ----- gather_moves -----

  /** The statements of block `bb` from the `i`-th on, in order. */
  function GatherStatementsFrom(body: Body, d: MoveData, bb: nat, i: nat): (r: MoveData)
    requires Shaped(body, d) && bb < |body.basicBlocks| && WellFormedBlock(body, body.basicBlocks[bb])
    requires i <= |body.basicBlocks[bb].statements|
    ensures Shaped(body, r)
    decreases |body.basicBlocks[bb].statements| - i
  {
    if i == |body.basicBlocks[bb].statements| then d
    else GatherStatementsFrom(body, GatherStatement(body, d, Location(bb, i), body.basicBlocks[bb].statements[i]),
                              bb, i + 1)
  }

  /** Block `bb`: its statements, then its terminator. */
  function GatherBlock(body: Body, d: MoveData, bb: nat): (r: MoveData)
    requires Shaped(body, d) && bb < |body.basicBlocks| && WellFormedBlock(body, body.basicBlocks[bb])
    ensures Shaped(body, r)
  {
    var block := body.basicBlocks[bb];
    GatherTerminator(body, GatherStatementsFrom(body, d, bb, 0), Location(bb, |block.statements|), block.terminator)
  }

  /** Blocks `bb..` in order. */
  function GatherBlocksFrom(body: Body, d: MoveData, bb: nat): (r: MoveData)
    requires Shaped(body, d) && WellFormedBlocksFrom(body, bb)
    ensures Shaped(body, r)
    decreases |body.basicBlocks| - bb
  {
    if bb >= |body.basicBlocks| then d
    else GatherBlocksFrom(body, GatherBlock(body, d, bb), bb + 1)
  }

  /** The whole pass: root paths, argument inits, then every block in order. */
  function GatherMoves(body: Body): (r: MoveData)
    requires WellFormedBody(body)
    ensures Shaped(body, r)
  {
    GatherBlocksFrom(body, GatherArgsFrom(body, InitialData(body), 1), 0)
  }
}
