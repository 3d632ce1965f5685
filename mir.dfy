/** Option and Result, the two failure-carrying wrappers the builder needs. */
module Wrappers {
  datatype Option<+T> = None | Some(value: T)

  datatype Result<+T, +E> = Ok(value: T) | Err(error: E)
}

/**
 * The part of a MIR function body that the move-path builder reads:
 * places with their projection chains, operands, rvalues, statements,
 * terminators, basic blocks and local declarations, plus the answers of
 * the type-query service for every place the builder asks about.
 */
module Mir {
  import opened Wrappers

  type Local = nat
  type BasicBlock = nat

  /** A program point: a basic block and a statement offset in it
      (the offset equal to the number of statements is the terminator). */
  datatype Location = Location(block: BasicBlock, statementIndex: nat)

  /** What the builder needs to know about the type of a place. The length
      of an array type is already evaluated to a concrete number. */
  datatype TyKind =
    | Ref
    | RawPtr
    | Adt(isBox: bool, hasDtor: bool, isUnion: bool)
    | Closure
    | Coroutine
    | Tuple
    | Array(len: nat)
    | Slice
    | Other   // bool, char, integers, floats, str, fn items and pointers, dyn, never, ...

  /** One projection step of a place. */
  datatype ProjElem =
    | Deref
    | Field(field: nat, fieldTy: TyKind)
    | Index(indexLocal: Local)
    | ConstantIndex(offset: nat, minLength: nat, fromEnd: bool)
    | Subslice(from: nat, to: nat, fromEnd: bool)
    | Downcast(variant: nat)
    | OpaqueCast(castTy: TyKind)
    | Subtype(subTy: TyKind)

  /** A root local followed by a chain of projections. */
  datatype Place = Place(local: Local, projection: seq<ProjElem>)

  /** The place made of the first `j` projections of `p`. */
  function Prefix(p: Place, j: nat): (q: Place)
    requires j <= |p.projection|
    ensures q.local == p.local && |q.projection| == j
  {
    Place(p.local, p.projection[..j])
  }

  /** `p` projected one step further by `elem`. */
  function Project(p: Place, elem: ProjElem): Place {
    Place(p.local, p.projection + [elem])
  }

  datatype Operand = Copy(place: Place) | Move(place: Place) | Constant

  datatype Rvalue =
    | Use(operand: Operand)
    | Repeat(operand: Operand, count: nat)
    | Ref(borrowed: Place)
    | ThreadLocalRef
    | AddressOf(pointee: Place)
    | Len(lenOf: Place)
    | Cast(operand: Operand)
    | BinaryOp(lhs: Operand, rhs: Operand)
    | CheckedBinaryOp(lhs: Operand, rhs: Operand)
    | NullaryOp
    | UnaryOp(operand: Operand)
    | Discriminant(scrutinee: Place)
    | Aggregate(operands: seq<Operand>)
    | ShallowInitBox(operand: Operand)
    | CopyForDeref(reffed: Place)

  datatype RvalueInitializationState = ShallowState | DeepState

  /** Whether the value an rvalue produces starts out fully initialised. */
  function InitializationState(rv: Rvalue): RvalueInitializationState {
    if rv.ShallowInitBox? then ShallowState else DeepState
  }

  datatype StatementKind =
    | Assign(place: Place, rvalue: Rvalue)
    | FakeRead(place: Place)
    | SetDiscriminant(place: Place, variant: nat)
    | Deinit(place: Place)
    | StorageLive(local: Local)
    | StorageDead(local: Local)
    | Retag(place: Place)
    | PlaceMention(place: Place)
    | AscribeUserType(place: Place)
    | Coverage
    | Intrinsic
    | ConstEvalCounter
    | Nop

  datatype InlineAsmOperand =
    | In(value: Operand)
    | Out(place: Option<Place>)
    | InOut(inValue: Operand, outPlace: Option<Place>)
    | Const
    | SymFn
    | SymStatic

  datatype TerminatorKind =
    | Goto(gotoTarget: BasicBlock)
    | SwitchInt(discr: Operand)
    | UnwindResume
    | UnwindTerminate
    | Return
    | Unreachable
    | Drop(dropped: Place)
    | Call(func: Operand, args: seq<Operand>, destination: Place, target: Option<BasicBlock>)
    | Assert(cond: Operand)
    | Yield(value: Operand, resumeArg: Place)
    | CoroutineDrop
    | FalseEdge
    | FalseUnwind
    | InlineAsm(operands: seq<InlineAsmOperand>)

  datatype BasicBlockData = BasicBlockData(statements: seq<StatementKind>, terminator: TerminatorKind)

  /** A local is a deref temporary when it only caches a dereferenced value. */
  datatype LocalDecl = LocalDecl(isDerefTemp: bool)

  /** A function body. Local 0 is the return place; locals 1..argCount are
      the arguments. `placeTy` is the type-query service: the type of every
      place the builder inspects. */
  datatype Body = Body(
    localDecls: seq<LocalDecl>,
    argCount: nat,
    basicBlocks: seq<BasicBlockData>,
    placeTy: map<Place, TyKind>)

  function TyOf(body: Body, p: Place): TyKind {
    if p in body.placeTy then body.placeTy[p] else Other
  }

  predicate ValidLocation(body: Body, loc: Location) {
    loc.block < |body.basicBlocks| &&
    loc.statementIndex <= |body.basicBlocks[loc.block].statements|
  }

  // ----- Well-formedness: what earlier compiler stages guarantee -----

  /** The projection/type pairs the builder has a rule for; every other
      combination is an internal compiler error in the source. */
  predicate StepTyped(elem: ProjElem, ty: TyKind) {
    match elem
    case Deref => ty.Ref? || ty.RawPtr? || (ty.Adt? && ty.isBox)
    case Field(_, _) => ty.Adt? || ty.Closure? || ty.Coroutine? || ty.Tuple?
    case ConstantIndex(_, _, _) => ty.Slice? || ty.Array?
    case Subslice(_, _, _) => ty.Slice? || ty.Array?
    case Index(_) => ty.Array? || ty.Slice?
    case Downcast(_) => true
    case OpaqueCast(_) => true
    case Subtype(_) => true
  }

  predicate WellTypedPlace(body: Body, p: Place) {
    p.local < |body.localDecls| &&
    forall j :: 0 <= j < |p.projection| ==> StepTyped(p.projection[j], TyOf(body, Prefix(p, j)))
  }

  /** Every prefix of a well-typed place is well typed. */
  lemma WellTypedPrefix(body: Body, p: Place, n: nat)
    requires WellTypedPlace(body, p) && n <= |p.projection|
    ensures WellTypedPlace(body, Prefix(p, n))
  {
    forall j | 0 <= j < n
      ensures StepTyped(Prefix(p, n).projection[j], TyOf(body, Prefix(Prefix(p, n), j)))
    {
      assert Prefix(Prefix(p, n), j) == Prefix(p, j);
    }
  }

  /** A well-typed place projected by a step its type allows is well typed. */
  lemma WellTypedProject(body: Body, p: Place, elem: ProjElem)
    requires WellTypedPlace(body, p) && StepTyped(elem, TyOf(body, p))
    ensures WellTypedPlace(body, Project(p, elem))
  {
    var q := Project(p, elem);
    forall j | 0 <= j < |q.projection|
      ensures StepTyped(q.projection[j], TyOf(body, Prefix(q, j)))
    {
      if j < |p.projection| {
        assert Prefix(q, j) == Prefix(p, j);
      } else {
        assert Prefix(q, j) == p;
      }
    }
  }

  /** A place that may be moved from: a trailing subslice that does not
      count from the end must project out of an array. */
  predicate MovablePlace(body: Body, p: Place) {
    WellTypedPlace(body, p) &&
    (|p.projection| > 0 && p.projection[|p.projection| - 1].Subslice? &&
     !p.projection[|p.projection| - 1].fromEnd
     ==> TyOf(body, Prefix(p, |p.projection| - 1)).Array?)
  }

  predicate WellFormedOperand(body: Body, op: Operand) {
    match op
    case Copy(p) => WellTypedPlace(body, p)
    case Move(p) => MovablePlace(body, p)
    case Constant => true
  }

  predicate WellFormedOperands(body: Body, ops: seq<Operand>) {
    forall i :: 0 <= i < |ops| ==> WellFormedOperand(body, ops[i])
  }

  predicate WellFormedRvalue(body: Body, rv: Rvalue) {
    match rv
    case Use(op) => WellFormedOperand(body, op)
    case Repeat(op, _) => WellFormedOperand(body, op)
    case Cast(op) => WellFormedOperand(body, op)
    case ShallowInitBox(op) => WellFormedOperand(body, op)
    case UnaryOp(op) => WellFormedOperand(body, op)
    case BinaryOp(lhs, rhs) => WellFormedOperand(body, lhs) && WellFormedOperand(body, rhs)
    case CheckedBinaryOp(lhs, rhs) => WellFormedOperand(body, lhs) && WellFormedOperand(body, rhs)
    case Aggregate(ops) => WellFormedOperands(body, ops)
    case CopyForDeref(_) => false   // handled by the statement, never as an rvalue
    case _ => true
  }

  predicate WellFormedStatement(body: Body, s: StatementKind) {
    match s
    case Assign(place, rv) =>
      WellTypedPlace(body, place) &&
      if rv.CopyForDeref? then
        place.projection == [] && body.localDecls[place.local].isDerefTemp &&
        WellTypedPlace(body, rv.reffed)
      else
        WellFormedRvalue(body, rv) &&
        (InitializationState(rv) == ShallowState ==> StepTyped(Deref, TyOf(body, place)))
    case FakeRead(place) => WellTypedPlace(body, place)
    case SetDiscriminant(_, _) => false   // must not exist during borrowck
    case Deinit(_) => false               // must not exist during borrowck
    case StorageDead(local) => local < |body.localDecls|
    case _ => true
  }

  predicate WellFormedAsmOperand(body: Body, op: InlineAsmOperand) {
    match op
    case In(v) => WellFormedOperand(body, v)
    case Out(p) => p.Some? ==> WellTypedPlace(body, p.value)
    case InOut(v, p) => WellFormedOperand(body, v) && (p.Some? ==> WellTypedPlace(body, p.value))
    case _ => true
  }

  predicate WellFormedTerminator(body: Body, t: TerminatorKind) {
    match t
    case SwitchInt(discr) => WellFormedOperand(body, discr)
    case Assert(cond) => WellFormedOperand(body, cond)
    case Yield(value, resumeArg) => WellFormedOperand(body, value) && WellTypedPlace(body, resumeArg)
    case Call(func, args, destination, _) =>
      WellFormedOperand(body, func) && WellFormedOperands(body, args) && WellTypedPlace(body, destination)
    case InlineAsm(ops) => forall i :: 0 <= i < |ops| ==> WellFormedAsmOperand(body, ops[i])
    case _ => true
  }

  predicate WellFormedBlock(body: Body, bb: BasicBlockData) {
    (forall i :: 0 <= i < |bb.statements| ==> WellFormedStatement(body, bb.statements[i])) &&
    WellFormedTerminator(body, bb.terminator)
  }

  /** Blocks `bb..` are well formed. */
  predicate WellFormedBlocksFrom(body: Body, bb: nat)
    decreases |body.basicBlocks| - bb
  {
    bb >= |body.basicBlocks| ||
    (WellFormedBlock(body, body.basicBlocks[bb]) && WellFormedBlocksFrom(body, bb + 1))
  }

  predicate WellFormedBody(body: Body) {
    body.argCount < |body.localDecls| && WellFormedBlocksFrom(body, 0)
  }
}
