/** Whether one projection step may be tracked as a move path, decided by
    the kind of the type being projected from. */
module Legality {
  import opened Mir
  import opened MovePaths

  datatype StepClass = Legal(entersUnion: bool) | Illegal(kind: IllegalMoveOriginKind)

  function Classify(step: Step, ty: TyKind): (r: StepClass)
    requires StepTyped(step.elem, ty)
    // moving out through a reference or raw pointer is moving borrowed content
    ensures (r.Illegal? && r.kind.BorrowedContent?) <==> (step.elem.Deref? && (ty.Ref? || ty.RawPtr?))
    ensures r.Illegal? && r.kind.BorrowedContent? ==> r.kind.targetPlace == Project(step.base, step.elem)
    // a field of a type with a destructor cannot be moved out
    ensures (r.Illegal? && r.kind.InteriorOfTypeWithDestructor?) <==> (step.elem.Field? && ty.Adt? && ty.hasDtor)
    // no element of a slice, and no dynamically indexed element, is trackable
    ensures (r.Illegal? && r.kind.InteriorOfSliceOrArray?) <==>
            (step.elem.Index? || ((step.elem.ConstantIndex? || step.elem.Subslice?) && ty.Slice?))
    ensures r.Illegal? && r.kind.InteriorOfSliceOrArray? ==> r.kind.isIndex == step.elem.Index?
    ensures r.Illegal? && !r.kind.BorrowedContent? ==>
            (r.kind.InteriorOfTypeWithDestructor? && r.kind.containerTy == ty) ||
            (r.kind.InteriorOfSliceOrArray? && r.kind.ty == ty)
    // only a field of a union without destructor enters the union
    ensures r == Legal(true) <==> (step.elem.Field? && ty.Adt? && ty.isUnion && !ty.hasDtor)
  {
    match step.elem
    case Deref =>
      if ty.Ref? || ty.RawPtr? then Illegal(BorrowedContent(Project(step.base, step.elem)))
      else Legal(false)   // a box
    case Field(_, _) =>
      if ty.Adt? && ty.hasDtor then Illegal(InteriorOfTypeWithDestructor(ty))
      else Legal(ty.Adt? && ty.isUnion)
    case ConstantIndex(_, _, _) =>
      if ty.Slice? then Illegal(InteriorOfSliceOrArray(ty, step.elem.Index?)) else Legal(false)
    case Subslice(_, _, _) =>
      if ty.Slice? then Illegal(InteriorOfSliceOrArray(ty, step.elem.Index?)) else Legal(false)
    case Index(_) =>
      Illegal(InteriorOfSliceOrArray(ty, true))
    // these change how a place is viewed, not where it is stored
    case OpaqueCast(_) => Legal(false)
    case Subtype(_) => Legal(false)
    case Downcast(_) => Legal(false)
  }
}
