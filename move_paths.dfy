/**
 * The result of the move-path analysis: the arena of move paths (a forest
 * linked by parent, first-child and next-sibling indices), the move and
 * init records, the per-path and per-location index tables, and the
 * reverse lookup from places to move paths.
 */
module MovePaths {
  import opened Wrappers
  import opened Mir

  /** One node of the move-path forest; links are indices into the arena. */
  datatype MovePath = MovePath(
    nextSibling: Option<nat>,
    firstChild: Option<nat>,
    parent: Option<nat>,
    place: Place)

  /** The value of `path` was moved out at `source`. */
  datatype MoveOut = MoveOut(path: nat, source: Location)

  datatype InitKind = Deep | Shallow | NonPanicPathOnly

  datatype InitLocation = Argument(arg: Local) | Statement(location: Location)

  datatype Init = Init(path: nat, kind: InitKind, location: InitLocation)

  datatype IllegalMoveOriginKind =
    | BorrowedContent(targetPlace: Place)
    | InteriorOfTypeWithDestructor(containerTy: TyKind)
    | InteriorOfSliceOrArray(ty: TyKind, isIndex: bool)

  datatype MoveError =
    | IllegalMove(location: Location, kind: IllegalMoveOriginKind)
    | UnionMove(path: nat)
    | UntrackedLocal

  datatype LookupResult = Exact(path: nat) | Parent(parentPath: Option<nat>)

  /** A projection with its types and index operand forgotten: the key
      under which child move paths are memoised. */
  datatype AbstractElem =
    | AbsDeref
    | AbsField(field: nat)
    | AbsIndex
    | AbsConstantIndex(offset: nat, minLength: nat, fromEnd: bool)
    | AbsSubslice(from: nat, to: nat, fromEnd: bool)
    | AbsDowncast(variant: nat)
    | AbsOpaqueCast
    | AbsSubtype

  function Lift(e: ProjElem): AbstractElem {
    match e
    case Deref => AbsDeref
    case Field(f, _) => AbsField(f)
    case Index(_) => AbsIndex
    case ConstantIndex(o, m, e) => AbsConstantIndex(o, m, e)
    case Subslice(f, t, e) => AbsSubslice(f, t, e)
    case Downcast(v) => AbsDowncast(v)
    case OpaqueCast(_) => AbsOpaqueCast
    case Subtype(_) => AbsSubtype
  }

  type ProjKey = (nat, AbstractElem)

  /** `locals[l]` is the root path of local `l` (None for deref temporaries),
      `projections` memoises children, and `unDerefer` maps each deref
      temporary to the chain of places it stands for. */
  datatype MovePathLookup = MovePathLookup(
    locals: seq<Option<nat>>,
    projections: map<ProjKey, nat>,
    unDerefer: map<Local, seq<Place>>)

  datatype MoveData = MoveData(
    movePaths: seq<MovePath>,
    moves: seq<MoveOut>,
    locMap: seq<seq<seq<nat>>>,
    pathMap: seq<seq<nat>>,
    revLookup: MovePathLookup,
    inits: seq<Init>,
    initLocMap: seq<seq<seq<nat>>>,
    initPathMap: seq<seq<nat>>)

  // ----- The un-derefer: places behind deref temporaries -----

  function DerefChain(ud: map<Local, seq<Place>>, local: Local): seq<Place> {
    if local in ud then ud[local] else []
  }

  /** Record that temporary `local` holds `reffed`: the chain of `reffed`'s
      own local moves over to `local`, extended by `reffed`. */
  function InsertChain(ud: map<Local, seq<Place>>, local: Local, reffed: Place): (r: map<Local, seq<Place>>)
    ensures local in r && r[local] == DerefChain(ud, reffed.local) + [reffed]
    // the chain of `reffed.local` moved over; every other chain stays
    ensures reffed.local != local ==> reffed.local !in r
    ensures forall l :: l != local && l != reffed.local ==> (l in r <==> l in ud) && (l in r ==> r[l] == ud[l])
  {
    (ud - {reffed.local})[local := DerefChain(ud, reffed.local) + [reffed]]
  }

  /** A projection step: the place projected from and the element. */
  datatype Step = Step(base: Place, elem: ProjElem)

  function PlaceSteps(p: Place): (r: seq<Step>)
    ensures |r| == |p.projection|
    ensures forall j :: 0 <= j < |r| ==> r[j] == Step(Prefix(p, j), p.projection[j])
  {
    seq(|p.projection|, j requires 0 <= j < |p.projection| => Step(Prefix(p, j), p.projection[j]))
  }

  function ChainSteps(chain: seq<Place>): seq<Step> {
    if chain == [] then [] else PlaceSteps(chain[0]) + ChainSteps(chain[1..])
  }

  /** The steps walked to resolve `place`: those of the places behind its
      local, then its own. */
  function IterProjections(ud: map<Local, seq<Place>>, place: Place): seq<Step> {
    ChainSteps(DerefChain(ud, place.local)) + PlaceSteps(place)
  }

  predicate StepsTyped(body: Body, steps: seq<Step>) {
    forall k :: 0 <= k < |steps| ==> StepTyped(steps[k].elem, TyOf(body, steps[k].base))
  }

  predicate ChainsTyped(body: Body, ud: map<Local, seq<Place>>) {
    forall l, i :: l in ud && 0 <= i < |ud[l]| ==> WellTypedPlace(body, ud[l][i])
  }

  // ----- Reverse lookup -----

  function FindFrom(projections: map<ProjKey, nat>, result: nat, steps: seq<Step>): LookupResult
    decreases |steps|
  {
    if steps == [] then Exact(result)
    else if (result, Lift(steps[0].elem)) in projections then
      FindFrom(projections, projections[(result, Lift(steps[0].elem))], steps[1..])
    else Parent(Some(result))
  }

  /** The move path of `place` when every step of it has one already. */
  function Find(lookup: MovePathLookup, place: Place): LookupResult
    requires place.local < |lookup.locals|
  {
    match lookup.locals[place.local]
    case None => Parent(None)
    case Some(root) => FindFrom(lookup.projections, root, IterProjections(lookup.unDerefer, place))
  }

  // ----- The forest -----

  /** Links point into the arena: a parent and a next sibling were created
      before the node, a first child after it. */
  predicate Links(paths: seq<MovePath>) {
    forall i :: 0 <= i < |paths| ==>
      (paths[i].parent.Some? ==> paths[i].parent.value < i) &&
      (paths[i].nextSibling.Some? ==> paths[i].nextSibling.value < i) &&
      (paths[i].firstChild.Some? ==> i < paths[i].firstChild.value < |paths|)
  }

  /** The sibling list that starts at `c`. */
  function SiblingList(paths: seq<MovePath>, c: Option<nat>): seq<nat>
    requires Links(paths)
    requires c.Some? ==> c.value < |paths|
    decreases if c.Some? then c.value + 1 else 0
  {
    if c.None? then [] else [c.value] + SiblingList(paths, paths[c.value].nextSibling)
  }

  /** The nodes below index `n` whose parent is `p`, newest first. */
  function ChildrenBelow(paths: seq<MovePath>, p: nat, n: nat): seq<nat>
    requires n <= |paths|
  {
    if n == 0 then []
    else (if paths[n - 1].parent == Some(p) then [n - 1] else []) + ChildrenBelow(paths, p, n - 1)
  }

  /** Every node's child list holds exactly its children, newest first. */
  predicate ChildListsExact(paths: seq<MovePath>)
    requires Links(paths)
  {
    forall p :: 0 <= p < |paths| ==> SiblingList(paths, paths[p].firstChild) == ChildrenBelow(paths, p, |paths|)
  }

  /** The arena with a node for `place` pushed, threaded at the head of
      its parent's child list. */
  function PushPath(paths: seq<MovePath>, parent: Option<nat>, place: Place): (r: seq<MovePath>)
    requires parent.Some? ==> parent.value < |paths|
    ensures |r| == |paths| + 1
    ensures r[|paths|] == MovePath(if parent.Some? then paths[parent.value].firstChild else None, None, parent, place)
    ensures parent.Some? ==> r[parent.value] == paths[parent.value].(firstChild := Some(|paths|))
    ensures forall i :: 0 <= i < |paths| && parent != Some(i) ==> r[i] == paths[i]
  {
    match parent
    case None => paths + [MovePath(None, None, None, place)]
    case Some(p) =>
      paths[p := paths[p].(firstChild := Some(|paths|))] + [MovePath(paths[p].firstChild, None, parent, place)]
  }

  // ----- The index tables -----

  /** Indices of the moves of path `p`, in order. */
  function MovesOf(moves: seq<MoveOut>, p: nat): seq<nat> {
    if moves == [] then []
    else MovesOf(moves[..|moves| - 1], p) + (if moves[|moves| - 1].path == p then [|moves| - 1] else [])
  }

  /** Indices of the moves made at `loc`, in order. */
  function MovesAt(moves: seq<MoveOut>, loc: Location): seq<nat> {
    if moves == [] then []
    else MovesAt(moves[..|moves| - 1], loc) + (if moves[|moves| - 1].source == loc then [|moves| - 1] else [])
  }

  /** Indices of the inits of path `p`, in order. */
  function InitsOf(inits: seq<Init>, p: nat): seq<nat> {
    if inits == [] then []
    else InitsOf(inits[..|inits| - 1], p) + (if inits[|inits| - 1].path == p then [|inits| - 1] else [])
  }

  /** Indices of the inits made by the statement or terminator at `loc`. */
  function InitsAt(inits: seq<Init>, loc: Location): seq<nat> {
    if inits == [] then []
    else InitsAt(inits[..|inits| - 1], loc) + (if inits[|inits| - 1].location == Statement(loc) then [|inits| - 1] else [])
  }

  /** A location map has one (initially empty) entry per statement and
      terminator of the body. */
  predicate LocShaped(body: Body, lm: seq<seq<seq<nat>>>) {
    |lm| == |body.basicBlocks| &&
    forall b :: 0 <= b < |lm| ==> |lm[b]| == |body.basicBlocks[b].statements| + 1
  }

  predicate Indexed(d: MoveData) {
    (forall p :: 0 <= p < |d.pathMap| ==> d.pathMap[p] == MovesOf(d.moves, p)) &&
    (forall p :: 0 <= p < |d.initPathMap| ==> d.initPathMap[p] == InitsOf(d.inits, p)) &&
    (forall b, s :: 0 <= b < |d.locMap| && 0 <= s < |d.locMap[b]| ==>
       d.locMap[b][s] == MovesAt(d.moves, Location(b, s))) &&
    (forall b, s :: 0 <= b < |d.initLocMap| && 0 <= s < |d.initLocMap[b]| ==>
       d.initLocMap[b][s] == InitsAt(d.inits, Location(b, s)))
  }

  /** Roots are parentless, a memoised child is a child of its key's base,
      and no node is memoised twice. */
  predicate ValidLookup(lookup: MovePathLookup, paths: seq<MovePath>) {
    (forall l :: 0 <= l < |lookup.locals| && lookup.locals[l].Some? ==>
       lookup.locals[l].value < |paths| && paths[lookup.locals[l].value].parent.None?) &&
    (forall k :: k in lookup.projections ==>
       k.0 < |paths| && lookup.projections[k] < |paths| &&
       paths[lookup.projections[k]].parent == Some(k.0)) &&
    (forall k1, k2 :: k1 in lookup.projections && k2 in lookup.projections && k1 != k2 ==>
       lookup.projections[k1] != lookup.projections[k2])
  }

  /** The shape every builder operation needs to be defined: index tables
      as long as the arena, location maps shaped like the body, lookups
      pointing into the arena, deref chains well typed. */
  predicate Shaped(body: Body, d: MoveData) {
    |d.pathMap| == |d.movePaths| && |d.initPathMap| == |d.movePaths| &&
    LocShaped(body, d.locMap) && LocShaped(body, d.initLocMap) &&
    |d.revLookup.locals| == |body.localDecls| &&
    (forall l :: 0 <= l < |d.revLookup.locals| && d.revLookup.locals[l].Some? ==>
       d.revLookup.locals[l].value < |d.movePaths|) &&
    (forall k :: k in d.revLookup.projections ==> d.revLookup.projections[k] < |d.movePaths|) &&
    ChainsTyped(body, d.revLookup.unDerefer)
  }

  /** The invariant the builder keeps after every operation. */
  predicate ValidData(body: Body, d: MoveData) {
    Shaped(body, d) &&
    Links(d.movePaths) && ChildListsExact(d.movePaths) &&
    ValidLookup(d.revLookup, d.movePaths) &&
    (forall i :: 0 <= i < |d.moves| ==> d.moves[i].path < |d.movePaths|) &&
    (forall i :: 0 <= i < |d.inits| ==> d.inits[i].path < |d.movePaths|) &&
    Indexed(d)
  }
}
