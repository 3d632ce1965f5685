/**
 * What the builder's operations promise beyond keeping the invariant:
 * memoised paths are found again and never duplicated, a place inside a
 * union moves the union, the first illegal projection decides the error,
 * a subslice moves each of its elements, and each kind of statement and
 * terminator records the moves and inits it should.
 */
module GatherLemmas {
  import opened Wrappers
  import opened Mir
  import opened MovePaths
  import opened MovePathLemmas
  import opened Legality
  import opened Gather

  /** Memo entries of `d` are still there, with the same value, in `d'`. */
  predicate MemoKept(d: MoveData, d': MoveData) {
    forall k :: k in d.revLookup.projections ==>
      k in d'.revLookup.projections && d'.revLookup.projections[k] == d.revLookup.projections[k]
  }

  /** A projection step the builder can track. */
  predicate StepLegal(body: Body, s: Step) {
    StepTyped(s.elem, TyOf(body, s.base)) && Classify(s, TyOf(body, s.base)).Legal?
  }

  /** A legal step that neither enters a union nor is inside one: the walk
      creates (or finds) its child and goes on from there. */
  predicate StepPlain(body: Body, s: Step) {
    StepTyped(s.elem, TyOf(body, s.base)) && Classify(s, TyOf(body, s.base)) == Legal(false)
  }

  /** A legal step into a field of a union. */
  predicate StepEntersUnion(body: Body, s: Step) {
    StepTyped(s.elem, TyOf(body, s.base)) && Classify(s, TyOf(body, s.base)) == Legal(true)
  }

  lemma StepsTypedTail(body: Body, steps: seq<Step>)
    requires StepsTyped(body, steps) && steps != []
    ensures StepsTyped(body, steps[1..])
  {
    forall k | 0 <= k < |steps[1..]| ensures steps[1..][k] == steps[k + 1] { }
  }

  lemma StepsTypedSplit(body: Body, steps: seq<Step>, k: nat)
    requires StepsTyped(body, steps) && k <= |steps|
    ensures StepsTyped(body, steps[..k]) && StepsTyped(body, steps[k..])
  {
    forall j | 0 <= j < |steps[k..]| ensures steps[k..][j] == steps[k + j] { }
  }

  // ----- add_move_path -----

  /** Asking again for a child that was just added (or found) returns the
      same index and creates nothing. */
  lemma AddMovePathAgain(body: Body, d: MoveData, base: nat, elem: ProjElem, place: Place, place': Place)
    requires Shaped(body, d) && base < |d.movePaths|
    ensures var (d1, child) := AddMovePath(body, d, base, elem, place);
            AddMovePath(body, d1, base, elem, place') == (d1, child)
  {
  }

  // ----- move_path_for -----

  /** One legal step of the walk: the memoised child is taken unless the
      walk is (or now gets) inside a union. */
  lemma WalkNext(body: Body, d: MoveData, loc: Location, base: nat, unionPath: Option<nat>, steps: seq<Step>,
                 unionPath': Option<nat>)
    requires Shaped(body, d) && base < |d.movePaths|
    requires unionPath.Some? ==> unionPath.value < |d.movePaths|
    requires StepsTyped(body, steps) && steps != []
    requires StepLegal(body, steps[0])
    requires unionPath' == if unionPath.None? && Classify(steps[0], TyOf(body, steps[0].base)).entersUnion
                           then Some(base) else unionPath
    ensures StepsTyped(body, steps[1..])
    ensures unionPath'.None? ==>
              Walk(body, d, loc, base, unionPath, steps) ==
              Walk(body, AddMovePath(body, d, base, steps[0].elem, Project(steps[0].base, steps[0].elem)).0, loc,
                   AddMovePath(body, d, base, steps[0].elem, Project(steps[0].base, steps[0].elem)).1, None, steps[1..])
    ensures unionPath'.Some? ==>
              unionPath'.value < |d.movePaths| &&
              Walk(body, d, loc, base, unionPath, steps) == Walk(body, d, loc, base, unionPath', steps[1..])
  {
    StepsTypedTail(body, steps);
  }

  lemma {:induction false} WalkKeepsMemo(body: Body, d: MoveData, loc: Location, base: nat,
                                         unionPath: Option<nat>, steps: seq<Step>)
    requires Shaped(body, d) && base < |d.movePaths|
    requires unionPath.Some? ==> unionPath.value < |d.movePaths|
    requires StepsTyped(body, steps)
    ensures MemoKept(d, Walk(body, d, loc, base, unionPath, steps).0)
    decreases |steps|
  {
    if steps != [] {
      var step := steps[0];
      StepsTypedTail(body, steps);
      match Classify(step, TyOf(body, step.base))
      case Illegal(_) =>
      case Legal(entersUnion) =>
        var unionPath' := if unionPath.None? && entersUnion then Some(base) else unionPath;
        if unionPath'.None? {
          var (d1, child) := AddMovePath(body, d, base, step.elem, Project(step.base, step.elem));
          WalkKeepsMemo(body, d1, loc, child, None, steps[1..]);
        } else {
          WalkKeepsMemo(body, d, loc, base, unionPath', steps[1..]);
        }
    }
  }

  /** Once inside a union no node is created, and the move is of the union
      itself unless a later step is illegal. */
  lemma {:induction false} WalkInUnion(body: Body, d: MoveData, loc: Location, base: nat,
                                       unionPath: Option<nat>, steps: seq<Step>)
    requires Shaped(body, d) && base < |d.movePaths|
    requires unionPath.Some? && unionPath.value < |d.movePaths|
    requires StepsTyped(body, steps)
    ensures Walk(body, d, loc, base, unionPath, steps).0 == d
    ensures Walk(body, d, loc, base, unionPath, steps).1 == Err(UnionMove(unionPath.value)) ||
            (Walk(body, d, loc, base, unionPath, steps).1.Err? &&
             Walk(body, d, loc, base, unionPath, steps).1.error.IllegalMove?)
    ensures (forall k :: 0 <= k < |steps| ==> StepLegal(body, steps[k])) ==>
              Walk(body, d, loc, base, unionPath, steps).1 == Err(UnionMove(unionPath.value))
    decreases |steps|
  {
    if steps != [] {
      StepsTypedTail(body, steps);
      WalkInUnion(body, d, loc, base, unionPath, steps[1..]);
      if forall k :: 0 <= k < |steps| ==> StepLegal(body, steps[k]) {
        assert StepLegal(body, steps[0]);
        assert forall k :: 0 <= k < |steps[1..]| ==> StepLegal(body, steps[1..][k]) by {
          forall k | 0 <= k < |steps[1..]| ensures StepLegal(body, steps[1..][k]) {
            assert steps[1..][k] == steps[k + 1];
          }
        }
      }
    }
  }

  /** The first illegal step decides the error, whatever follows it. */
  lemma {:induction false} WalkFirstIllegal(body: Body, d: MoveData, loc: Location, base: nat,
                                            unionPath: Option<nat>, steps: seq<Step>, k: nat)
    requires Shaped(body, d) && base < |d.movePaths|
    requires unionPath.Some? ==> unionPath.value < |d.movePaths|
    requires StepsTyped(body, steps)
    requires k < |steps| && !StepLegal(body, steps[k])
    requires forall j :: 0 <= j < k ==> StepLegal(body, steps[j])
    ensures StepTyped(steps[k].elem, TyOf(body, steps[k].base))
    ensures Walk(body, d, loc, base, unionPath, steps).1 ==
            Err(IllegalMove(loc, Classify(steps[k], TyOf(body, steps[k].base)).kind))
    decreases |steps|
  {
    StepsTypedTail(body, steps);
    if k > 0 {
      var step := steps[0];
      assert StepLegal(body, steps[0]);
      assert steps[1..][k - 1] == steps[k];
      assert forall j :: 0 <= j < k - 1 ==> StepLegal(body, steps[1..][j]) by {
        forall j | 0 <= j < k - 1 ensures StepLegal(body, steps[1..][j]) {
          assert steps[1..][j] == steps[j + 1];
        }
      }
      var entersUnion := Classify(step, TyOf(body, step.base)).entersUnion;
      var unionPath' := if unionPath.None? && entersUnion then Some(base) else unionPath;
      if unionPath'.None? {
        var (d1, child) := AddMovePath(body, d, base, step.elem, Project(step.base, step.elem));
        WalkFirstIllegal(body, d1, loc, child, None, steps[1..], k - 1);
      } else {
        WalkFirstIllegal(body, d, loc, base, unionPath', steps[1..], k - 1);
      }
    }
  }

  /** The steps before `k` being legal, so are those of the tail before `k - 1`. */
  lemma LegalPrefixTail(body: Body, steps: seq<Step>, k: nat)
    requires 0 < k < |steps|
    requires forall j :: 0 <= j < k ==> StepLegal(body, steps[j])
    ensures StepLegal(body, steps[0]) && steps[1..][k - 1] == steps[k]
    ensures steps[..k][1..] == steps[1..][..k - 1]
    ensures forall j :: 0 <= j < k - 1 ==> StepLegal(body, steps[1..][j])
  {
    forall j | 0 <= j < k - 1 ensures StepLegal(body, steps[1..][j]) {
      assert steps[1..][j] == steps[j + 1];
    }
  }

  /** The walk stops at the first illegal step: the data it leaves is that
      of walking only the steps before it, so nothing is created from that
      step on. */
  lemma {:induction false} WalkStops(body: Body, d: MoveData, loc: Location, base: nat,
                                     unionPath: Option<nat>, steps: seq<Step>, k: nat)
    requires Shaped(body, d) && base < |d.movePaths|
    requires unionPath.Some? ==> unionPath.value < |d.movePaths|
    requires StepsTyped(body, steps)
    requires k < |steps| && !StepLegal(body, steps[k])
    requires forall j :: 0 <= j < k ==> StepLegal(body, steps[j])
    ensures StepsTyped(body, steps[..k])
    ensures Walk(body, d, loc, base, unionPath, steps).0 == Walk(body, d, loc, base, unionPath, steps[..k]).0
    decreases |steps|
  {
    StepsTypedSplit(body, steps, k);
    if k > 0 {
      var step := steps[0];
      LegalPrefixTail(body, steps, k);
      var unionPath' := if unionPath.None? && Classify(step, TyOf(body, step.base)).entersUnion
                        then Some(base) else unionPath;
      WalkNext(body, d, loc, base, unionPath, steps, unionPath');
      WalkNext(body, d, loc, base, unionPath, steps[..k], unionPath');
      if unionPath'.None? {
        var (d1, child) := AddMovePath(body, d, base, step.elem, Project(step.base, step.elem));
        WalkStops(body, d1, loc, child, None, steps[1..], k - 1);
      } else {
        WalkStops(body, d, loc, base, unionPath', steps[1..], k - 1);
      }
    }
  }

  /** A walk that ends in a path has memoised every step of it: looking
      the steps up again finds exactly that path. */
  lemma {:induction false} WalkFind(body: Body, d: MoveData, loc: Location, base: nat, steps: seq<Step>)
    requires Shaped(body, d) && base < |d.movePaths|
    requires StepsTyped(body, steps)
    ensures Walk(body, d, loc, base, None, steps).1.Ok? ==>
              FindFrom(Walk(body, d, loc, base, None, steps).0.revLookup.projections, base, steps) ==
              Exact(Walk(body, d, loc, base, None, steps).1.value)
    decreases |steps|
  {
    if steps != [] {
      var step := steps[0];
      StepsTypedTail(body, steps);
      match Classify(step, TyOf(body, step.base))
      case Illegal(_) =>
      case Legal(entersUnion) =>
        if entersUnion {
          WalkInUnion(body, d, loc, base, Some(base), steps[1..]);
        } else {
          var (d1, child) := AddMovePath(body, d, base, step.elem, Project(step.base, step.elem));
          WalkFind(body, d1, loc, child, steps[1..]);
          WalkKeepsMemo(body, d1, loc, child, None, steps[1..]);
        }
    }
  }

  /** Walking the same steps again over the data the first walk left
      behind changes nothing and gives the same answer. */
  lemma {:induction false} WalkAgain(body: Body, d: MoveData, loc: Location, base: nat,
                                     unionPath: Option<nat>, steps: seq<Step>)
    requires Shaped(body, d) && base < |d.movePaths|
    requires unionPath.Some? ==> unionPath.value < |d.movePaths|
    requires StepsTyped(body, steps)
    ensures var (d1, r) := Walk(body, d, loc, base, unionPath, steps);
            Walk(body, d1, loc, base, unionPath, steps) == (d1, r)
    decreases |steps|
  {
    if steps != [] {
      var step := steps[0];
      StepsTypedTail(body, steps);
      match Classify(step, TyOf(body, step.base))
      case Illegal(_) =>
      case Legal(entersUnion) =>
        var unionPath' := if unionPath.None? && entersUnion then Some(base) else unionPath;
        if unionPath'.None? {
          var (d1, child) := AddMovePath(body, d, base, step.elem, Project(step.base, step.elem));
          var d2 := Walk(body, d1, loc, child, None, steps[1..]).0;
          WalkKeepsMemo(body, d1, loc, child, None, steps[1..]);
          assert AddMovePath(body, d2, base, step.elem, Project(step.base, step.elem)) == (d2, child);
          WalkAgain(body, d1, loc, child, None, steps[1..]);
        } else {
          WalkAgain(body, d, loc, base, unionPath', steps[1..]);
        }
    }
  }

  /** move_path_for is idempotent: a second call on the same place finds
      what the first created. */
  lemma MovePathForAgain(body: Body, d: MoveData, loc: Location, place: Place)
    requires Shaped(body, d) && WellTypedPlace(body, place)
    ensures var (d1, r) := MovePathFor(body, d, loc, place);
            MovePathFor(body, d1, loc, place) == (d1, r)
  {
    if d.revLookup.locals[place.local].Some? {
      IterProjectionsTyped(body, d.revLookup.unDerefer, place);
      WalkAgain(body, d, loc, d.revLookup.locals[place.local].value, None,
                IterProjections(d.revLookup.unDerefer, place));
    }
  }

  /** The path move_path_for returns is the one lookup finds afterwards. */
  lemma MovePathForFind(body: Body, d: MoveData, loc: Location, place: Place)
    requires Shaped(body, d) && WellTypedPlace(body, place)
    ensures MovePathFor(body, d, loc, place).1.Ok? ==>
              Find(MovePathFor(body, d, loc, place).0.revLookup, place) == Exact(MovePathFor(body, d, loc, place).1.value)
  {
    if d.revLookup.locals[place.local].Some? {
      IterProjectionsTyped(body, d.revLookup.unDerefer, place);
      WalkFind(body, d, loc, d.revLookup.locals[place.local].value,
               IterProjections(d.revLookup.unDerefer, place));
    }
  }

  /** A place with an illegal step has no move path: the first such step
      is reported at `loc`, and only the paths of the steps before it are
      created. */
  lemma MovePathForIllegal(body: Body, d: MoveData, loc: Location, place: Place, k: nat)
    requires Shaped(body, d) && WellTypedPlace(body, place)
    requires d.revLookup.locals[place.local].Some?
    requires k < |IterProjections(d.revLookup.unDerefer, place)|
    requires !StepLegal(body, IterProjections(d.revLookup.unDerefer, place)[k])
    requires forall j :: 0 <= j < k ==> StepLegal(body, IterProjections(d.revLookup.unDerefer, place)[j])
    ensures var s := IterProjections(d.revLookup.unDerefer, place)[k];
            StepTyped(s.elem, TyOf(body, s.base)) &&
            MovePathFor(body, d, loc, place).1 == Err(IllegalMove(loc, Classify(s, TyOf(body, s.base)).kind))
    ensures var steps := IterProjections(d.revLookup.unDerefer, place);
            StepsTyped(body, steps[..k]) &&
            MovePathFor(body, d, loc, place).0 ==
              Walk(body, d, loc, d.revLookup.locals[place.local].value, None, steps[..k]).0
  {
    IterProjectionsTyped(body, d.revLookup.unDerefer, place);
    WalkFirstIllegal(body, d, loc, d.revLookup.locals[place.local].value, None,
                     IterProjections(d.revLookup.unDerefer, place), k);
    WalkStops(body, d, loc, d.revLookup.locals[place.local].value, None,
              IterProjections(d.revLookup.unDerefer, place), k);
  }
  // ----- unions, seen from move_path_for -----

  /** Walking plain steps only creates or finds their paths: the walk of
      the whole is the walk of the first `k` steps, continued from the
      path they end in. */
  lemma {:induction false} WalkPlainPrefix(body: Body, d: MoveData, loc: Location, base: nat,
                                           steps: seq<Step>, k: nat)
    requires Shaped(body, d) && base < |d.movePaths|
    requires StepsTyped(body, steps) && k <= |steps|
    requires forall j :: 0 <= j < k ==> StepPlain(body, steps[j])
    ensures StepsTyped(body, steps[..k]) && StepsTyped(body, steps[k..])
    ensures var pre := Walk(body, d, loc, base, None, steps[..k]);
            pre.1.Ok? && Walk(body, d, loc, base, None, steps) == Walk(body, pre.0, loc, pre.1.value, None, steps[k..])
    decreases k
  {
    StepsTypedSplit(body, steps, k);
    if k == 0 {
      assert steps[..0] == [] && steps[0..] == steps;
    } else {
      var step := steps[0];
      assert StepPlain(body, step);
      forall j | 0 <= j < k - 1 ensures StepPlain(body, steps[1..][j]) {
        assert steps[1..][j] == steps[j + 1];
      }
      assert steps[..k][1..] == steps[1..][..k - 1] && steps[1..][k - 1..] == steps[k..];
      WalkNext(body, d, loc, base, None, steps, None);
      WalkNext(body, d, loc, base, None, steps[..k], None);
      var (d1, child) := AddMovePath(body, d, base, step.elem, Project(step.base, step.elem));
      WalkPlainPrefix(body, d1, loc, child, steps[1..], k - 1);
    }
  }

  /** The walk enters a union at step `k`: from there on it goes on with
      the path of the steps before `k` as the union path. */
  lemma WalkEntersUnion(body: Body, d: MoveData, loc: Location, base: nat, steps: seq<Step>, k: nat)
    requires Shaped(body, d) && base < |d.movePaths|
    requires StepsTyped(body, steps) && k < |steps|
    requires forall j :: 0 <= j < k ==> StepPlain(body, steps[j])
    requires StepEntersUnion(body, steps[k])
    ensures StepsTyped(body, steps[..k]) && StepsTyped(body, steps[k + 1..])
    ensures var pre := Walk(body, d, loc, base, None, steps[..k]);
            pre.1.Ok? &&
            Walk(body, d, loc, base, None, steps) ==
              Walk(body, pre.0, loc, pre.1.value, Some(pre.1.value), steps[k + 1..])
  {
    WalkPlainPrefix(body, d, loc, base, steps, k);
    StepsTypedSplit(body, steps, k + 1);
    var pre := Walk(body, d, loc, base, None, steps[..k]);
    assert steps[k..][0] == steps[k] && steps[k..][1..] == steps[k + 1..];
    WalkNext(body, pre.0, loc, pre.1.value, None, steps[k..], Some(pre.1.value));
  }

  /** A place whose projections enter a union at step `k`, every step before
      being plain: the paths up to the union are created and the union's
      path found again by lookup, nothing below the union is created, and
      the result is a move of the union itself, unless a later step is
      illegal. */
  lemma MovePathForUnion(body: Body, d: MoveData, loc: Location, place: Place, k: nat)
    requires Shaped(body, d) && WellTypedPlace(body, place)
    requires d.revLookup.locals[place.local].Some?
    requires k < |IterProjections(d.revLookup.unDerefer, place)|
    requires forall j :: 0 <= j < k ==> StepPlain(body, IterProjections(d.revLookup.unDerefer, place)[j])
    requires StepEntersUnion(body, IterProjections(d.revLookup.unDerefer, place)[k])
    ensures var steps := IterProjections(d.revLookup.unDerefer, place);
            var root := d.revLookup.locals[place.local].value;
            StepsTyped(body, steps[..k]) &&
            var pre := Walk(body, d, loc, root, None, steps[..k]);
            var (after, r) := MovePathFor(body, d, loc, place);
            pre.1.Ok? && after == pre.0 &&
            FindFrom(after.revLookup.projections, root, steps[..k]) == Exact(pre.1.value) &&
            (r == Err(UnionMove(pre.1.value)) || (r.Err? && r.error.IllegalMove?)) &&
            ((forall j :: k < j < |steps| ==> StepLegal(body, steps[j])) ==> r == Err(UnionMove(pre.1.value)))
  {
    var steps := IterProjections(d.revLookup.unDerefer, place);
    var root := d.revLookup.locals[place.local].value;
    IterProjectionsTyped(body, d.revLookup.unDerefer, place);
    WalkEntersUnion(body, d, loc, root, steps, k);
    var pre := Walk(body, d, loc, root, None, steps[..k]);
    WalkFind(body, d, loc, root, steps[..k]);
    var rest := steps[k + 1..];
    WalkInUnion(body, pre.0, loc, pre.1.value, Some(pre.1.value), rest);
    if forall j :: k < j < |steps| ==> StepLegal(body, steps[j]) {
      forall j | 0 <= j < |rest| ensures StepLegal(body, rest[j]) {
        assert rest[j] == steps[k + 1 + j];
      }
    }
  }

  /** A place whose projections are all plain steps gets a move path. */
  lemma MovePathForPlain(body: Body, d: MoveData, loc: Location, place: Place)
    requires Shaped(body, d) && WellTypedPlace(body, place)
    requires d.revLookup.locals[place.local].Some?
    requires forall j :: 0 <= j < |IterProjections(d.revLookup.unDerefer, place)| ==>
               StepPlain(body, IterProjections(d.revLookup.unDerefer, place)[j])
    ensures MovePathFor(body, d, loc, place).1.Ok?
  {
    var steps := IterProjections(d.revLookup.unDerefer, place);
    IterProjectionsTyped(body, d.revLookup.unDerefer, place);
    WalkPlainPrefix(body, d, loc, d.revLookup.locals[place.local].value, steps, |steps|);
    assert steps[..|steps|] == steps && steps[|steps|..] == [];
  }
  /** For a local that aliases no deref temporary, the union entered at
      step `k` is the prefix of the place of length `k`: lookup finds its
      path afterwards, and it is the path of the union move. */
  lemma MovePathForUnionFind(body: Body, d: MoveData, loc: Location, place: Place, k: nat)
    requires Shaped(body, d) && WellTypedPlace(body, place)
    requires d.revLookup.locals[place.local].Some? && place.local !in d.revLookup.unDerefer
    requires k < |place.projection|
    requires forall j :: 0 <= j < k ==> StepPlain(body, PlaceSteps(place)[j])
    requires StepEntersUnion(body, PlaceSteps(place)[k])
    ensures var (after, r) := MovePathFor(body, d, loc, place);
            place.local < |after.revLookup.locals| &&
            Find(after.revLookup, Prefix(place, k)).Exact? &&
            (r == Err(UnionMove(Find(after.revLookup, Prefix(place, k)).path)) ||
             (r.Err? && r.error.IllegalMove?))
  {
    var ud := d.revLookup.unDerefer;
    var steps := IterProjections(ud, place);
    assert steps == PlaceSteps(place) by {
      assert DerefChain(ud, place.local) == [] && ChainSteps([]) == [];
    }
    MovePathForUnion(body, d, loc, place, k);
    var root := d.revLookup.locals[place.local].value;
    var pre := Walk(body, d, loc, root, None, steps[..k]);
    var after := MovePathFor(body, d, loc, place).0;
    PlaceStepsPrefix(place, k);
    assert after.revLookup.unDerefer == ud && after.revLookup.locals[place.local] == Some(root);
    assert IterProjections(ud, Prefix(place, k)) == steps[..k] by {
      assert DerefChain(ud, place.local) == [] && ChainSteps([]) == [];
    }
    assert Find(after.revLookup, Prefix(place, k)) == Exact(pre.1.value);
  }
}
