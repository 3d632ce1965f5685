/** Facts about sibling lists and index tables that the builder's
    invariant rests on. */
module MovePathLemmas {
  import opened Wrappers
  import opened Mir
  import opened MovePaths

  /** A sibling list only reads next-sibling links, so it survives any
      change that keeps those links of the nodes it can reach. */
  lemma {:induction false} SiblingListFrame(paths: seq<MovePath>, paths': seq<MovePath>, c: Option<nat>)
    requires Links(paths) && Links(paths') && |paths| <= |paths'|
    requires forall i :: 0 <= i < |paths| ==> paths'[i].nextSibling == paths[i].nextSibling
    requires c.Some? ==> c.value < |paths|
    ensures SiblingList(paths', c) == SiblingList(paths, c)
    decreases if c.Some? then c.value + 1 else 0
  {
    if c.Some? {
      SiblingListFrame(paths, paths', paths[c.value].nextSibling);
    }
  }

  lemma {:induction false} ChildrenBelowFrame(paths: seq<MovePath>, paths': seq<MovePath>, p: nat, n: nat)
    requires n <= |paths| && n <= |paths'|
    requires forall i :: 0 <= i < n ==> paths'[i].parent == paths[i].parent
    ensures ChildrenBelow(paths', p, n) == ChildrenBelow(paths, p, n)
  {
    if n > 0 {
      ChildrenBelowFrame(paths, paths', p, n - 1);
    }
  }

  /** A node has no children among the nodes created no later than itself. */
  lemma {:induction false} ChildrenBelowEarly(paths: seq<MovePath>, p: nat, n: nat)
    requires Links(paths) && n <= |paths| && n <= p + 1
    ensures ChildrenBelow(paths, p, n) == []
  {
    if n > 0 {
      ChildrenBelowEarly(paths, p, n - 1);
    }
  }

  /** Pushing a node keeps the links ordered and changes no old node's
      parent, place or next sibling. */
  lemma PushPathLinks(paths: seq<MovePath>, parent: Option<nat>, place: Place)
    requires Links(paths)
    requires parent.Some? ==> parent.value < |paths|
    ensures Links(PushPath(paths, parent, place))
    ensures forall i :: 0 <= i < |paths| ==>
              PushPath(paths, parent, place)[i].nextSibling == paths[i].nextSibling &&
              PushPath(paths, parent, place)[i].parent == paths[i].parent &&
              PushPath(paths, parent, place)[i].place == paths[i].place
  {
    var paths' := PushPath(paths, parent, place);
    forall i | 0 <= i < |paths'|
      ensures (paths'[i].parent.Some? ==> paths'[i].parent.value < i) &&
              (paths'[i].nextSibling.Some? ==> paths'[i].nextSibling.value < i) &&
              (paths'[i].firstChild.Some? ==> i < paths'[i].firstChild.value < |paths'|)
    {
      if i < |paths| && parent != Some(i) {
        assert paths'[i] == paths[i];
      }
    }
  }

  /** The child list of one node after a push. */
  lemma PushPathChildList(paths: seq<MovePath>, parent: Option<nat>, place: Place, q: nat)
    requires Links(paths) && ChildListsExact(paths)
    requires parent.Some? ==> parent.value < |paths|
    requires Links(PushPath(paths, parent, place))
    requires forall i :: 0 <= i < |paths| ==>
               PushPath(paths, parent, place)[i].nextSibling == paths[i].nextSibling &&
               PushPath(paths, parent, place)[i].parent == paths[i].parent
    requires q <= |paths|
    ensures SiblingList(PushPath(paths, parent, place), PushPath(paths, parent, place)[q].firstChild) ==
            ChildrenBelow(PushPath(paths, parent, place), q, |paths| + 1)
  {
    var n := |paths|;
    var paths' := PushPath(paths, parent, place);
    if q == n {
      ChildrenBelowEarly(paths', q, n + 1);
    } else {
      ChildrenBelowFrame(paths, paths', q, n);
      assert SiblingList(paths, paths[q].firstChild) == ChildrenBelow(paths, q, n);
      SiblingListFrame(paths, paths', paths[q].firstChild);
      if parent == Some(q) {
        assert paths'[q].firstChild == Some(n);
        assert paths'[n].nextSibling == paths[q].firstChild;
        assert SiblingList(paths', Some(n)) == [n] + SiblingList(paths', paths[q].firstChild);
        assert ChildrenBelow(paths', q, n + 1) == [n] + ChildrenBelow(paths', q, n);
      } else {
        assert paths'[q] == paths[q];
        assert ChildrenBelow(paths', q, n + 1) == ChildrenBelow(paths', q, n);
      }
    }
  }

  /** Head insertion keeps every child list exact. */
  lemma PushPathForest(paths: seq<MovePath>, parent: Option<nat>, place: Place)
    requires Links(paths) && ChildListsExact(paths)
    requires parent.Some? ==> parent.value < |paths|
    ensures Links(PushPath(paths, parent, place)) && ChildListsExact(PushPath(paths, parent, place))
  {
    PushPathLinks(paths, parent, place);
    forall q | 0 <= q < |paths| + 1
      ensures SiblingList(PushPath(paths, parent, place), PushPath(paths, parent, place)[q].firstChild) ==
              ChildrenBelow(PushPath(paths, parent, place), q, |paths| + 1)
    {
      PushPathChildList(paths, parent, place, q);
    }
  }

  /** Appending a move extends exactly the lists of its path and location. */
  lemma MovesAppend(moves: seq<MoveOut>, m: MoveOut)
    ensures forall p :: MovesOf(moves + [m], p) == MovesOf(moves, p) + (if m.path == p then [|moves|] else [])
    ensures forall loc :: MovesAt(moves + [m], loc) == MovesAt(moves, loc) + (if m.source == loc then [|moves|] else [])
  {
    assert (moves + [m])[..|moves|] == moves;
  }

  /** Appending an init extends exactly the lists of its path and location. */
  lemma InitsAppend(inits: seq<Init>, x: Init)
    ensures forall p :: InitsOf(inits + [x], p) == InitsOf(inits, p) + (if x.path == p then [|inits|] else [])
    ensures forall loc :: InitsAt(inits + [x], loc) == InitsAt(inits, loc) + (if x.location == Statement(loc) then [|inits|] else [])
  {
    assert (inits + [x])[..|inits|] == inits;
  }

  /** A path no move mentions has an empty move list. */
  lemma {:induction false} MovesOfUnused(moves: seq<MoveOut>, p: nat)
    requires forall i :: 0 <= i < |moves| ==> moves[i].path != p
    ensures MovesOf(moves, p) == []
  {
    if moves != [] {
      MovesOfUnused(moves[..|moves| - 1], p);
    }
  }

  lemma {:induction false} InitsOfUnused(inits: seq<Init>, p: nat)
    requires forall i :: 0 <= i < |inits| ==> inits[i].path != p
    ensures InitsOf(inits, p) == []
  {
    if inits != [] {
      InitsOfUnused(inits[..|inits| - 1], p);
    }
  }

  /** Each entry of a path's move list is a move of that path. */
  lemma {:induction false} MovesOfSound(moves: seq<MoveOut>, p: nat, k: nat)
    requires k < |MovesOf(moves, p)|
    ensures MovesOf(moves, p)[k] < |moves| && moves[MovesOf(moves, p)[k]].path == p
  {
    var front := moves[..|moves| - 1];
    if k < |MovesOf(front, p)| {
      MovesOfSound(front, p, k);
    }
  }

  /** Each move appears in its path's move list. */
  lemma {:induction false} MovesOfComplete(moves: seq<MoveOut>, i: nat)
    requires i < |moves|
    ensures i in MovesOf(moves, moves[i].path)
  {
    var front := moves[..|moves| - 1];
    if i < |moves| - 1 {
      MovesOfComplete(front, i);
      assert front[i] == moves[i];
    }
  }

  lemma StepsTypedConcat(body: Body, a: seq<Step>, b: seq<Step>)
    requires StepsTyped(body, a) && StepsTyped(body, b)
    ensures StepsTyped(body, a + b)
  {
    forall k | 0 <= k < |a + b|
      ensures StepTyped((a + b)[k].elem, TyOf(body, (a + b)[k].base))
    {
      if k >= |a| {
        assert (a + b)[k] == b[k - |a|];
      }
    }
  }

  lemma {:induction false} ChainStepsTyped(body: Body, chain: seq<Place>)
    requires forall i :: 0 <= i < |chain| ==> WellTypedPlace(body, chain[i])
    ensures StepsTyped(body, ChainSteps(chain))
  {
    if chain != [] {
      ChainStepsTyped(body, chain[1..]);
      StepsTypedConcat(body, PlaceSteps(chain[0]), ChainSteps(chain[1..]));
    }
  }

  /** Every step walked for a well-typed place is one the classifier has a rule for. */
  lemma IterProjectionsTyped(body: Body, ud: map<Local, seq<Place>>, place: Place)
    requires ChainsTyped(body, ud) && WellTypedPlace(body, place)
    ensures StepsTyped(body, IterProjections(ud, place))
  {
    var chain := DerefChain(ud, place.local);
    ChainStepsTyped(body, chain);
    StepsTypedConcat(body, ChainSteps(chain), PlaceSteps(place));
  }

  /** Recording a deref temporary keeps every chain well typed. */
  lemma InsertChainTyped(body: Body, ud: map<Local, seq<Place>>, local: Local, reffed: Place)
    requires ChainsTyped(body, ud) && WellTypedPlace(body, reffed)
    ensures ChainsTyped(body, InsertChain(ud, local, reffed))
  {
    var ud' := InsertChain(ud, local, reffed);
    forall l, i | l in ud' && 0 <= i < |ud'[l]|
      ensures WellTypedPlace(body, ud'[l][i])
    {
      if l == local {
        var chain := DerefChain(ud, reffed.local);
        assert ud'[l] == chain + [reffed];
        if i < |chain| {
          assert ud'[l][i] == chain[i];
        }
      }
    }
  }
  // ----- the lookup keys -----

  /** Two projections that only differ in what lifting forgets: the type of
      a field or cast and the operand of an index. */
  predicate SameKey(e1: ProjElem, e2: ProjElem) {
    match e1
    case Deref => e2.Deref?
    case Field(f, _) => e2.Field? && e2.field == f
    case Index(_) => e2.Index?
    case ConstantIndex(_, _, _) => e2 == e1
    case Subslice(_, _, _) => e2 == e1
    case Downcast(v) => e2.Downcast? && e2.variant == v
    case OpaqueCast(_) => e2.OpaqueCast?
    case Subtype(_) => e2.Subtype?
  }

  /** Two projections share a memo key exactly when they differ only in
      what lifting forgets. */
  lemma LiftKey(e1: ProjElem, e2: ProjElem)
    ensures Lift(e1) == Lift(e2) <==> SameKey(e1, e2)
  {
  }

  // ----- the steps of a place -----

  /** The steps of a prefix of a place are the first steps of the place. */
  lemma PlaceStepsPrefix(p: Place, k: nat)
    requires k <= |p.projection|
    ensures PlaceSteps(Prefix(p, k)) == PlaceSteps(p)[..k]
  {
    forall j | 0 <= j < k ensures Prefix(Prefix(p, k), j) == Prefix(p, j) {
      assert p.projection[..k][..j] == p.projection[..j];
    }
  }

  /** The steps walked for a prefix of a place are the first steps walked
      for the place: the chain of its local, then its own first steps. */
  lemma IterProjectionsPrefix(ud: map<Local, seq<Place>>, place: Place, k: nat)
    requires k <= |place.projection|
    ensures var n := |ChainSteps(DerefChain(ud, place.local))|;
            |IterProjections(ud, place)| == n + |place.projection| &&
            IterProjections(ud, Prefix(place, k)) == IterProjections(ud, place)[..n + k]
  {
    var chain := ChainSteps(DerefChain(ud, place.local));
    PlaceStepsPrefix(place, k);
    assert (chain + PlaceSteps(place))[..|chain| + k] == chain + PlaceSteps(place)[..k];
  }

  /** A lookup that gets to the end of the steps got through each prefix. */
  lemma {:induction false} FindFromPrefix(m: map<ProjKey, nat>, result: nat, steps: seq<Step>, k: nat)
    requires k <= |steps| && FindFrom(m, result, steps).Exact?
    ensures FindFrom(m, result, steps[..k]).Exact?
    decreases k
  {
    if k > 0 {
      assert steps[..k][1..] == steps[1..][..k - 1];
      FindFromPrefix(m, m[(result, Lift(steps[0].elem))], steps[1..], k - 1);
    }
  }

  /** A place has a path in the lookup only when each of its prefixes has one. */
  lemma FindPrefix(lookup: MovePathLookup, place: Place, k: nat)
    requires place.local < |lookup.locals| && k <= |place.projection|
    requires Find(lookup, place).Exact?
    ensures Find(lookup, Prefix(place, k)).Exact?
  {
    var root := lookup.locals[place.local].value;
    IterProjectionsPrefix(lookup.unDerefer, place, k);
    FindFromPrefix(lookup.projections, root, IterProjections(lookup.unDerefer, place),
                   |ChainSteps(DerefChain(lookup.unDerefer, place.local))| + k);
  }
}
