/** Reachability through pair references, the relation the mark phase decides.
    It is stated over the kinds of the objects only, so that changing mark
    bits or list links leaves it literally unchanged. */
module Reachability {
  import opened Objects

  /** `y` is the head or the tail of pair `x`. */
  ghost predicate Child(kind: seq<Kind>, x: Ref, y: Ref)
  {
    && x < |kind|
    && kind[x].CompositeObj?
    && (kind[x].headValue == Some(y) || kind[x].tailValue == Some(y))
  }

  /** No pair refers outside the arena. */
  ghost predicate RefsInRange(kind: seq<Kind>)
  {
    forall x: Ref, y: Ref :: Child(kind, x, y) ==> y < |kind|
  }

  /** `S` is closed under taking children. */
  ghost predicate ChildrenIn(kind: seq<Kind>, S: set<Ref>)
  {
    forall x: Ref, y: Ref :: x in S && Child(kind, x, y) ==> y in S
  }

  /** A non-empty walk along pair references. */
  ghost predicate IsPath(kind: seq<Kind>, p: seq<Ref>)
  {
    |p| > 0 && forall k :: 0 <= k < |p| - 1 ==> Child(kind, p[k], p[k + 1])
  }

  ghost predicate Reaches(kind: seq<Kind>, a: Ref, b: Ref)
  {
    exists p :: IsPath(kind, p) && p[0] == a && p[|p| - 1] == b
  }

  /** `x` is a root or is reached from one through pairs. */
  ghost predicate Reachable(kind: seq<Kind>, roots: seq<Ref>, x: Ref)
  {
    exists j :: 0 <= j < |roots| && Reaches(kind, roots[j], x)
  }

  lemma ReachesSelf(kind: seq<Kind>, a: Ref)
    ensures Reaches(kind, a, a)
  {
    assert IsPath(kind, [a]);
  }

  /** A pair reaches whatever its children reach. */
  lemma ReachesThroughChild(kind: seq<Kind>, a: Ref, b: Ref, c: Ref)
    requires Child(kind, a, b) && Reaches(kind, b, c)
    ensures Reaches(kind, a, c)
  {
    var p :| IsPath(kind, p) && p[0] == b && p[|p| - 1] == c;
    var q := [a] + p;
    assert forall k :: 1 <= k < |q| - 1 ==> q[k] == p[k - 1] && q[k + 1] == p[k];
    assert IsPath(kind, q);
  }

  /** Whatever a reached object points to is reached as well. */
  lemma ReachesExtend(kind: seq<Kind>, a: Ref, b: Ref, c: Ref)
    requires Reaches(kind, a, b) && Child(kind, b, c)
    ensures Reaches(kind, a, c)
  {
    var p :| IsPath(kind, p) && p[0] == a && p[|p| - 1] == b;
    var q := p + [c];
    assert IsPath(kind, q);
  }

  lemma RootReachable(kind: seq<Kind>, roots: seq<Ref>, j: nat)
    requires j < |roots|
    ensures Reachable(kind, roots, roots[j])
  {
    ReachesSelf(kind, roots[j]);
  }

  lemma ChildReachable(kind: seq<Kind>, roots: seq<Ref>, x: Ref, y: Ref)
    requires Reachable(kind, roots, x) && Child(kind, x, y)
    ensures Reachable(kind, roots, y)
  {
    var j :| 0 <= j < |roots| && Reaches(kind, roots[j], x);
    ReachesExtend(kind, roots[j], x, y);
  }

  /** A walk that starts in a closed set stays in it. */
  lemma {:induction false} PathStaysIn(kind: seq<Kind>, S: set<Ref>, p: seq<Ref>)
    requires IsPath(kind, p) && p[0] in S && ChildrenIn(kind, S)
    ensures p[|p| - 1] in S
    decreases |p|
  {
    if |p| > 1 {
      var q := p[..|p| - 1];
      assert IsPath(kind, q);
      PathStaysIn(kind, S, q);
      assert Child(kind, q[|q| - 1], p[|p| - 1]);
    }
  }

  /** Every set that holds the roots and is closed under children holds every
      reachable object: the reachable set is the least such set. */
  lemma ReachableWithin(kind: seq<Kind>, roots: seq<Ref>, S: set<Ref>, x: Ref)
    requires forall j :: 0 <= j < |roots| ==> roots[j] in S
    requires ChildrenIn(kind, S)
    requires Reachable(kind, roots, x)
    ensures x in S
  {
    var j :| 0 <= j < |roots| && Reaches(kind, roots[j], x);
    var p :| IsPath(kind, p) && p[0] == roots[j] && p[|p| - 1] == x;
    PathStaysIn(kind, S, p);
  }

  /** Nothing is reachable without roots. */
  lemma NothingReachableWithoutRoots(kind: seq<Kind>, x: Ref)
    ensures !Reachable(kind, [], x)
  {
  }

  /** The objects of `L` reachable from `roots`, in list order: what a
      collection keeps. */
  ghost function Survivors(kind: seq<Kind>, roots: seq<Ref>, L: seq<Ref>): seq<Ref>
  {
    if L == [] then []
    else (if Reachable(kind, roots, L[0]) then [L[0]] else []) + Survivors(kind, roots, L[1..])
  }

  /** Liveness and reclamation in one: a listed object survives exactly when
      it is reachable. */
  lemma {:induction false} SurvivorsMembers(kind: seq<Kind>, roots: seq<Ref>, L: seq<Ref>, x: Ref)
    ensures x in Survivors(kind, roots, L) <==> x in L && Reachable(kind, roots, x)
  {
    if L != [] {
      SurvivorsMembers(kind, roots, L[1..], x);
      assert L == [L[0]] + L[1..];
    }
  }

  /** When every listed object is reachable, a collection keeps them all. */
  lemma {:induction false} SurvivorsAll(kind: seq<Kind>, roots: seq<Ref>, L: seq<Ref>)
    requires forall j :: 0 <= j < |L| ==> Reachable(kind, roots, L[j])
    ensures Survivors(kind, roots, L) == L
  {
    if L != [] {
      assert forall j :: 0 <= j < |L[1..]| ==> L[1..][j] == L[j + 1];
      SurvivorsAll(kind, roots, L[1..]);
      assert Reachable(kind, roots, L[0]);
    }
  }

  /** With no roots, nothing survives. */
  lemma {:induction false} NoRootsNoSurvivors(kind: seq<Kind>, L: seq<Ref>)
    ensures Survivors(kind, [], L) == []
  {
    if L != [] {
      NothingReachableWithoutRoots(kind, L[0]);
      NoRootsNoSurvivors(kind, L[1..]);
    }
  }

  /** When the mark bits are exactly reachability, keeping the marked objects
      keeps the survivors. */
  lemma {:induction false} MarkedAreSurvivors(isMarked: seq<bool>, kind: seq<Kind>, roots: seq<Ref>, L: seq<Ref>)
    requires InArena(|isMarked|, L)
    requires forall x :: 0 <= x < |isMarked| ==> (isMarked[x] <==> Reachable(kind, roots, x))
    ensures KeepMarked(isMarked, L) == Survivors(kind, roots, L)
  {
    if L != [] {
      MarkedAreSurvivors(isMarked, kind, roots, L[1..]);
    }
  }
}
