/** The toy VM: a fixed stack of root references over an arena of objects,
    with a stop-the-world mark-and-sweep collector and an adaptive collection
    threshold. */
module VirtualMachine {
  import opened Objects
  import opened Reachability

  /** Capacity of the root stack. */
  const STACK_MAX_SIZE: nat := 256
  /** The collection threshold of a new VM. */
  const ICGT: nat := 8

  /** `o` is nil or a marked object. */
  ghost predicate MarkedOrNil(isMarked: seq<bool>, o: Option<Ref>)
  {
    o.None? || (o.value < |isMarked| && isMarked[o.value])
  }

  /** The children of object `x`, if it is a pair, are marked. */
  ghost predicate ChildrenMarked(isMarked: seq<bool>, kind: seq<Kind>, x: Ref)
    requires x < |kind|
  {
    match kind[x]
    case IntObj(_) => true
    case CompositeObj(hd, tl) => MarkedOrNil(isMarked, hd) && MarkedOrNil(isMarked, tl)
  }

  /** `m'` has every bit set in `m`, over the same objects. */
  ghost predicate MarksGrew(m: seq<bool>, m': seq<bool>)
  {
    |m'| == |m| && forall i :: 0 <= i < |m| && m[i] ==> m'[i]
  }

  lemma ChildrenMarkedGrows(m: seq<bool>, m': seq<bool>, kind: seq<Kind>, x: Ref)
    requires x < |kind| && MarksGrew(m, m') && ChildrenMarked(m, kind, x)
    ensures ChildrenMarked(m', kind, x)
  {
  }

  /** Every marked object has its children marked. */
  ghost predicate MarkedClosed(isMarked: seq<bool>, kind: seq<Kind>)
  {
    |isMarked| == |kind| && forall x :: 0 <= x < |isMarked| && isMarked[x] ==> ChildrenMarked(isMarked, kind, x)
  }

  /** Every marked object is reachable from `roots`. */
  ghost predicate MarkedReachable(isMarked: seq<bool>, kind: seq<Kind>, roots: seq<Ref>)
  {
    forall x :: 0 <= x < |isMarked| && isMarked[x] ==> Reachable(kind, roots, x)
  }

  /** Marking from one more root `r` keeps the marked set closed, and what it
      marks is reachable from the roots so far plus `r`. */
  lemma MarkStep(before: seq<bool>, after: seq<bool>, kind: seq<Kind>, roots: seq<Ref>, r: Ref)
    requires MarkedClosed(before, kind) && MarkedReachable(before, kind, roots)
    requires MarksGrew(before, after)
    requires forall i :: 0 <= i < |after| && after[i] && !before[i] ==>
               Reaches(kind, r, i) && ChildrenMarked(after, kind, i)
    ensures MarkedClosed(after, kind) && MarkedReachable(after, kind, roots + [r])
  {
    var roots' := roots + [r];
    forall x | 0 <= x < |after| && after[x]
      ensures ChildrenMarked(after, kind, x) && Reachable(kind, roots', x)
    {
      if before[x] {
        ChildrenMarkedGrows(before, after, kind, x);
        var j :| 0 <= j < |roots| && Reaches(kind, roots[j], x);
        assert roots'[j] == roots[j];
      } else {
        assert roots'[|roots|] == r;
      }
    }
  }

  /** A closed marked set that holds the roots holds everything reachable. */
  lemma MarkedContainReachable(isMarked: seq<bool>, kind: seq<Kind>, roots: seq<Ref>)
    requires MarkedClosed(isMarked, kind) && RefsInRange(kind)
    requires forall j :: 0 <= j < |roots| ==> roots[j] < |isMarked| && isMarked[roots[j]]
    ensures forall x :: 0 <= x < |isMarked| && Reachable(kind, roots, x) ==> isMarked[x]
  {
    var marked := set x: Ref | x < |isMarked| && isMarked[x];
    forall x: Ref, y: Ref | x in marked && Child(kind, x, y) ensures y in marked {
    }
    forall x | 0 <= x < |isMarked| && Reachable(kind, roots, x) ensures isMarked[x] {
      ReachableWithin(kind, roots, marked, x);
    }
  }

  /** The objects whose bit is clear: the measure that makes marking
      terminate. */
  ghost function UnmarkedIn(isMarked: seq<bool>): set<Ref>
  {
    set i: Ref | i < |isMarked| && !isMarked[i]
  }

  lemma SubsetSize(A: set<Ref>, B: set<Ref>)
    requires A <= B
    ensures |A| <= |B|
    ensures A < B ==> |A| < |B|
  {
    assert B == A + (B - A);
    if A < B {
      var b :| b in B - A;
    }
  }

  /** The `k`-th object of `L`, or nil past its end: what the sweep finds in
      its slot after `k` steps. */
  function Pending(L: seq<Ref>, k: nat): Option<Ref>
  {
    if k < |L| then Some(L[k]) else None
  }

  /** The marked objects among the first `k` of `L`: what the sweep has kept
      after `k` steps. */
  ghost function KeptUpTo(m0: seq<bool>, L: seq<Ref>, k: nat): seq<Ref>
    requires k <= |L|
  {
    if k == 0 then []
    else KeptUpTo(m0, L, k - 1) + (if L[k - 1] < |m0| && m0[L[k - 1]] then [L[k - 1]] else [])
  }

  lemma {:induction false} KeptUpToPrefix(m0: seq<bool>, L: seq<Ref>, k: nat)
    requires k <= |L|
    ensures KeptUpTo(m0, L, k) == KeepMarked(m0, L[..k])
  {
    if k > 0 {
      KeptUpToPrefix(m0, L, k - 1);
      assert L[..k] == L[..k - 1] + [L[k - 1]];
      KeepMarkedAppend(m0, L[..k - 1], [L[k - 1]]);
    } else {
      assert L[..0] == [];
    }
  }

  /** What the sweep loop keeps true of the list `L` it started from, with
      links `n0` and marks `m0`: the first `k` objects have been visited;
      `kept` are the marked ones among them (now unmarked and linked in order
      from `head`); `slot` is the last kept object's `next` field (or the
      head) and holds `L[k]`; every other object is as it was. */
  ghost predicate SweepInv(n0: seq<Option<Ref>>, m0: seq<bool>, L: seq<Ref>,
                           next: seq<Option<Ref>>, isMarked: seq<bool>, head: Option<Ref>,
                           slot: Slot, k: nat, kept: seq<Ref>)
  {
    && k <= |L|
    && kept == KeptUpTo(m0, L, k)
    && |m0| == |n0| && |next| == |n0| && |isMarked| == |n0|
    && InArena(|n0|, kept)
    && slot == (if kept == [] then HeadSlot else NextSlot(kept[|kept| - 1]))
    && ReadSlot(head, next, slot) == Pending(L, k)
    && (k < |L| ==> L[k] < |n0|)
    && (kept != [] ==> head == Some(kept[0]))
    && (forall j :: 0 <= j < |kept| - 1 ==> next[kept[j]] == Some(kept[j + 1]))
    && (forall j :: 0 <= j < |kept| ==> !isMarked[kept[j]])
    && (forall x :: 0 <= x < |n0| && x !in kept ==> next[x] == n0[x] && isMarked[x] == m0[x])
  }

  lemma SweepStart(n0: seq<Option<Ref>>, m0: seq<bool>, head: Option<Ref>, L: seq<Ref>)
    requires ListShaped(n0, head, L) && |m0| == |n0|
    ensures SweepInv(n0, m0, L, n0, m0, head, HeadSlot, 0, [])
  {
  }

  /** The visited prefix holds distinct objects, so the kept ones are
      distinct, and there are no more of them than were visited. */
  lemma SweepKeptDistinct(n0: seq<Option<Ref>>, h0: Option<Ref>, m0: seq<bool>, L: seq<Ref>, next: seq<Option<Ref>>,
                          isMarked: seq<bool>, head: Option<Ref>, slot: Slot, k: nat, kept: seq<Ref>)
    requires ListShaped(n0, h0, L) && SweepInv(n0, m0, L, next, isMarked, head, slot, k, kept)
    ensures Distinct(kept) && |kept| <= k
  {
    assert Distinct(L[..k]);
    KeepMarkedShape(m0, L[..k]);
    KeptUpToPrefix(m0, L, k);
  }

  /** The object in the slot is the next unvisited one, and it is still as it
      was when the sweep began. */
  lemma SweepCurrent(n0: seq<Option<Ref>>, h0: Option<Ref>, m0: seq<bool>, L: seq<Ref>, next: seq<Option<Ref>>,
                     isMarked: seq<bool>, head: Option<Ref>, slot: Slot, k: nat, kept: seq<Ref>)
    requires ListShaped(n0, h0, L) && SweepInv(n0, m0, L, next, isMarked, head, slot, k, kept)
    requires ReadSlot(head, next, slot).Some?
    ensures k < |L| && ReadSlot(head, next, slot).value == L[k] && L[k] < |next|
    ensures L[k] !in kept && next[L[k]] == n0[L[k]] && isMarked[L[k]] == m0[L[k]]
    ensures |kept| <= k
  {
    KeptUpToPrefix(m0, L, k);
    KeepMarkedMembers(m0, L[..k], L[k]);
    assert L[k] !in L[..k];
    SweepKeptDistinct(n0, h0, m0, L, next, isMarked, head, slot, k, kept);
  }

  /** Unlinking an unmarked object: its successor goes into the slot. */
  lemma SweepUnlink(n0: seq<Option<Ref>>, h0: Option<Ref>, m0: seq<bool>, L: seq<Ref>, next: seq<Option<Ref>>,
                    isMarked: seq<bool>, head: Option<Ref>, slot: Slot, k: nat, kept: seq<Ref>)
    requires ListShaped(n0, h0, L) && SweepInv(n0, m0, L, next, isMarked, head, slot, k, kept)
    requires ReadSlot(head, next, slot).Some?
    requires ReadSlot(head, next, slot).value < |isMarked| && !isMarked[ReadSlot(head, next, slot).value]
    ensures k < |L| && |kept| <= k
    ensures var x := ReadSlot(head, next, slot).value;
            var w := WriteSlot(head, next, slot, next[x]);
            SweepInv(n0, m0, L, w.1, isMarked, w.0, slot, k + 1, kept)
  {
    SweepCurrent(n0, h0, m0, L, next, isMarked, head, slot, k, kept);
    SweepKeptDistinct(n0, h0, m0, L, next, isMarked, head, slot, k, kept);
    var x := L[k];
    ListLink(n0, h0, L, k);
    var v := n0[x];
    if kept != [] {
      var p := kept[|kept| - 1];
      var next' := next[p := v];
      assert WriteSlot(head, next, slot, next[x]) == (head, next');
      assert forall j :: 0 <= j < |kept| - 1 ==> kept[j] != p;
    }
  }

  /** Keeping a marked object: its bit is cleared and the slot moves to its
      `next` field. */
  lemma SweepKeep(n0: seq<Option<Ref>>, h0: Option<Ref>, m0: seq<bool>, L: seq<Ref>, next: seq<Option<Ref>>,
                  isMarked: seq<bool>, head: Option<Ref>, slot: Slot, k: nat, kept: seq<Ref>)
    requires ListShaped(n0, h0, L) && SweepInv(n0, m0, L, next, isMarked, head, slot, k, kept)
    requires ReadSlot(head, next, slot).Some?
    requires ReadSlot(head, next, slot).value < |isMarked| && isMarked[ReadSlot(head, next, slot).value]
    ensures k < |L|
    ensures var x := ReadSlot(head, next, slot).value;
            SweepInv(n0, m0, L, next, isMarked[x := false], head, NextSlot(x), k + 1, kept + [x])
  {
    SweepCurrent(n0, h0, m0, L, next, isMarked, head, slot, k, kept);
    var x := L[k];
    ListLink(n0, h0, L, k);
    var kept' := kept + [x];
    forall j | 0 <= j < |kept'| - 1 ensures next[kept'[j]] == Some(kept'[j + 1]) {
      if j == |kept| - 1 {
        assert kept'[j] == kept[|kept| - 1];
      } else {
        assert kept'[j] == kept[j] && kept'[j + 1] == kept[j + 1];
      }
    }
  }

  /** When the slot holds nil, the whole list has been visited and the kept
      objects form the new list. */
  lemma SweepDone(n0: seq<Option<Ref>>, h0: Option<Ref>, m0: seq<bool>, L: seq<Ref>, next: seq<Option<Ref>>,
                  isMarked: seq<bool>, head: Option<Ref>, slot: Slot, k: nat, kept: seq<Ref>)
    requires ListShaped(n0, h0, L) && SweepInv(n0, m0, L, next, isMarked, head, slot, k, kept)
    requires ReadSlot(head, next, slot).None?
    ensures kept == KeepMarked(m0, L)
    ensures ListShaped(next, head, kept)
  {
    SweepKeptDistinct(n0, h0, m0, L, next, isMarked, head, slot, k, kept);
    KeptUpToPrefix(m0, L, k);
    assert L[..k] == L;
  }

  class VM {
    var stack: array<Ref>
    var stackSize: nat
    var numOfObjects: nat
    var maxNumofObjects: nat
    var beginOfList: Option<Ref>
    /** The fields of every object this VM has allocated, by reference.
        Reclaiming an object removes it from the allocation list; its arena
        entries stay. */
    var next: seq<Option<Ref>>
    var isMarked: seq<bool>
    var kind: seq<Kind>
    /** The allocation list from `beginOfList`, most recent first. */
    ghost var list: seq<Ref>

    /** The root references, bottom of the stack first. */
    ghost function Roots(): seq<Ref>
      reads this, stack
      requires stackSize <= stack.Length
    {
      stack[..stackSize]
    }

    /** The list a new object is linked in front of if it is allocated now:
        what a collection keeps when the live count has reached the threshold,
        the current list otherwise. */
    ghost function AllocBase(): seq<Ref>
      reads this, stack
      requires stackSize <= stack.Length
    {
      if numOfObjects == maxNumofObjects then Survivors(kind, Roots(), list) else list
    }

    /** The threshold after an allocation made now. */
    ghost function AllocThreshold(): nat
      reads this, stack
      requires stackSize <= stack.Length
    {
      if numOfObjects == maxNumofObjects then 2 * |AllocBase()| else maxNumofObjects
    }

    ghost predicate Valid()
      reads this, stack
    {
      && stack.Length == STACK_MAX_SIZE
      && stackSize <= STACK_MAX_SIZE
      && |isMarked| == |next| && |kind| == |next|
      && ListShaped(next, beginOfList, list)
      && numOfObjects == |list|
      && RefsInRange(kind)
      // roots are live objects
      && (forall i :: 0 <= i < stackSize ==> stack[i] in list)
      // live pairs point at live objects
      && (forall x: Ref, y: Ref :: x in list && Child(kind, x, y) ==> y in list)
      // no mark bit survives a collection
      && (forall x :: 0 <= x < |isMarked| ==> !isMarked[x])
    }

    /** createVM */
    constructor ()
      ensures Valid() && fresh(stack)
      ensures stackSize == 0 && numOfObjects == 0 && maxNumofObjects == ICGT
      ensures beginOfList == None && list == [] && next == [] && kind == []
    {
      stack := new Ref[STACK_MAX_SIZE];
      stackSize := 0;
      numOfObjects := 0;
      maxNumofObjects := ICGT;
      beginOfList := None;
      next, isMarked, kind := [], [], [];
      list := [];
    }

    /** Marks `o` and everything reachable from it. Unlike the Go routine it
        returns at once on an object that is already marked, which is what
        makes it terminate on cyclic graphs. */
    method Mark(o: Option<Ref>)
      requires |isMarked| == |kind| && RefsInRange(kind)
      requires o.Some? ==> o.value < |kind|
      modifies this`isMarked
      ensures MarksGrew(old(isMarked), isMarked)
      ensures MarkedOrNil(isMarked, o)
      ensures forall i :: 0 <= i < |isMarked| && isMarked[i] && !old(isMarked)[i] ==>
                o.Some? && Reaches(kind, o.value, i) && ChildrenMarked(isMarked, kind, i)
      decreases |UnmarkedIn(isMarked)|
    {
      if o.Some? {
        var x := o.value;
        if isMarked[x] {
          return;
        }
        ghost var m0 := isMarked;
        isMarked := isMarked[x := true];
        assert x in UnmarkedIn(m0) - UnmarkedIn(isMarked);
        assert UnmarkedIn(isMarked) < UnmarkedIn(m0);
        SubsetSize(UnmarkedIn(isMarked), UnmarkedIn(m0));
        match kind[x]
        case IntObj(_) =>
          ReachesSelf(kind, x);
        case CompositeObj(hd, tl) =>
          assert hd.Some? ==> Child(kind, x, hd.value);
          assert tl.Some? ==> Child(kind, x, tl.value);
          ghost var m1 := isMarked;
          Mark(hd);
          ghost var m2 := isMarked;
          assert UnmarkedIn(m2) <= UnmarkedIn(m1);
          SubsetSize(UnmarkedIn(m2), UnmarkedIn(m1));
          Mark(tl);
          forall i | 0 <= i < |isMarked| && isMarked[i] && !m0[i]
            ensures Reaches(kind, x, i) && ChildrenMarked(isMarked, kind, i)
          {
            if i == x {
              ReachesSelf(kind, x);
              assert MarkedOrNil(isMarked, hd);
            } else if m2[i] {
              ChildrenMarkedGrows(m2, isMarked, kind, i);
              ReachesThroughChild(kind, x, hd.value, i);
            } else {
              ReachesThroughChild(kind, x, tl.value, i);
            }
          }
      }
    }

    /** Marks every object reachable from the roots, and nothing else. */
    method MarkAll()
      requires stackSize <= stack.Length
      requires |isMarked| == |kind| && RefsInRange(kind)
      requires forall i :: 0 <= i < stackSize ==> stack[i] < |kind|
      requires forall x :: 0 <= x < |isMarked| ==> !isMarked[x]
      modifies this`isMarked
      ensures |isMarked| == |old(isMarked)|
      ensures forall x :: 0 <= x < |isMarked| ==> (isMarked[x] <==> Reachable(kind, Roots(), x))
    {
      var i := 0;
      assert stack[..0] == [];
      while i < stackSize
        invariant 0 <= i <= stackSize
        invariant |isMarked| == |kind|
        invariant forall j :: 0 <= j < i ==> isMarked[stack[j]]
        invariant MarkedClosed(isMarked, kind) && MarkedReachable(isMarked, kind, stack[..i])
      {
        ghost var before := isMarked;
        Mark(Some(stack[i]));
        assert stack[..i + 1] == stack[..i] + [stack[i]];
        MarkStep(before, isMarked, kind, stack[..i], stack[i]);
        i := i + 1;
      }
      assert stack[..i] == Roots();
      MarkedContainReachable(isMarked, kind, Roots());
    }

    /** Walks the allocation list with a pointer to the slot that holds the
        current object. An unmarked object is unlinked by storing its
        successor in that slot; a marked one has its bit cleared and the
        pointer moves to its `next` field. */
    method MarkSweep()
      requires ListShaped(next, beginOfList, list) && numOfObjects == |list| && |isMarked| == |next|
      modifies this`next, this`isMarked, this`beginOfList, this`numOfObjects, this`list
      ensures ListShaped(next, beginOfList, list) && numOfObjects == |list|
      ensures list == KeepMarked(old(isMarked), old(list))
      ensures |next| == |old(next)| && |isMarked| == |old(isMarked)|
      ensures forall x :: 0 <= x < |isMarked| ==> isMarked[x] == (old(isMarked)[x] && x !in old(list))
      ensures forall x :: 0 <= x < |next| && x !in list ==> next[x] == old(next)[x]
    {
      ghost var n0, m0, h0, L := next, isMarked, beginOfList, list;
      var slot := HeadSlot;
      ghost var k := 0;
      ghost var kept: seq<Ref> := [];
      SweepStart(n0, m0, h0, L);
      while ReadSlot(beginOfList, next, slot).Some?
        invariant SweepInv(n0, m0, L, next, isMarked, beginOfList, slot, k, kept)
        invariant numOfObjects + k == |L| + |kept|
        decreases |L| - k
      {
        var x := ReadSlot(beginOfList, next, slot).value;
        if !isMarked[x] {
          SweepUnlink(n0, h0, m0, L, next, isMarked, beginOfList, slot, k, kept);
          var written := WriteSlot(beginOfList, next, slot, next[x]);
          beginOfList, next := written.0, written.1;
          numOfObjects := numOfObjects - 1;
        } else {
          SweepKeep(n0, h0, m0, L, next, isMarked, beginOfList, slot, k, kept);
          isMarked := isMarked[x := false];
          slot := NextSlot(x);
          kept := kept + [x];
        }
        k := k + 1;
      }
      SweepDone(n0, h0, m0, L, next, isMarked, beginOfList, slot, k, kept);
      list := kept;
      forall x | 0 <= x < |isMarked| ensures isMarked[x] == (m0[x] && x !in L) {
        KeepMarkedMembers(m0, L, x);
      }
    }

    /** Collects: marks from the roots, sweeps the list, and sets the
        threshold to twice what is left. Returns how many objects were
        reclaimed and how many are left (what the Go routine prints). */
    method Gc() returns (collected: nat, left: nat)
      requires Valid()
      modifies this`next, this`isMarked, this`beginOfList, this`numOfObjects, this`maxNumofObjects, this`list
      ensures Valid()
      ensures list == Survivors(kind, old(Roots()), old(list))
      ensures |next| == |old(next)|
      ensures forall x :: 0 <= x < |next| && x !in list ==> next[x] == old(next)[x]
      ensures maxNumofObjects == 2 * numOfObjects
      ensures collected == |old(list)| - |list| && left == |list|
    {
      var before := numOfObjects;
      ghost var L := list;
      ghost var live := set x | x in L;
      assert ChildrenIn(kind, live);
      MarkAll();
      ghost var marked := isMarked;
      MarkedAreSurvivors(marked, kind, Roots(), L);
      MarkSweep();
      KeepMarkedShape(marked, L);
      maxNumofObjects := numOfObjects * 2;
      collected := before - numOfObjects;
      left := numOfObjects;
      // the new list holds the roots and is closed under children
      forall i | 0 <= i < stackSize ensures stack[i] in list {
        RootReachable(kind, Roots(), i);
        SurvivorsMembers(kind, Roots(), L, stack[i]);
      }
      forall x: Ref, y: Ref | x in list && Child(kind, x, y) ensures y in list {
        SurvivorsMembers(kind, Roots(), L, x);
        ChildReachable(kind, Roots(), x, y);
        SurvivorsMembers(kind, Roots(), L, y);
      }
      // an object outside the list is unreachable, so it was never marked
      forall x | 0 <= x < |isMarked| ensures !isMarked[x] {
        if marked[x] {
          ReachableWithin(kind, Roots(), live, x);
        }
      }
    }

    /** Allocates an object of type `t`, collecting first when the live count
        has reached the threshold. The object becomes the new list head. */
    method NewObject(t: ObjType) returns (r: Ref)
      requires Valid()
      modifies this`next, this`isMarked, this`kind, this`beginOfList, this`numOfObjects, this`maxNumofObjects, this`list
      ensures Valid()
      ensures r == |old(next)|
      ensures list == [r] + old(AllocBase()) && maxNumofObjects == old(AllocThreshold())
      ensures kind == old(kind) + [ZeroKind(t)]
    {
      if numOfObjects == maxNumofObjects {
        var _, _ := Gc();
      }
      r := |next|;
      ghost var k1 := kind;
      ListShapedPrepend(next, beginOfList, list);
      next := next + [beginOfList];
      isMarked := isMarked + [false];
      kind := kind + [ZeroKind(t)];
      beginOfList := Some(r);
      list := [r] + list;
      numOfObjects := numOfObjects + 1;
      assert forall x: Ref, y: Ref :: Child(kind, x, y) ==> x < r && Child(k1, x, y);
    }

    /** Pushes a root. */
    method Push(obj: Ref)
      requires Valid() && stackSize < STACK_MAX_SIZE && obj in list
      modifies this`stackSize, stack
      ensures Valid()
      ensures Roots() == old(Roots()) + [obj]
      ensures stack[..] == old(stack[..])[old(stackSize) := obj]
    {
      stack[stackSize] := obj;
      stackSize := stackSize + 1;
      assert Roots() == old(Roots()) + [obj];
    }

    /** Pops the top root and returns it. The vacated slot keeps its old
        content, as in the Go code. */
    method Pop() returns (obj: Ref)
      requires Valid() && stackSize > 0
      modifies this`stackSize
      ensures Valid()
      ensures obj == old(Roots())[old(stackSize) - 1]
      ensures Roots() == old(Roots())[..old(stackSize) - 1]
    {
      stackSize := stackSize - 1;
      obj := stack[stackSize];
    }

    /** Allocates an integer object holding `v` and pushes it. */
    method PushInt(v: int)
      requires Valid() && stackSize < STACK_MAX_SIZE
      modifies this`next, this`isMarked, this`kind, this`beginOfList, this`numOfObjects, this`maxNumofObjects, this`list, this`stackSize, stack
      ensures Valid()
      ensures list == [|old(next)|] + old(AllocBase()) && maxNumofObjects == old(AllocThreshold())
      ensures kind == old(kind) + [IntObj(v)]
      ensures Roots() == old(Roots()) + [|old(next)|]
    {
      var obj := NewObject(IntType);
      ghost var k1 := kind;
      kind := kind[obj := IntObj(v)];
      assert forall x: Ref, y: Ref :: Child(kind, x, y) ==> x != obj && Child(k1, x, y);
      Push(obj);
    }

    /** Allocates a pair, pops its head and then its tail, and pushes it.
        The allocation comes first, so both operands are still roots if it
        collects. */
    method PushPair() returns (r: Ref)
      requires Valid() && 2 <= stackSize
      modifies this`next, this`isMarked, this`kind, this`beginOfList, this`numOfObjects, this`maxNumofObjects, this`list, this`stackSize, stack
      ensures Valid()
      ensures r == |old(next)|
      ensures list == [r] + old(AllocBase()) && maxNumofObjects == old(AllocThreshold())
      ensures var R := old(Roots());
              && kind == old(kind) + [CompositeObj(Some(R[|R| - 1]), Some(R[|R| - 2]))]
              && Roots() == R[..|R| - 2] + [r]
              && R[|R| - 1] in list && R[|R| - 2] in list
    {
      r := NewObject(CompositeType);
      var head := Pop();
      var tail := Pop();
      SetPairValues(r, head, tail);
      Push(r);
    }

    /** Empties the stack and collects: everything is reclaimed. */
    method FreeVM() returns (collected: nat, left: nat)
      requires Valid()
      modifies this`stackSize, this`next, this`isMarked, this`beginOfList, this`numOfObjects, this`maxNumofObjects, this`list
      ensures Valid()
      ensures stackSize == 0 && list == [] && beginOfList == None
      ensures numOfObjects == 0 && maxNumofObjects == 0
      ensures collected == |old(list)| && left == 0
    {
      stackSize := 0;
      NoRootsNoSurvivors(kind, list);
      collected, left := Gc();
    }

    /** Stores `b` and `c` as the head and the tail of pair `a`. Both writes
        happen after both pops; as the pops leave the objects alone, this is
        the state the Go routine reaches by interleaving them. */
    method SetPairValues(a: Ref, b: Ref, c: Ref)
      requires Valid() && a in list && b in list && c in list && kind[a].CompositeObj?
      modifies this`kind
      ensures Valid()
      ensures kind == old(kind)[a := CompositeObj(Some(b), Some(c))]
    {
      ghost var k1 := kind;
      kind := kind[a := CompositeObj(Some(b), Some(c))];
      assert forall x: Ref, y: Ref :: Child(kind, x, y) ==>
        (x == a && (y == b || y == c)) || (x != a && Child(k1, x, y));
    }

    /** Overwrites the tail of pair `a` with `b`, as the cycle demo does
        directly on the Go struct. */
    method SetTailValue(a: Ref, b: Ref)
      requires Valid() && a in list && b in list && kind[a].CompositeObj?
      modifies this`kind
      ensures Valid()
      ensures kind == old(kind)[a := CompositeObj(old(kind[a].headValue), Some(b))]
    {
      ghost var k1 := kind;
      kind := kind[a := CompositeObj(kind[a].headValue, Some(b))];
      assert forall x: Ref, y: Ref :: Child(kind, x, y) ==>
        (x == a && (y == b || Child(k1, x, y))) || (x != a && Child(k1, x, y));
    }
  }
}
