/** The four demonstrations of the Go program, each run on a fresh VM, with
    the counts that each collection reports ("Collected %d objects, left
    %d"), first for the explicit collection and then for the one in
    `freeVM`. What each collection keeps is worked out on the arena's kinds
    alone: which objects are reachable, and then which of the listed ones
    survive. */
module Scenarios {
  import opened Objects
  import opened Reachability
  import opened VirtualMachine
  import AsWritten

  /** The VM is consistent, holds `roots` on its stack, lists `list` and
      has the kinds `kind`, and its threshold is still the initial one. */
  ghost predicate Holds(vm: VM, roots: seq<Ref>, list: seq<Ref>, kind: seq<Kind>)
    reads vm, vm.stack
  {
    && vm.Valid()
    && vm.Roots() == roots && vm.list == list && vm.kind == kind
    && vm.maxNumofObjects == ICGT
  }

  /** `pushInt` below the threshold: no collection, a new integer on top. */
  method StepPushInt(vm: VM, v: int, ghost roots: seq<Ref>, ghost list: seq<Ref>, ghost kind: seq<Kind>)
      returns (ghost roots': seq<Ref>, ghost list': seq<Ref>, ghost kind': seq<Kind>)
    requires Holds(vm, roots, list, kind) && |list| < ICGT && |roots| < STACK_MAX_SIZE
    modifies vm, vm.stack
    ensures vm.stack == old(vm.stack) && Holds(vm, roots', list', kind')
    ensures roots' == roots + [|kind|] && list' == [|kind|] + list && kind' == kind + [IntObj(v)]
  {
    vm.PushInt(v);
    roots', list', kind' := vm.Roots(), vm.list, vm.kind;
  }

  /** `pushPair` below the threshold: the top two objects become the head and
      the tail of a new pair, which replaces them on the stack. */
  method StepPushPair(vm: VM, ghost roots: seq<Ref>, ghost list: seq<Ref>, ghost kind: seq<Kind>)
      returns (r: Ref, ghost roots': seq<Ref>, ghost list': seq<Ref>, ghost kind': seq<Kind>)
    requires Holds(vm, roots, list, kind) && |list| < ICGT && 2 <= |roots|
    modifies vm, vm.stack
    ensures vm.stack == old(vm.stack) && Holds(vm, roots', list', kind')
    ensures r == |kind| && roots' == roots[..|roots| - 2] + [r] && list' == [r] + list
    ensures kind' == kind + [CompositeObj(Some(roots[|roots| - 1]), Some(roots[|roots| - 2]))]
  {
    r := vm.PushPair();
    roots', list', kind' := vm.Roots(), vm.list, vm.kind;
  }

  /** `pushInt(v); pushInt(w)` below the threshold. */
  method StepPushInts(vm: VM, v: int, w: int, ghost roots: seq<Ref>, ghost list: seq<Ref>, ghost kind: seq<Kind>)
      returns (ghost roots': seq<Ref>, ghost list': seq<Ref>, ghost kind': seq<Kind>)
    requires Holds(vm, roots, list, kind) && |list| + 2 <= ICGT && |roots| + 2 <= STACK_MAX_SIZE
    modifies vm, vm.stack
    ensures vm.stack == old(vm.stack) && Holds(vm, roots', list', kind')
    ensures roots' == roots + [|kind|, |kind| + 1] && list' == [|kind| + 1, |kind|] + list
    ensures kind' == kind + [IntObj(v), IntObj(w)]
  {
    var R1, L1, K1 := StepPushInt(vm, v, roots, list, kind);
    roots', list', kind' := StepPushInt(vm, w, R1, L1, K1);
  }

  /** `pushInt(v); pushInt(w); pushPair()` below the threshold: a new pair
      holding the two new integers, `w` as its head and `v` as its tail,
      ends up on top of the stack in their place. */
  method StepPairOfInts(vm: VM, v: int, w: int, ghost roots: seq<Ref>, ghost list: seq<Ref>, ghost kind: seq<Kind>)
      returns (p: Ref, ghost roots': seq<Ref>, ghost list': seq<Ref>, ghost kind': seq<Kind>)
    requires Holds(vm, roots, list, kind) && |list| + 3 <= ICGT && |roots| + 2 <= STACK_MAX_SIZE
    modifies vm, vm.stack
    ensures vm.stack == old(vm.stack) && Holds(vm, roots', list', kind')
    ensures p == |kind| + 2 && roots' == roots + [p] && list' == [p, p - 1, p - 2] + list
    ensures kind' == kind + [IntObj(v), IntObj(w), CompositeObj(Some(p - 1), Some(p - 2))]
  {
    var R2, L2, K2 := StepPushInts(vm, v, w, roots, list, kind);
    assert R2[..|R2| - 2] == roots && R2[|R2| - 1] == |kind| + 1 && R2[|R2| - 2] == |kind|;
    p, roots', list', kind' := StepPushPair(vm, R2, L2, K2);
  }

  /** `pop`: the top object leaves the stack, and the heap stays as it was. */
  method StepPop(vm: VM, ghost roots: seq<Ref>, ghost list: seq<Ref>, ghost kind: seq<Kind>)
      returns (obj: Ref, ghost roots': seq<Ref>)
    requires Holds(vm, roots, list, kind) && 0 < |roots|
    modifies vm
    ensures vm.stack == old(vm.stack) && Holds(vm, roots', list, kind)
    ensures obj == roots[|roots| - 1] && roots' == roots[..|roots| - 1]
  {
    obj := vm.Pop();
    roots' := vm.Roots();
  }

  /** Two `pop`s in a row: the two top roots are dropped. */
  method StepPopTwo(vm: VM, ghost roots: seq<Ref>, ghost list: seq<Ref>, ghost kind: seq<Kind>)
      returns (ghost roots': seq<Ref>)
    requires Holds(vm, roots, list, kind) && 2 <= |roots|
    modifies vm
    ensures vm.stack == old(vm.stack) && Holds(vm, roots', list, kind)
    ensures roots' == roots[..|roots| - 2]
  {
    var _, R1 := StepPop(vm, roots, list, kind);
    var _, R2 := StepPop(vm, R1, list, kind);
    roots' := R2;
  }

  /** `a.tailValue = b` on two listed objects, `a` a pair. */
  method StepSetTail(vm: VM, a: Ref, b: Ref, ghost roots: seq<Ref>, ghost list: seq<Ref>, ghost kind: seq<Kind>)
      returns (ghost kind': seq<Kind>)
    requires Holds(vm, roots, list, kind) && a in list && b in list && a < |kind| && kind[a].CompositeObj?
    modifies vm
    ensures vm.stack == old(vm.stack) && Holds(vm, roots, list, kind')
    ensures kind' == kind[a := CompositeObj(kind[a].headValue, Some(b))]
  {
    vm.SetTailValue(a, b);
    kind' := vm.kind;
  }

  /** `a.tailValue = b; b.tailValue = a` on two listed pairs: each pair's
      tail now refers to the other, a cycle. */
  method StepCrossTails(vm: VM, a: Ref, b: Ref, ghost roots: seq<Ref>, ghost list: seq<Ref>, ghost kind: seq<Kind>)
      returns (ghost kind': seq<Kind>)
    requires Holds(vm, roots, list, kind) && a in list && b in list && a != b
    requires a < |kind| && kind[a].CompositeObj? && b < |kind| && kind[b].CompositeObj?
    modifies vm
    ensures vm.stack == old(vm.stack) && Holds(vm, roots, list, kind')
    ensures kind' == kind[a := CompositeObj(kind[a].headValue, Some(b))][b := CompositeObj(kind[b].headValue, Some(a))]
  {
    var K1 := StepSetTail(vm, a, b, roots, list, kind);
    kind' := StepSetTail(vm, b, a, roots, list, K1);
  }

  /** `push` then `pop` hands back the pushed object and leaves the roots as
      they were. */
  method PushThenPop(vm: VM, obj: Ref) returns (popped: Ref)
    requires vm.Valid() && vm.stackSize < STACK_MAX_SIZE && obj in vm.list
    modifies vm, vm.stack
    ensures vm.Valid() && popped == obj && vm.Roots() == old(vm.Roots())
    ensures vm.stackSize == old(vm.stackSize) && vm.list == old(vm.list) && vm.kind == old(vm.kind)
  {
    vm.Push(obj);
    popped := vm.Pop();
  }

  /** The common end of every demonstration: an explicit collection, then
      `freeVM`, which empties the stack and collects everything. */
  method CollectAndFree(vm: VM, ghost kept: seq<Ref>) returns (gc: (nat, nat), free: (nat, nat))
    requires vm.Valid() && Survivors(vm.kind, vm.Roots(), vm.list) == kept
    modifies vm
    ensures gc == (|old(vm.list)| - |kept|, |kept|) && free == (|kept|, 0)
  {
    var c, l := vm.Gc();
    gc := (c, l);
    c, l := vm.FreeVM();
    free := (c, l);
  }

  /** A collection that leaves nothing (as `freeVM`'s always does) sets the
      threshold to 0. The next allocation finds the count equal to it and
      collects again, and afterwards the count, 1, is above the threshold. */
  method AllocateAfterEmptyCollection(vm: VM, t: ObjType) returns (r: Ref)
    requires vm.Valid() && vm.numOfObjects == 0 && vm.maxNumofObjects == 0
    modifies vm
    ensures vm.Valid() && vm.list == [r] && vm.numOfObjects == 1 && vm.maxNumofObjects == 0
  {
    r := vm.NewObject(t);
  }

  /** Once the count is above the threshold, an allocation does not collect:
      the threshold stays and the count stays above it, so no automatic
      collection runs again. */
  method AllocatePastThreshold(vm: VM, t: ObjType) returns (r: Ref)
    requires vm.Valid() && vm.maxNumofObjects < vm.numOfObjects
    modifies vm
    ensures vm.Valid() && vm.list == [r] + old(vm.list) && vm.kind == old(vm.kind) + [ZeroKind(t)]
    ensures vm.maxNumofObjects == old(vm.maxNumofObjects) && vm.maxNumofObjects < vm.numOfObjects
  {
    r := vm.NewObject(t);
  }

  /** Both integers are roots, so both survive. */
  lemma FirstTestSurvivors(k: seq<Kind>, R: seq<Ref>, L: seq<Ref>)
    requires k == [IntObj(1), IntObj(2)] && R == [0, 1] && L == [1, 0]
    ensures Survivors(k, R, L) == L
  {
    RootReachable(k, R, 0);
    RootReachable(k, R, 1);
    SurvivorsAll(k, R, L);
  }

  /** Objects on the stack are preserved. */
  method FirstTest() returns (gc: (nat, nat), free: (nat, nat))
    ensures gc == (0, 2) && free == (2, 0)
  {
    var vm := new VM();
    ghost var R, L, K := StepPushInts(vm, 1, 2, [], [], []);
    FirstTestSurvivors(K, R, L);
    gc, free := CollectAndFree(vm, [1, 0]);
  }

  /** After the first two integers are popped, exactly the last two are
      reachable. */
  lemma SecondTestReachable(k: seq<Kind>, R: seq<Ref>, m: seq<bool>)
    requires k == [IntObj(1), IntObj(2), IntObj(3), IntObj(4)] && R == [2, 3]
    requires m == [false, false, true, true]
    ensures forall x :: 0 <= x < |m| ==> (m[x] <==> Reachable(k, R, x))
  {
    var S := {2, 3};
    RootReachable(k, R, 0);
    RootReachable(k, R, 1);
    assert ChildrenIn(k, S);
    forall x | 0 <= x < |m| ensures m[x] <==> Reachable(k, R, x) {
      if Reachable(k, R, x) {
        ReachableWithin(k, R, S, x);
      }
    }
  }

  /** So the collection keeps only those two. */
  lemma SecondTestSurvivors(k: seq<Kind>, R: seq<Ref>, L: seq<Ref>)
    requires k == [IntObj(1), IntObj(2), IntObj(3), IntObj(4)] && R == [2, 3] && L == [3, 2, 1, 0]
    ensures Survivors(k, R, L) == [3, 2]
  {
    var m := [false, false, true, true];
    SecondTestReachable(k, R, m);
    MarkedAreSurvivors(m, k, R, L);
    assert KeepMarked(m, L[4..]) == [];
    assert KeepMarked(m, L[3..]) == [];
    assert KeepMarked(m, L[2..]) == [];
    assert KeepMarked(m, L[1..]) == [2];
  }

  /** Unreached objects are collected. */
  method SecondTest() returns (gc: (nat, nat), free: (nat, nat))
    ensures gc == (2, 2) && free == (2, 0)
  {
    var vm := new VM();
    ghost var R1, L1, K1 := StepPushInts(vm, 1, 2, [], [], []);
    ghost var R3 := StepPopTwo(vm, R1, L1, K1);
    assert R3 == [];
    ghost var R4, L4, K4 := StepPushInts(vm, 3, 4, R3, L1, K1);
    SecondTestSurvivors(K4, R4, L4);
    gc, free := CollectAndFree(vm, [3, 2]);
  }

  /** Everything hangs off the one root, pair 6, which holds pairs 5 and 2,
      which hold the four integers: so everything survives. */
  lemma ThirdTestSurvivors(k: seq<Kind>, R: seq<Ref>, L: seq<Ref>)
    requires |k| == 7 && R == [6] && InArena(|k|, L)
    requires k[6] == CompositeObj(Some(5), Some(2))
    requires k[5] == CompositeObj(Some(4), Some(3)) && k[2] == CompositeObj(Some(1), Some(0))
    ensures Survivors(k, R, L) == L
  {
    RootReachable(k, R, 0);
    ChildReachable(k, R, 6, 5);
    ChildReachable(k, R, 6, 2);
    ChildReachable(k, R, 5, 4);
    ChildReachable(k, R, 5, 3);
    ChildReachable(k, R, 2, 1);
    ChildReachable(k, R, 2, 0);
    assert forall x :: 0 <= x < 7 ==> Reachable(k, R, x);
    SurvivorsAll(k, R, L);
  }

  /** Reach the nested objects: a pair of two pairs, each of two integers. */
  method ThirdTest() returns (gc: (nat, nat), free: (nat, nat))
    ensures gc == (0, 7) && free == (7, 0)
  {
    var vm := new VM();
    var _, R1, L1, K1 := StepPairOfInts(vm, 1, 2, [], [], []);
    var _, R2, L2, K2 := StepPairOfInts(vm, 3, 4, R1, L1, K1);
    var _, R3, L3, K3 := StepPushPair(vm, R2, L2, K2);
    ThirdTestSurvivors(K3, R3, L3);
    gc, free := CollectAndFree(vm, L3);
  }

  /** The two pairs reach each other and their heads; the integers they no
      longer hold as tails (0 and 3) are unreachable. */
  lemma FourthTestReachable(k: seq<Kind>, R: seq<Ref>, m: seq<bool>)
    requires k == AsWritten.CycleDemoKinds() && R == [2, 5]
    requires m == [false, true, true, false, true, true]
    ensures forall x :: 0 <= x < |m| ==> (m[x] <==> Reachable(k, R, x))
  {
    var S := {1, 2, 4, 5};
    RootReachable(k, R, 0);
    RootReachable(k, R, 1);
    ChildReachable(k, R, 2, 1);
    ChildReachable(k, R, 5, 4);
    assert ChildrenIn(k, S);
    forall x | 0 <= x < |m| ensures m[x] <==> Reachable(k, R, x) {
      if Reachable(k, R, x) {
        ReachableWithin(k, R, S, x);
      }
    }
  }

  /** So the collection keeps the two pairs and their heads, in list order. */
  lemma FourthTestSurvivors(k: seq<Kind>, R: seq<Ref>, L: seq<Ref>)
    requires k == AsWritten.CycleDemoKinds() && R == [2, 5] && L == [5, 4, 3, 2, 1, 0]
    ensures Survivors(k, R, L) == [5, 4, 2, 1]
  {
    var m := [false, true, true, false, true, true];
    FourthTestReachable(k, R, m);
    MarkedAreSurvivors(m, k, R, L);
    FourthTestKept(m, L);
  }

  /** Filtering the cycle demo's list by its reachability bits. */
  lemma FourthTestKept(m: seq<bool>, L: seq<Ref>)
    requires m == [false, true, true, false, true, true] && L == [5, 4, 3, 2, 1, 0]
    ensures KeepMarked(m, L) == [5, 4, 2, 1]
  {
    assert KeepMarked(m, L[6..]) == [];
    assert KeepMarked(m, L[5..]) == [];
    assert KeepMarked(m, L[4..]) == [1];
    assert KeepMarked(m, L[3..]) == [2, 1];
    assert KeepMarked(m, L[2..]) == [2, 1];
    assert KeepMarked(m, L[1..]) == [4, 2, 1];
  }

  /** Cycles: after two pairs are built, each one's tail is made to point at
      the other. */
  method FourthTest() returns (gc: (nat, nat), free: (nat, nat))
    ensures gc == (2, 4) && free == (4, 0)
  {
    var vm := new VM();
    var a, R1, L1, K1 := StepPairOfInts(vm, 1, 2, [], [], []);
    var b, R2, L2, K2 := StepPairOfInts(vm, 3, 4, R1, L1, K1);
    ghost var K3 := StepCrossTails(vm, a, b, R2, L2, K2);
    FourthTestSurvivors(K3, R2, L2);
    gc, free := CollectAndFree(vm, [5, 4, 2, 1]);
  }
}
