/** The Go collector's two defective routines, as models of what the code
    does: the recursion of the Go `mark`, as a predicate saying whether it
    returns (the bits it sets are left out; they never stop the recursion),
    and the Go sweep step by step, bounded by fuel. The corrected routines
    are `Mark` and `MarkSweep` in module VirtualMachine. */
module AsWritten {
  import opened Objects
  import opened Reachability

  /** Whether the Go `mark` routine, which marks and recurses into both
      children of every pair it meets whether or not the pair is already
      marked, returns within `depth` nested calls when started on `o`. */
  function MarkReturnsWithin(kind: seq<Kind>, o: Option<Ref>, depth: nat): (r: bool)
    ensures r && depth == 0 ==> o.None? || o.value >= |kind| || kind[o.value].IntObj?
    decreases depth
  {
    match o
    case None => true
    case Some(x) =>
      if x >= |kind| then true
      else match kind[x]
        case IntObj(_) => true
        case CompositeObj(hd, tl) =>
          depth > 0 && MarkReturnsWithin(kind, hd, depth - 1) && MarkReturnsWithin(kind, tl, depth - 1)
  }

  /** Started on any object of a cycle of pairs, the unguarded routine never
      returns, however deep the call stack may grow. */
  lemma {:induction false} CycleNeverReturns(kind: seq<Kind>, p: seq<Ref>, i: nat, depth: nat)
    requires IsPath(kind, p) && |p| >= 2 && p[0] == p[|p| - 1] && i < |p|
    ensures !MarkReturnsWithin(kind, Some(p[i]), depth)
    decreases depth
  {
    var j := if i < |p| - 1 then i + 1 else 1;
    assert Child(kind, p[i], p[j]) by {
      if i == |p| - 1 {
        assert Child(kind, p[0], p[1]);
      }
    }
    if depth > 0 {
      CycleNeverReturns(kind, p, j, depth - 1);
    }
  }

  /** Without a cycle the unguarded routine does return. Pairs built by
      `pushPair` refer only to objects allocated before them, that is with a
      smaller index; on such an arena the routine returns within a depth
      above the index of the object it starts on. */
  lemma {:induction false} MarkReturnsWhenChildrenOlder(kind: seq<Kind>, o: Option<Ref>, depth: nat)
    requires forall x: Ref, y: Ref :: Child(kind, x, y) ==> y < x
    requires o.Some? ==> o.value < depth
    ensures MarkReturnsWithin(kind, o, depth)
    decreases depth
  {
    if o.Some? && o.value < |kind| && kind[o.value].CompositeObj? {
      var x := o.value;
      var hd, tl := kind[x].headValue, kind[x].tailValue;
      assert hd.Some? ==> Child(kind, x, hd.value);
      assert tl.Some? ==> Child(kind, x, tl.value);
      MarkReturnsWhenChildrenOlder(kind, hd, depth - 1);
      MarkReturnsWhenChildrenOlder(kind, tl, depth - 1);
    }
  }

  /** The kinds the cycle demo builds: two integers under pair `a` (object
      2), two under pair `b` (object 5), and then `a.tailValue = b` and
      `b.tailValue = a`. */
  function CycleDemoKinds(): (k: seq<Kind>)
    ensures RefsInRange(k) && Child(k, 2, 5) && Child(k, 5, 2)
  {
    [IntObj(1), IntObj(2), CompositeObj(Some(1), Some(5)),
     IntObj(3), IntObj(4), CompositeObj(Some(4), Some(2))]
  }

  /** In the cycle demo the first root is `a`, and the unguarded routine
      started on it never returns, whereas the guarded one terminates on
      every arena (its `decreases` clause). */
  lemma CycleDemoMarkNeverReturns(depth: nat)
    ensures !MarkReturnsWithin(CycleDemoKinds(), Some(2), depth)
  {
    var k := CycleDemoKinds();
    var p := [2, 5, 2];
    assert Child(k, 2, 5) && Child(k, 5, 2);
    assert IsPath(k, p);
    CycleNeverReturns(k, p, 0, depth);
  }

  /** The Go sweep: on an unreached object it moves the slot pointer to that
      object's `next` field and then stores nil, not the successor, in the
      slot it left, which cuts the list there. `fuel` bounds the number of
      steps (the walk follows a finite acyclic list in every VM state). */
  function SweepAsWritten(head: Option<Ref>, next: seq<Option<Ref>>, isMarked: seq<bool>,
                          slot: Slot, count: int, fuel: nat): (r: (Option<Ref>, seq<Option<Ref>>, seq<bool>, int))
    ensures |r.1| == |next| && |r.2| == |isMarked|
    ensures r.3 <= count
    decreases fuel
  {
    var cur := ReadSlot(head, next, slot);
    if fuel == 0 || cur.None? || cur.value >= |next| || cur.value >= |isMarked| then
      (head, next, isMarked, count)
    else
      var x := cur.value;
      if !isMarked[x] then
        var w := WriteSlot(head, next, slot, None);
        SweepAsWritten(w.0, w.1, isMarked, NextSlot(x), count - 1, fuel - 1)
      else
        SweepAsWritten(head, next, isMarked[x := false], NextSlot(x), count, fuel - 1)
  }

  /** A list 2 -> 1 -> 0 where 2 and 0 are reached and 1 is not. The as-written
      sweep leaves the list holding 2 alone while the count says two objects
      are live: object 0, which is reachable, has been dropped from the list.
      The intended result keeps 2 and 0, linked. */
  lemma SweepAsWrittenDropsLiveObject()
    ensures var next, isMarked := [None, Some(0), Some(1)], [true, false, true];
            var r := SweepAsWritten(Some(2), next, isMarked, HeadSlot, 3, 3);
            && ListShaped(r.1, r.0, [2])
            && r.3 == 2
            && KeepMarked(isMarked, [2, 1, 0]) == [2, 0]
  {
    var next, isMarked := [None, Some(0), Some(1)], [true, false, true];
    var r := SweepAsWritten(Some(2), next, isMarked, HeadSlot, 3, 3);
    assert r.0 == Some(2) && r.1 == [None, Some(0), None] && r.3 == 2;
  }

  /** After the cut: from the `next` field of `L[k - 1]`, which holds
      `L[k]`, the Go sweep visits the rest of the list. It counts down every
      unmarked object, never writes the head, and leaves the `next` fields of
      `L[..k - 1]` alone. */
  lemma {:induction false} SweepAsWrittenRest(head: Option<Ref>, next: seq<Option<Ref>>, isMarked: seq<bool>,
                                               count: int, fuel: nat, L: seq<Ref>, k: nat)
    requires Distinct(L) && InArena(|next|, L) && |isMarked| == |next| && 0 < k <= |L|
    requires forall j :: k <= j < |L| ==> next[L[j]] == (if j + 1 < |L| then Some(L[j + 1]) else None)
    requires next[L[k - 1]] == (if k < |L| then Some(L[k]) else None)
    requires fuel >= |L| - k
    ensures var r := SweepAsWritten(head, next, isMarked, NextSlot(L[k - 1]), count, fuel);
            && r.0 == head
            && (forall j :: 0 <= j < k - 1 ==> r.1[L[j]] == next[L[j]])
            && r.3 == count - (|L| - k - |KeepMarked(isMarked, L[k..])|)
    decreases |L| - k
  {
    var slot := NextSlot(L[k - 1]);
    if k == |L| {
      assert L[k..] == [];
    } else {
      var x := L[k];
      assert L[k..][0] == x && L[k..][1..] == L[k + 1..];
      if !isMarked[x] {
        var w := WriteSlot(head, next, slot, None);
        assert w.1 == next[L[k - 1] := None];
        assert SweepAsWritten(head, next, isMarked, slot, count, fuel)
            == SweepAsWritten(w.0, w.1, isMarked, NextSlot(x), count - 1, fuel - 1);
        SweepAsWrittenRest(w.0, w.1, isMarked, count - 1, fuel - 1, L, k + 1);
      } else {
        var m' := isMarked[x := false];
        KeepMarkedFrame(isMarked, m', L[k + 1..]);
        assert SweepAsWritten(head, next, isMarked, slot, count, fuel)
            == SweepAsWritten(head, next, m', NextSlot(x), count, fuel - 1);
        SweepAsWrittenRest(head, next, m', count, fuel - 1, L, k + 1);
      }
    }
  }

  /** Before the cut: while the objects it visits are marked, the Go sweep
      only clears their bits. When it reaches the first unmarked object
      `L[i]`, it stores nil in the slot of `L[i - 1]` (or in the head), so the
      list from the head ends up holding `L[..i]` alone, while the count goes
      down by the unmarked objects of `L[i..]` only. */
  lemma {:induction false} SweepAsWrittenPrefix(next: seq<Option<Ref>>, head: Option<Ref>, isMarked: seq<bool>,
                                                 count: int, fuel: nat, L: seq<Ref>, k: nat, i: nat)
    requires ListShaped(next, head, L) && |isMarked| == |next|
    requires k <= i <= |L| && fuel >= |L| - k
    requires forall j :: k <= j < i ==> isMarked[L[j]]
    requires i < |L| ==> !isMarked[L[i]]
    ensures var r := SweepAsWritten(head, next, isMarked, if k == 0 then HeadSlot else NextSlot(L[k - 1]), count, fuel);
            && ListShaped(r.1, r.0, L[..i])
            && r.3 == count - (|L| - i - |KeepMarked(isMarked, L[i..])|)
    decreases i - k
  {
    var slot := if k == 0 then HeadSlot else NextSlot(L[k - 1]);
    ReadSlotFollowsList(next, head, L, k);
    if k < i {
      var x := L[k];
      var m' := isMarked[x := false];
      assert forall j :: 0 <= j < |L[i..]| ==> L[i..][j] == L[i + j];
      KeepMarkedFrame(isMarked, m', L[i..]);
      assert SweepAsWritten(head, next, isMarked, slot, count, fuel)
          == SweepAsWritten(head, next, m', NextSlot(x), count, fuel - 1);
      SweepAsWrittenPrefix(next, head, m', count, fuel - 1, L, k + 1, i);
    } else if i == |L| {
      assert L[..i] == L && L[i..] == [];
    } else {
      SweepAsWrittenCut(next, head, isMarked, count, fuel, L, i);
    }
  }

  /** The cut itself: on reaching the first unmarked object `L[i]`, which
      follows `L[..i]`, the Go sweep stores nil in the slot that held it. */
  lemma SweepAsWrittenCut(next: seq<Option<Ref>>, head: Option<Ref>, isMarked: seq<bool>,
                          count: int, fuel: nat, L: seq<Ref>, i: nat)
    requires ListShaped(next, head, L) && |isMarked| == |next|
    requires i < |L| && fuel >= |L| - i && !isMarked[L[i]]
    ensures var r := SweepAsWritten(head, next, isMarked, if i == 0 then HeadSlot else NextSlot(L[i - 1]), count, fuel);
            && ListShaped(r.1, r.0, L[..i])
            && r.3 == count - (|L| - i - |KeepMarked(isMarked, L[i..])|)
  {
    var slot := if i == 0 then HeadSlot else NextSlot(L[i - 1]);
    ReadSlotFollowsList(next, head, L, i);
    var x := L[i];
    var w := WriteSlot(head, next, slot, None);
    assert SweepAsWritten(head, next, isMarked, slot, count, fuel)
        == SweepAsWritten(w.0, w.1, isMarked, NextSlot(x), count - 1, fuel - 1);
    assert forall j :: i <= j < |L| ==> w.1[L[j]] == next[L[j]];
    SweepAsWrittenRest(w.0, w.1, isMarked, count - 1, fuel - 1, L, i + 1);
    var r := SweepAsWritten(w.0, w.1, isMarked, NextSlot(x), count - 1, fuel - 1);
    assert L[i..][0] == x && L[i..][1..] == L[i + 1..];
    var P := L[..i];
    forall j | 0 <= j < |P| ensures r.1[P[j]] == (if j + 1 < |P| then Some(P[j + 1]) else None) {
      assert r.1[P[j]] == w.1[L[j]];
    }
    assert ListShaped(r.1, r.0, P);
  }

  /** The Go sweep on a well-formed list whose first unmarked object is
      `L[i]` (or that has none, when `i == |L|`): the list left behind holds
      `L[..i]` alone, while the count is the number of marked objects. Every
      marked object after `L[i]` is still counted but no longer listed; the
      corrected sweep keeps them all (`VirtualMachine.VM.MarkSweep`). */
  lemma SweepAsWrittenCutsList(next: seq<Option<Ref>>, head: Option<Ref>, isMarked: seq<bool>, L: seq<Ref>, i: nat)
    requires ListShaped(next, head, L) && |isMarked| == |next| && i <= |L|
    requires forall j :: 0 <= j < i ==> isMarked[L[j]]
    requires i < |L| ==> !isMarked[L[i]]
    ensures var r := SweepAsWritten(head, next, isMarked, HeadSlot, |L|, |L|);
            ListShaped(r.1, r.0, L[..i]) && r.3 == |KeepMarked(isMarked, L)|
  {
    SweepAsWrittenPrefix(next, head, isMarked, |L|, |L|, L, 0, i);
    assert L == L[..i] + L[i..];
    KeepMarkedAppend(isMarked, L[..i], L[i..]);
    KeepMarkedAllMarked(isMarked, L[..i]);
  }
}
