/** The object store of the toy VM: the two object kinds, the arena that holds
    them, and the intrusive allocation list that threads the live ones through
    their `next` links. The arena keeps each field of the objects in its own
    sequence, indexed by reference: `next[x]`, `isMarked[x]` and `kind[x]` are
    the fields of object `x`. */
module Objects {

  datatype Option<+T> = None | Some(value: T)

  /** A reference to a heap object: its index in the VM's arena. */
  type Ref = nat

  /** What tells the two Go structs apart: an integer payload (IntObj) or two
      references (CompositeObj), either of which may be nil. */
  datatype Kind =
    | IntObj(value: int)
    | CompositeObj(headValue: Option<Ref>, tailValue: Option<Ref>)

  /** The type argument of the allocator. */
  datatype ObjType = IntType | CompositeType

  /** The payload of a freshly allocated object: the zero value of its struct. */
  function ZeroKind(t: ObjType): (k: Kind)
    ensures k.IntObj? <==> t == IntType
    ensures k.IntObj? ==> k.value == 0
    ensures k.CompositeObj? ==> k.headValue.None? && k.tailValue.None?
  {
    match t
    case IntType => IntObj(0)
    case CompositeType => CompositeObj(None, None)
  }

  /** A place that holds a link: the list head or the `next` field of an
      object. The sweep walks the list with a pointer to such a place. */
  datatype Slot = HeadSlot | NextSlot(owner: Ref)

  /** Reads the link held in slot `s`; the `next` field of an object outside
      the arena reads as nil. */
  function ReadSlot(head: Option<Ref>, next: seq<Option<Ref>>, s: Slot): (r: Option<Ref>)
    ensures r.Some? ==> s.HeadSlot? || s.owner < |next|
  {
    match s
    case HeadSlot => head
    case NextSlot(p) => if p < |next| then next[p] else None
  }

  /** Stores `v` in slot `s`; returns the new head and links. */
  function WriteSlot(head: Option<Ref>, next: seq<Option<Ref>>, s: Slot, v: Option<Ref>): (r: (Option<Ref>, seq<Option<Ref>>))
    ensures |r.1| == |next|
    ensures s.HeadSlot? || s.owner < |next| ==> ReadSlot(r.0, r.1, s) == v
    ensures forall i :: 0 <= i < |next| && s != NextSlot(i) ==> r.1[i] == next[i]
    ensures s.NextSlot? ==> r.0 == head
    ensures s.HeadSlot? ==> r.1 == next
  {
    match s
    case HeadSlot => (v, next)
    case NextSlot(p) => (head, if p < |next| then next[p := v] else next)
  }

  ghost predicate Distinct(L: seq<Ref>)
  {
    forall j, k :: 0 <= j < k < |L| ==> L[j] != L[k]
  }

  /** Every element of `L` is a reference into an arena of `size` objects. */
  ghost predicate InArena(size: nat, L: seq<Ref>)
  {
    forall k :: 0 <= k < |L| ==> L[k] < size
  }

  /** `L` is the allocation list that starts at `head`: distinct objects of the
      arena, each linked to the next, the last one to nil. */
  ghost predicate ListShaped(next: seq<Option<Ref>>, head: Option<Ref>, L: seq<Ref>)
  {
    && InArena(|next|, L)
    && Distinct(L)
    && head == (if L == [] then None else Some(L[0]))
    && (forall k :: 0 <= k < |L| ==> next[L[k]] == (if k + 1 < |L| then Some(L[k + 1]) else None))
  }

  /** The link of the `j`-th listed object. */
  lemma ListLink(next: seq<Option<Ref>>, head: Option<Ref>, L: seq<Ref>, j: nat)
    requires ListShaped(next, head, L) && j < |L|
    ensures L[j] < |next| && next[L[j]] == (if j + 1 < |L| then Some(L[j + 1]) else None)
  {
  }

  /** On a well-formed list, the head holds the first object and the `next`
      field of the `k`-th object holds the one after it (nil after the last):
      the slot the sweep reads after passing `k` objects holds the next one. */
  lemma ReadSlotFollowsList(next: seq<Option<Ref>>, head: Option<Ref>, L: seq<Ref>, k: nat)
    requires ListShaped(next, head, L) && k <= |L|
    ensures ReadSlot(head, next, if k == 0 then HeadSlot else NextSlot(L[k - 1]))
            == (if k < |L| then Some(L[k]) else None)
  {
    if k > 0 {
      ListLink(next, head, L, k - 1);
    }
  }

  /** Linking a new object, appended to the arena, in front of the list. */
  lemma ListShapedPrepend(next: seq<Option<Ref>>, head: Option<Ref>, L: seq<Ref>)
    requires ListShaped(next, head, L)
    ensures ListShaped(next + [head], Some(|next|), [|next|] + L)
  {
    var n', L' := next + [head], [|next|] + L;
    forall k | 0 <= k < |L'| ensures L'[k] < |n'| {
      if k > 0 { assert L'[k] == L[k - 1] && L[k - 1] < |next|; }
    }
    forall j, k | 0 <= j < k < |L'| ensures L'[j] != L'[k] {
      assert L'[k] == L[k - 1] && L[k - 1] < |next|;
      if j > 0 { assert L'[j] == L[j - 1]; }
    }
    forall k | 0 <= k < |L'|
      ensures n'[L'[k]] == (if k + 1 < |L'| then Some(L'[k + 1]) else None)
    {
      if k > 0 {
        ListLink(next, head, L, k - 1);
        assert L'[k] == L[k - 1] && n'[L[k - 1]] == next[L[k - 1]];
        assert k + 1 < |L'| ==> L'[k + 1] == L[k];
      } else {
        assert L'[0] == |next| && n'[|next|] == head;
        assert |L'| > 1 ==> L'[1] == L[0];
      }
    }
    assert InArena(|n'|, L') && Distinct(L');
    assert Some(|next|) == (if L' == [] then None else Some(L'[0]));
    assert ListShaped(n', Some(|next|), L');
  }

  /** The objects of `L` whose mark bit is set, in list order. */
  ghost function KeepMarked(isMarked: seq<bool>, L: seq<Ref>): seq<Ref>
  {
    if L == [] then []
    else (if L[0] < |isMarked| && isMarked[L[0]] then [L[0]] else []) + KeepMarked(isMarked, L[1..])
  }

  /** Filtering distributes over concatenation: survivors keep their relative
      order. */
  lemma {:induction false} KeepMarkedAppend(isMarked: seq<bool>, A: seq<Ref>, B: seq<Ref>)
    ensures KeepMarked(isMarked, A + B) == KeepMarked(isMarked, A) + KeepMarked(isMarked, B)
  {
    if A != [] {
      assert (A + B)[1..] == A[1..] + B;
      KeepMarkedAppend(isMarked, A[1..], B);
    } else {
      assert A + B == B;
    }
  }

  /** An object is kept exactly when it is listed and marked. */
  lemma {:induction false} KeepMarkedMembers(isMarked: seq<bool>, L: seq<Ref>, x: Ref)
    ensures x in KeepMarked(isMarked, L) <==> x in L && x < |isMarked| && isMarked[x]
  {
    if L != [] {
      KeepMarkedMembers(isMarked, L[1..], x);
      assert L == [L[0]] + L[1..];
    }
  }

  /** The filter reads only the bits of the listed objects. */
  lemma {:induction false} KeepMarkedFrame(isMarked: seq<bool>, isMarked': seq<bool>, L: seq<Ref>)
    requires forall j :: 0 <= j < |L| ==>
               (L[j] < |isMarked| && isMarked[L[j]]) == (L[j] < |isMarked'| && isMarked'[L[j]])
    ensures KeepMarked(isMarked', L) == KeepMarked(isMarked, L)
  {
    if L != [] {
      assert forall j :: 0 <= j < |L[1..]| ==> L[1..][j] == L[j + 1];
      KeepMarkedFrame(isMarked, isMarked', L[1..]);
      assert (L[0] < |isMarked| && isMarked[L[0]]) == (L[0] < |isMarked'| && isMarked'[L[0]]);
    }
  }

  /** When every listed object is marked, the filter keeps them all. */
  lemma {:induction false} KeepMarkedAllMarked(isMarked: seq<bool>, L: seq<Ref>)
    requires forall j :: 0 <= j < |L| ==> L[j] < |isMarked| && isMarked[L[j]]
    ensures KeepMarked(isMarked, L) == L
  {
    if L != [] {
      assert forall j :: 0 <= j < |L[1..]| ==> L[1..][j] == L[j + 1];
      KeepMarkedAllMarked(isMarked, L[1..]);
      assert L[0] < |isMarked| && isMarked[L[0]];
    }
  }

  /** The kept objects are distinct objects of the arena, and never more than
      were listed. */
  lemma {:induction false} KeepMarkedShape(isMarked: seq<bool>, L: seq<Ref>)
    requires Distinct(L)
    ensures InArena(|isMarked|, KeepMarked(isMarked, L)) && Distinct(KeepMarked(isMarked, L))
    ensures |KeepMarked(isMarked, L)| <= |L|
  {
    if L != [] {
      KeepMarkedShape(isMarked, L[1..]);
      KeepMarkedMembers(isMarked, L[1..], L[0]);
    }
  }
}
