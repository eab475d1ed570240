# Mark-and-sweep collector of a toy VM

This project models the toy virtual machine in `main.go`. The VM has a fixed stack of 256 root references. The objects it allocates are integers (`IntObj`) and pairs (`CompositeObj`). Every allocated object is threaded onto an intrusive allocation list through its `next` field, most recent first. A stop-the-world mark-and-sweep collector reclaims the objects that no root reaches.

- **Allocation** (`newObjet`): before each allocation, the live count is compared with a threshold. The initial threshold is 8. When the count equals the threshold, the VM collects first. After every collection the threshold becomes twice the number of objects left.
- **Marking** (`markAll`, `mark`): the collector marks from every stack slot below `stackSize`.
- **Sweeping** (`markSweep`): a pointer walks the allocation list, pointing at whichever slot holds the current object (the list head or a `next` field). An unmarked object is unlinked and the live count is decremented. A marked object has its bit cleared.
- **Teardown** (`freeVM`): empties the stack and collects.
- **Demo programs**: four small programs build lists, nested pairs and a cycle, then collect.

The Dafny model has four modules, one per file. Module names are given first, file names in parentheses.

- **`Objects`** (`objects.dfy`): the object kinds and the arena. Object `x`'s fields are `next[x]`, `isMarked[x]` and `kind[x]`, and a reference is an index into the arena. Also:
  - `ListShaped`, which ties a ghost sequence to the `next` links;
  - the slot reads and writes the sweep uses;
  - `KeepMarked`, which filters a list by its mark bits.
- **`Reachability`** (`reachability.dfy`): paths along pair references, the predicate `Reachable`, and `Survivors`: the listed objects that are reachable, in list order.
- **`VirtualMachine`** (`vm.dfy`): the `VM` class.
  - Its fields are the Go struct's fields plus the arena. The stack is an `array`.
  - Every VM operation keeps `Valid` true. The three collector phases (`Mark`, `MarkAll`, `MarkSweep`) are the exception: they run inside `Gc`, where mark bits are set, and state their own conditions instead. `Valid` says:
    - the list is well formed;
    - the count is the list's length;
    - roots and the children of live pairs are live;
    - no mark bit is left set between collections.
  - The sweep is a `while` loop over a slot pointer, proved against `KeepMarked` with a loop invariant (`SweepInv`). Marking is recursive and proved against `Reachable`. A collection is proved to keep exactly `Survivors`.
- **`AsWritten`** (`aswritten.dfy`): the two defective collector routines of the Go code. The recursion of the Go `mark` is a predicate saying whether it returns within a given depth; the bits it sets are left out, since they never stop the recursion. The Go sweep is followed step by step, bounded by fuel. Lemmas about both show the defects described under "## Findings". The corrected routines are `Mark` and `MarkSweep` in module VirtualMachine.
- **`Scenarios`** (`scenarios.dfy`): the four demo programs. Each is proved to report the counts its collections print.

Three behaviours of the code are easy to misread, and the model follows the code in each:

- `pop` does not clear the slot it vacates.
- `pushPair` uses the first value popped as the head and the second as the tail.
- The cycle demo *replaces* the tails of its two pairs. The integers 1 and 3 that were there become garbage, so under the guarded `Mark` its first collection reclaims 2 objects and leaves 4, rather than reclaiming nothing. With the Go `mark` as written that collection never finishes (see "## Findings").

In two places the model corrects the code, as described under "## Findings": the VM's `Mark` returns at once on an object that is already marked, and its sweep stores the successor of an unlinked object in the slot, rather than nil.

## Model

| member | source | states |
|---|---|---|
| `Objects.ZeroKind` | main.go:115-135 | Allocating an integer gives an integer object holding 0; allocating a pair gives a pair whose head and tail are nil; the kind always matches the requested type |
| `Objects.ReadSlot` | main.go:74-77 | Reads the link held in the list head or in an object's `next` field; only those two kinds of slot can hold a reference, and a `next` field outside the arena reads as nil |
| `Objects.ReadSlotFollowsList` | main.go:72-98 | On a well-formed list, the slot the sweep reads after passing `k` objects (the head when `k` is 0, the `next` field of the `k`-th object otherwise) holds the next listed object, or nil after the last |
| `Objects.WriteSlot` | main.go:72-95 | Storing through the sweep's slot pointer changes exactly that slot: the head, or one object's `next` field; the size of the arena and every other link stay the same |
| `Objects.ListShapedPrepend` | main.go:121-123 | Linking a new object (the next arena index) in front of a well-formed list gives a well-formed list with that object at its head |
| `Objects.KeepMarkedMembers` | main.go:71-99 | The sweep keeps an object exactly when it was listed and marked |
| `Objects.KeepMarkedAppend` | main.go:71-99 | The sweep's filter distributes over concatenation, so kept objects keep their relative order |
| `Objects.KeepMarkedFrame` | main.go:77-96 | Which objects the sweep keeps depends only on the mark bits of the listed objects |
| `Objects.KeepMarkedAllMarked` | main.go:83-86 | When every listed object is marked, the sweep's filter keeps the whole list |
| `Objects.KeepMarkedShape` | main.go:71-99 | The objects the sweep keeps are distinct objects of the arena, and never more than were listed |
| `Reachability.ReachableWithin` | main.go:52-69 | Any set that holds the roots and is closed under taking children holds every reachable object: reachability is the least such set |
| `Reachability.ChildReachable` | main.go:66-67 | The head and the tail of a reachable pair are reachable |
| `Reachability.RootReachable` | main.go:53-54 | Every stack slot below `stackSize` holds a reachable object |
| `Reachability.SurvivorsMembers` | main.go:153-161 | An object survives a collection exactly when it was listed and is reachable from a root |
| `Reachability.SurvivorsAll` | main.go:153-161 | When every listed object is reachable, a collection keeps the whole list |
| `Reachability.NoRootsNoSurvivors` | main.go:163-166 | With an empty stack, nothing survives a collection |
| `Reachability.MarkedAreSurvivors` | main.go:155-156 | When the mark bits are exactly reachability, keeping the marked objects keeps the survivors in list order |
| `VirtualMachine.MarkStep` | main.go:53-55 | After marking from one more root, the marked set is still closed under children, and everything marked is reachable from the roots so far |
| `VirtualMachine.MarkedContainReachable` | main.go:52-69 | A marked set that holds the roots and is closed under children contains every reachable object |
| `VirtualMachine.KeptUpToPrefix` | main.go:74-98 | What the sweep has kept after visiting `k` objects is the marked objects among the first `k` listed |
| `VirtualMachine.SweepStart` | main.go:72 | A sweep begins with the slot pointer at the list head, nothing visited and nothing kept |
| `VirtualMachine.SweepUnlink` | main.go:77-82 | Unlinking an unmarked object by storing its successor in the current slot keeps the sweep invariant, with one more object visited and nothing more kept |
| `VirtualMachine.SweepKeep` | main.go:83-86 | Clearing a marked object's bit and moving the slot pointer to its `next` field keeps the sweep invariant, with that object kept |
| `VirtualMachine.SweepDone` | main.go:74 | When the slot holds nil, the kept objects are the marked ones of the original list, linked in order from the head |
| `VirtualMachine.VM.constructor` | main.go:42-50 | A new VM has an empty stack, an empty list with a nil head, a live count of 0 and the threshold `ICGT` = 8 |
| `VirtualMachine.VM.Mark` | main.go:58-69 | Marking an object never clears a bit and leaves the object marked; every newly marked object is reached from it and has its children marked; the routine terminates on every graph, cycles included |
| `VirtualMachine.VM.MarkAll` | main.go:52-56 | After marking from every root, an object is marked exactly when it is reachable from the stack |
| `VirtualMachine.VM.MarkSweep` | main.go:71-99 | The new list is the marked objects of the old list, in order and linked from the head; the count is the new list's length; kept objects have their bit cleared and other objects keep theirs; the `next` field of every object outside the new list is as it was |
| `VirtualMachine.VM.Gc` | main.go:153-161 | A collection keeps exactly the reachable listed objects, in order; the `next` fields of objects outside the new list are untouched; the threshold becomes twice what is left; it returns the reclaimed and left counts that the Go routine prints |
| `VirtualMachine.VM.NewObject` | main.go:115-135 | Collects exactly when the count has reached the threshold, and only then changes the threshold; the new object (the next arena index, of the requested kind's zero value) is linked in front of what is left |
| `VirtualMachine.VM.Push` | main.go:101-108 | The object becomes the new top root; only the slot at `stackSize` of the stack array changes |
| `VirtualMachine.VM.Pop` | main.go:110-113 | Returns the top root and removes it from the roots; the vacated slot is not cleared |
| `VirtualMachine.VM.PushInt` | main.go:137-142 | Allocates (collecting first if the threshold is reached) an integer object holding the value, and pushes it as a new root |
| `VirtualMachine.VM.PushPair` | main.go:144-151 | Allocates a pair whose head is the former top root and whose tail is the one below it; those two roots are replaced by the pair; both operands are still live |
| `VirtualMachine.VM.SetPairValues` | main.go:146-147 | The pair's head and tail become the two given live objects; nothing else changes |
| `VirtualMachine.VM.SetTailValue` | main.go:234-235 | The pair's tail becomes the given live object and its head is kept |
| `VirtualMachine.VM.FreeVM` | main.go:163-166 | Tearing down reclaims every object: the stack and the list are empty, the head is nil, the count and the threshold are 0 |
| `AsWritten.MarkReturnsWithin` | main.go:58-69 | Whether the Go `mark`, which recurses into both children of every pair without testing its bit, returns within `depth` nested calls; with no depth left it returns only on nil or an integer |
| `AsWritten.MarkReturnsWhenChildrenOlder` | main.go:58-69 | When every pair refers only to objects allocated before it, as `pushPair` builds them (main.go:144-151), the Go `mark` does return, within a depth above the index of the object it starts on |
| `AsWritten.CycleDemoKinds` | main.go:227-235 | The objects the cycle demo builds: every reference stays in the arena, and pairs 2 and 5 refer to each other through their tails |
| `AsWritten.CycleNeverReturns` | main.go:58-69 | The Go `mark`, started on any pair that lies on a cycle, never returns, however deep the call stack may grow |
| `AsWritten.CycleDemoMarkNeverReturns` | main.go:223-237 | In the cycle demo, the Go `mark` started on the first root never returns |
| `AsWritten.SweepAsWritten` | main.go:71-99 | The Go sweep keeps the size of the arena, and its live count never grows |
| `AsWritten.SweepAsWrittenRest` | main.go:74-98 | After the cut, the Go sweep walks the rest of the list, counts down exactly its unmarked objects, leaves the head alone, and writes no `next` field of the objects listed before the cut |
| `AsWritten.SweepAsWrittenCut` | main.go:77-82 | Reaching the first unmarked object, the Go sweep stores nil in the slot that held it, so the list from the head holds only the objects before it, while the count drops only by the unmarked objects from there on |
| `AsWritten.SweepAsWrittenPrefix` | main.go:83-86 | While the objects it visits are marked, the Go sweep only clears their bits, so its result is that of starting at the first unmarked object |
| `AsWritten.SweepAsWrittenCutsList` | main.go:71-99 | On a well-formed list whose first unmarked object is `L[i]`, the Go sweep leaves a list holding `L[..i]` alone, while the count is the number of marked objects: every marked object after `L[i]` is counted but lost |
| `AsWritten.SweepAsWrittenDropsLiveObject` | main.go:77-82 | On the list 2 -> 1 -> 0 with only 1 unmarked, the Go sweep leaves a list holding 2 alone while its count says two objects are live; the intended result keeps 2 and 0 |
| `Scenarios.PushThenPop` | main.go:101-113 | Pushing a live object and popping returns that object and leaves the roots, the list and the objects as they were |
| `Scenarios.CollectAndFree` | main.go:174-175 | A collection followed by a teardown reports as reclaimed, first, the unreachable listed objects, and then all that were left |
| `Scenarios.AllocateAfterEmptyCollection` | main.go:115-117 | After a collection that leaves nothing, the threshold is 0: the next allocation collects again and leaves a count of 1 above a threshold of 0 |
| `Scenarios.AllocatePastThreshold` | main.go:115-135 | Once the count is above the threshold, an allocation does not collect, the threshold stays, and the count stays above it, so no automatic collection runs again |
| `Scenarios.StepPushInt` | main.go:137-142 | Below the threshold, pushing an integer adds the next arena index to the roots and to the front of the list |
| `Scenarios.StepPushInts` | main.go:171-172 | Below the threshold, pushing two integers adds two consecutive arena indices as roots, the second one at the front of the list |
| `Scenarios.StepPushPair` | main.go:144-151 | Below the threshold, the new pair refers to the two top roots and replaces them on the stack |
| `Scenarios.StepPairOfInts` | main.go:210-212 | Two integers and a pair over them: the pair's head is the second integer and its tail the first, and only the pair stays on the stack |
| `Scenarios.StepPop` | main.go:110-113 | Popping removes the top root and returns it; the list and the objects do not change |
| `Scenarios.StepPopTwo` | main.go:183-184 | Two pops in a row drop the two top roots; the list and the objects do not change |
| `Scenarios.StepSetTail` | main.go:234 | Setting a pair's tail changes that pair's tail only |
| `Scenarios.StepCrossTails` | main.go:234-235 | Two pairs end up pointing at each other through their tails: a cycle |
| `Scenarios.FirstTestSurvivors` | main.go:168-176 | With both integers on the stack, both survive |
| `Scenarios.FirstTest` | main.go:168-176 | The collection reclaims 0 and leaves 2; the teardown reclaims 2 and leaves 0 |
| `Scenarios.SecondTestReachable` | main.go:178-190 | After the two pops, only the integers 3 and 4 are reachable |
| `Scenarios.SecondTestSurvivors` | main.go:178-190 | The collection keeps 4 and 3 and drops the popped 1 and 2 |
| `Scenarios.SecondTest` | main.go:178-190 | The collection reclaims 2 and leaves 2; the teardown reclaims 2 and leaves 0 |
| `Scenarios.ThirdTestSurvivors` | main.go:207-221 | All seven objects are reachable from the single root pair through nested pairs |
| `Scenarios.ThirdTest` | main.go:207-221 | The collection reclaims 0 and leaves 7; the teardown reclaims 7 and leaves 0 |
| `Scenarios.FourthTestReachable` | main.go:223-239 | With the two pairs in a cycle, the pairs and their heads are reachable, and the two integers whose tail references were overwritten are not |
| `Scenarios.FourthTestKept` | main.go:223-239 | Filtering the cycle demo's list by those reachability bits keeps objects 5, 4, 2 and 1 |
| `Scenarios.FourthTestSurvivors` | main.go:223-239 | The collection keeps the two pairs and their heads even though they form a cycle |
| `Scenarios.FourthTest` | main.go:223-239 | The guarded collector terminates on the cycle; the collection reclaims 2 and leaves 4; the teardown reclaims 4 and leaves 0 |

## Left out

- Printing: `gc` prints its counts with `fmt`. The model returns the two counts instead, and the demo programs' banner lines are omitted.
- `printList` is a debugging aid that no demo program calls, so it is not modelled.
- `main`, which calls `debug.SetGCPercent(-1)` to switch the Go runtime's own collector off, is not modelled. The demo programs are separate methods.
- Releasing memory: Go has no `free`. A reclaimed object leaves the allocation list, but its arena entries stay, just as its storage stays with the Go runtime.
- The interface values and `reflect` dispatch are modelled as a tag on each object (`Kind`). A nil or foreign value in a stack slot cannot occur in the model, because stack slots hold references.
- `VirtualMachine.VM.Push`, `VirtualMachine.VM.Pop`, `VirtualMachine.VM.PushInt`, `VirtualMachine.VM.PushPair`: a push onto a full stack and a pop from an empty one panic in Go (an array index out of range). The model states those conditions as preconditions and does not model the panic.
- `VirtualMachine.VM.SetPairValues`: it performs both writes after both pops, whereas the Go code writes the head between the two pops. The pops do not touch the objects, so the state reached is the same.
- Counts: Go's `int` counts and integer payloads are unbounded `nat` and `int`. Overflow is not modelled, since 256 roots and the arena sizes here are far from it.
- Go's call stack: the guarded `Mark` recurses as deeply as the longest chain of pairs, as the Go routine does. Stack growth and its limits are not modelled.
- `AsWritten.SweepAsWritten`: its walk is bounded by a `fuel` argument and stops at a reference outside the arena. The Go loop follows the `next` links until nil. In every VM state those links form a finite acyclic list of arena objects, and the lemmas about it give it fuel for the whole list.
- `AsWritten.MarkReturnsWithin`: it keeps only the call structure of the Go `mark`, and not the bits that main.go:62 and main.go:64 set. The Go routine never reads those bits, so they do not affect whether it returns.
- `AsWritten.CycleNeverReturns`: it bounds the Go `mark`'s recursion by a `depth` argument. "Never returns" is stated as "does not return within any depth".
- `Scenarios.StepPushInt`, `Scenarios.StepPushPair`: these describe allocations below the threshold only. No demo program reaches 8 objects before its explicit collection, and the general case is covered by `VirtualMachine.VM.NewObject`.
- The zero threshold: any collection that leaves no object sets the threshold to 0. This includes every `freeVM`, and an automatic collection inside `newObjet` when no root remains (main.go:116-117, 159). The next allocation then collects again and leaves a count of 1 above the threshold of 0. From then on the count never equals the threshold, so no automatic collection runs until an explicit collection resets the threshold to twice what is left. The model keeps this arithmetic (`Scenarios.AllocateAfterEmptyCollection`, `Scenarios.AllocatePastThreshold`); it is not listed as a finding, because a collection that leaves nothing is the expected end of every demo program, and none of them allocates afterwards.

## Findings

| source | as written | input that shows it | evidently intended | confidence | as-written member | corrected member |
|---|---|---|---|---|---|---|
| main.go:58-69 | `mark` sets the mark bit and recurses into the head and the tail of every pair it meets, without first checking whether the pair is already marked | the cycle demo (main.go:223-237): pair 2 has tail 5 and pair 5 has tail 2; marking from root 2 recurses 2, 5, 2, … without end | return at once when the object is already marked, so that marking terminates on cyclic graphs and marks exactly the reachable objects | not executed | `AsWritten.CycleDemoMarkNeverReturns` | `VirtualMachine.VM.Mark` |
| main.go:77-82, main.go:88-92 | on an unmarked object, the sweep moves its pointer to that object's `next` field and stores nil in the slot it left, which cuts the list there; in general, on any list the marked objects after the first unmarked one stay counted but are no longer listed (`AsWritten.SweepAsWrittenCutsList`) | list 2 -> 1 -> 0 with objects 2 and 0 marked and 1 unmarked: the list ends up holding 2 alone while the count says 2 objects are live, so the live object 0 is lost | store the unmarked object's successor in the slot and leave the pointer where it is, so the kept objects stay linked in order | not executed | `AsWritten.SweepAsWrittenDropsLiveObject` | `VirtualMachine.VM.MarkSweep` |
