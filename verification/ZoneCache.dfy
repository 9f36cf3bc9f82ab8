/** Allocating and freeing elements in batches: a batch is complete or undone,
    and what is allocated and not freed is read off the log of calls. */
module ZoneCache {
  import opened Wrappers

  /** A call that reached an element; `byOp` tells the cache's own free from the
      plain one, and `Dropped` is a push for which the stack could not grow. */
  datatype Event =
    | Allocated(e: nat, byOp: bool)
    | MarkedValid(e: nat)
    | Dropped(e: nat)
    | MarkedInvalid(e: nat)
    | Freed(e: nat, byOp: bool)

  /** Which operations the caller's table supplies. */
  datatype Ops = Ops(alloc: bool, free: bool, markValid: bool, markInvalid: bool)

  /** The elements live after a log; None if an element that is live was handed
      out again, or one that is not was touched. */
  function Replay(log: seq<Event>): Option<set<nat>> {
    if log == [] then Some({})
    else
      match Replay(log[..|log| - 1])
      case None => None
      case Some(live) => After(live, log[|log| - 1])
  }

  function After(live: set<nat>, event: Event): Option<set<nat>> {
    match event
    case Allocated(e, _) => if e in live then None else Some(live + {e})
    case Freed(e, _) => if e in live then Some(live - {e}) else None
    case _ => if event.e in live then Some(live) else None
  }

  lemma ReplayOne(log: seq<Event>, event: Event)
    ensures Replay(log + [event]) ==
      match Replay(log) { case None => None case Some(live) => After(live, event) }
  {
    assert (log + [event])[..|log|] == log;
  }

  // ----- Logs of batches

  /** One element of a batch, up to its push. */
  function AllocEvents(ops: Ops, e: nat, kept: bool): seq<Event> {
    [Allocated(e, ops.alloc)]
    + (if ops.markValid then [MarkedValid(e)] else [])
    + (if kept then [] else [Dropped(e)])
  }

  function AllocTrace(ops: Ops, elems: seq<nat>, kept: seq<bool>): seq<Event>
    requires |elems| == |kept|
  {
    if elems == [] then []
    else
      var n := |elems| - 1;
      AllocTrace(ops, elems[..n], kept[..n]) + AllocEvents(ops, elems[n], kept[n])
  }

  function FreeEvents(ops: Ops, e: nat): seq<Event> {
    (if ops.markInvalid then [MarkedInvalid(e)] else []) + [Freed(e, ops.free)]
  }

  /** The elements are freed from the last to the first. */
  function FreeTrace(ops: Ops, elems: seq<nat>): seq<Event> {
    if elems == [] then []
    else FreeEvents(ops, elems[|elems| - 1]) + FreeTrace(ops, elems[..|elems| - 1])
  }

  /** The elements whose push succeeded, in order. */
  function Kept(elems: seq<nat>, kept: seq<bool>): seq<nat>
    requires |elems| == |kept|
  {
    if elems == [] then []
    else
      var n := |elems| - 1;
      Kept(elems[..n], kept[..n]) + if kept[n] then [elems[n]] else []
  }

  function Lost(elems: seq<nat>, kept: seq<bool>): set<nat>
    requires |elems| == |kept|
  {
    set i | 0 <= i < |elems| && !kept[i] :: elems[i]
  }

  function Members(elems: seq<nat>): set<nat> {
    set e | e in elems
  }

  predicate Distinct(elems: seq<nat>) {
    forall i, j :: 0 <= i < j < |elems| ==> elems[i] != elems[j]
  }

  // ----- What the logs mean

  lemma LastOf(elems: seq<nat>)
    requires elems != []
    ensures var n := |elems| - 1;
      Members(elems) == Members(elems[..n]) + {elems[n]}
      && (Distinct(elems) <==> Distinct(elems[..n]) && elems[n] !in Members(elems[..n]))
  {
    var n := |elems| - 1;
    assert elems == elems[..n] + [elems[n]];
    if Distinct(elems[..n]) && elems[n] !in Members(elems[..n]) {
      KeptDistinct(elems[..n], elems[n]);
    }
  }

  lemma FreeTraceNone(ops: Ops)
    ensures FreeTrace(ops, []) == []
  {}

  lemma FreeTraceLast(log: seq<Event>, ops: Ops, elems: seq<nat>)
    requires elems != []
    ensures var n := |elems| - 1;
      log + FreeTrace(ops, elems) == (log + FreeEvents(ops, elems[n])) + FreeTrace(ops, elems[..n])
  {}

  lemma {:induction false} KeptMembers(elems: seq<nat>, kept: seq<bool>)
    requires |elems| == |kept| && Distinct(elems)
    ensures Distinct(Kept(elems, kept))
    ensures Members(Kept(elems, kept)) + Lost(elems, kept) == Members(elems)
    ensures Members(Kept(elems, kept)) !! Lost(elems, kept)
  {
    if elems != [] {
      var n := |elems| - 1;
      LastOf(elems);
      LostLast(elems, kept);
      hide Distinct, Members, Lost;
      KeptMembers(elems[..n], kept[..n]);
      KeptDistinct(Kept(elems[..n], kept[..n]), elems[n]);
    }
  }

  lemma LostLast(elems: seq<nat>, kept: seq<bool>)
    requires |elems| == |kept| && elems != []
    ensures var n := |elems| - 1;
      Lost(elems, kept) == Lost(elems[..n], kept[..n]) + if kept[n] then {} else {elems[n]}
  {
    var n := |elems| - 1;
    forall e | e in Lost(elems, kept) ensures e in Lost(elems[..n], kept[..n]) || (!kept[n] && e == elems[n]) {
      var i :| 0 <= i < |elems| && !kept[i] && elems[i] == e;
      assert i < n ==> elems[..n][i] == e && !kept[..n][i];
    }
    forall e | e in Lost(elems[..n], kept[..n]) ensures e in Lost(elems, kept) {
      var i :| 0 <= i < n && !kept[..n][i] && elems[..n][i] == e;
      assert elems[i] == e && !kept[i];
    }
  }

  lemma KeptDistinct(elems: seq<nat>, e: nat)
    requires Distinct(elems) && e !in Members(elems)
    ensures Distinct(elems + [e]) && Members(elems + [e]) == Members(elems) + {e}
  {}

  lemma {:induction false} AllKept(elems: seq<nat>, kept: seq<bool>)
    requires |elems| == |kept| && forall i :: 0 <= i < |kept| ==> kept[i]
    ensures Kept(elems, kept) == elems
  {
    if elems != [] {
      var n := |elems| - 1;
      AllKept(elems[..n], kept[..n]);
      assert elems == elems[..n] + [elems[n]];
    }
  }

  lemma AllocEventsReplay(log: seq<Event>, live: set<nat>, ops: Ops, e: nat, kept: bool)
    requires Replay(log) == Some(live)
    ensures Replay(log + AllocEvents(ops, e, kept)) == if e in live then None else Some(live + {e})
  {
    var first, marked := log + [Allocated(e, ops.alloc)], log + [Allocated(e, ops.alloc), MarkedValid(e)];
    ReplayOne(log, Allocated(e, ops.alloc));
    assert marked == first + [MarkedValid(e)];
    ReplayOne(first, MarkedValid(e));
    var before := if ops.markValid then marked else first;
    ReplayOne(before, Dropped(e));
    assert log + AllocEvents(ops, e, kept) == if kept then before else before + [Dropped(e)];
  }

  /** A log with a batch is possible exactly when the batch is new elements, all
      different; they are then live beside those that were. */
  lemma {:induction false} AllocTraceReplay(log: seq<Event>, live: set<nat>, ops: Ops, elems: seq<nat>, kept: seq<bool>)
    requires Replay(log) == Some(live) && |elems| == |kept|
    ensures Replay(log + AllocTrace(ops, elems, kept)).Some? <==> Distinct(elems) && Members(elems) !! live
    ensures Replay(log + AllocTrace(ops, elems, kept)).Some? ==>
      Replay(log + AllocTrace(ops, elems, kept)).value == live + Members(elems)
  {
    if elems == [] {
      assert log + [] == log;
    } else {
      hide Distinct, Members, Replay, AllocEvents, AllocTrace;
      var n := |elems| - 1;
      var e, before := elems[n], log + AllocTrace(ops, elems[..n], kept[..n]);
      AllocTraceReplay(log, live, ops, elems[..n], kept[..n]);
      AllocTraceLast(log, ops, elems, kept);
      LastOf(elems);
      if Replay(before).Some? {
        AllocEventsReplay(before, live + Members(elems[..n]), ops, e, kept[n]);
        assert live + Members(elems) == live + Members(elems[..n]) + {e};
      } else {
        ReplayStuck(before, AllocEvents(ops, e, kept[n]));
      }
    }
  }

  lemma AllocTraceLast(log: seq<Event>, ops: Ops, elems: seq<nat>, kept: seq<bool>)
    requires |elems| == |kept| && elems != []
    ensures var n := |elems| - 1;
      log + AllocTrace(ops, elems, kept) ==
      log + AllocTrace(ops, elems[..n], kept[..n]) + AllocEvents(ops, elems[n], kept[n])
  {
    hide AllocEvents;
  }

  lemma {:induction false} ReplayStuck(log: seq<Event>, more: seq<Event>)
    requires Replay(log).None?
    ensures Replay(log + more).None?
  {
    if more == [] {
      assert log + more == log;
    } else {
      var n := |more| - 1;
      ReplayStuck(log, more[..n]);
      assert log + more == (log + more[..n]) + [more[n]];
      ReplayOne(log + more[..n], more[n]);
    }
  }

  lemma FreeEventsReplay(log: seq<Event>, live: set<nat>, ops: Ops, e: nat)
    requires Replay(log) == Some(live) && e in live
    ensures Replay(log + FreeEvents(ops, e)) == Some(live - {e})
  {
    ReplayOne(log, MarkedInvalid(e));
    var before := if ops.markInvalid then log + [MarkedInvalid(e)] else log;
    ReplayOne(before, Freed(e, ops.free));
    assert log + FreeEvents(ops, e) == before + [Freed(e, ops.free)];
  }

  /** Freeing live elements that differ frees each once and nothing else. */
  lemma {:induction false} FreeTraceReplay(log: seq<Event>, live: set<nat>, ops: Ops, elems: seq<nat>)
    requires Replay(log) == Some(live) && Distinct(elems) && Members(elems) <= live
    ensures Replay(log + FreeTrace(ops, elems)) == Some(live - Members(elems))
    decreases |elems|
  {
    if elems == [] {
      assert log + [] == log;
      assert live - Members(elems) == live;
    } else {
      var n := |elems| - 1;
      var e := elems[n];
      LastOf(elems);
      FreeEventsReplay(log, live, ops, e);
      FreeTraceReplay(log + FreeEvents(ops, e), live - {e}, ops, elems[..n]);
      assert log + FreeTrace(ops, elems) == (log + FreeEvents(ops, e)) + FreeTrace(ops, elems[..n]);
      assert live - {e} - Members(elems[..n]) == live - Members(elems);
    }
  }

  /** A batch and its free leave live what was live before, and the elements
      whose push failed: nothing is lost exactly when every push succeeds. */
  lemma BatchThenFree(log: seq<Event>, live: set<nat>, ops: Ops, freeOps: Ops, elems: seq<nat>, kept: seq<bool>)
    requires Replay(log) == Some(live) && |elems| == |kept|
    requires Distinct(elems) && Members(elems) !! live
    ensures Replay(log + AllocTrace(ops, elems, kept) + FreeTrace(freeOps, Kept(elems, kept)))
      == Some(live + Lost(elems, kept))
    ensures live + Lost(elems, kept) == live <==> forall i :: 0 <= i < |kept| ==> kept[i]
  {
    AllocTraceReplay(log, live, ops, elems, kept);
    KeptMembers(elems, kept);
    FreeTraceReplay(log + AllocTrace(ops, elems, kept), live + Members(elems), freeOps, Kept(elems, kept));
    assert live + Members(elems) - Members(Kept(elems, kept)) == live + Lost(elems, kept);
    if i :| 0 <= i < |kept| && !kept[i] {
      assert elems[i] in Lost(elems, kept) && elems[i] in Members(elems);
    } else {
      assert Lost(elems, kept) == {};
      assert live + Lost(elems, kept) == live;
    }
  }

  // ----- Which calls reach which elements, and in what order

  datatype Kind = AllocatedBy(byOp: bool) | Valid | Push | Invalid | FreedBy(byOp: bool)

  function KindOf(event: Event): Kind {
    match event
    case Allocated(_, byOp) => AllocatedBy(byOp)
    case MarkedValid(_) => Valid
    case Dropped(_) => Push
    case MarkedInvalid(_) => Invalid
    case Freed(_, byOp) => FreedBy(byOp)
  }

  /** The elements that calls of one kind reached, in order. */
  function Reached(log: seq<Event>, kind: Kind): seq<nat> {
    if log == [] then []
    else Reached(log[..|log| - 1], kind) + if KindOf(log[|log| - 1]) == kind then [log[|log| - 1].e] else []
  }

  lemma {:induction false} ReachedBoth(a: seq<Event>, b: seq<Event>, kind: Kind)
    ensures Reached(a + b, kind) == Reached(a, kind) + Reached(b, kind)
  {
    if b == [] {
      assert a + b == a;
    } else {
      assert (a + b)[..|a + b| - 1] == a + b[..|b| - 1];
      ReachedBoth(a, b[..|b| - 1], kind);
    }
  }

  function Reversed(s: seq<nat>): seq<nat> {
    if s == [] then [] else [s[|s| - 1]] + Reversed(s[..|s| - 1])
  }

  lemma ReachedByAlloc(ops: Ops, e: nat, kept: bool, kind: Kind)
    ensures Reached(AllocEvents(ops, e, kept), kind) ==
      if kind == AllocatedBy(ops.alloc) || (kind == Valid && ops.markValid) || (kind == Push && !kept) then [e] else []
  {
    var a, b, c := [Allocated(e, ops.alloc)], if ops.markValid then [MarkedValid(e)] else [],
      if kept then [] else [Dropped(e)];
    assert AllocEvents(ops, e, kept) == a + b + c;
    ReachedBoth(a + b, c, kind);
    ReachedBoth(a, b, kind);
    assert a[..0] == [] && (b != [] ==> b[..0] == []) && (c != [] ==> c[..0] == []);
  }

  lemma ReachedByFree(ops: Ops, e: nat, kind: Kind)
    ensures Reached(FreeEvents(ops, e), kind) ==
      if kind == FreedBy(ops.free) || (kind == Invalid && ops.markInvalid) then [e] else []
  {
    var a, b := if ops.markInvalid then [MarkedInvalid(e)] else [], [Freed(e, ops.free)];
    assert FreeEvents(ops, e) == a + b;
    ReachedBoth(a, b, kind);
    assert b[..0] == [] && (a != [] ==> a[..0] == []);
  }

  /** In a batch every element is allocated, in order, by the caller's operation if
      there is one, and marked valid if there is such an operation; nothing is
      freed or marked invalid. */
  lemma {:induction false} BatchReaches(ops: Ops, elems: seq<nat>, kept: seq<bool>, kind: Kind)
    requires |elems| == |kept|
    ensures kind == AllocatedBy(ops.alloc) || (kind == Valid && ops.markValid) ==>
      Reached(AllocTrace(ops, elems, kept), kind) == elems
    ensures kind != AllocatedBy(ops.alloc) && kind != Push && !(kind == Valid && ops.markValid) ==>
      Reached(AllocTrace(ops, elems, kept), kind) == []
  {
    if elems != [] {
      var n := |elems| - 1;
      BatchReaches(ops, elems[..n], kept[..n], kind);
      ReachedByAlloc(ops, elems[n], kept[n], kind);
      ReachedBoth(AllocTrace(ops, elems[..n], kept[..n]), AllocEvents(ops, elems[n], kept[n]), kind);
      assert elems == elems[..n] + [elems[n]];
    }
  }

  /** When a batch is freed every element is freed, the last first, by the caller's
      operation if there is one, and marked invalid if there is such an operation. */
  lemma {:induction false} FreeReaches(ops: Ops, elems: seq<nat>, kind: Kind)
    ensures Reached(FreeTrace(ops, elems), kind) ==
      if kind == FreedBy(ops.free) || (kind == Invalid && ops.markInvalid) then Reversed(elems) else []
    decreases |elems|
  {
    if elems != [] {
      var n := |elems| - 1;
      FreeReaches(ops, elems[..n], kind);
      ReachedByFree(ops, elems[n], kind);
      ReachedBoth(FreeEvents(ops, elems[n]), FreeTrace(ops, elems[..n]), kind);
    }
  }

  /** The marks stand between an element's allocation and its push, and before its
      freeing. */
  lemma MarksInPlace(ops: Ops, e: nat, kept: bool)
    ensures var a := AllocEvents(ops, e, kept);
      a[0] == Allocated(e, ops.alloc) && (!kept ==> a[|a| - 1] == Dropped(e))
    ensures var f := FreeEvents(ops, e); f[|f| - 1] == Freed(e, ops.free)
  {
  }

  // ----- The calls

  lemma {:induction false} FreshElement(live: set<nat>) returns (e: nat)
    ensures e !in live && forall x :: x in live ==> x < e
  {
    if live == {} {
      e := 0;
    } else {
      var y := Member(live);
      var d := FreshElement(live - {y});
      e := if y < d then d else y + 1;
      assert forall x :: x in live ==> x == y || x in live - {y};
    }
  }

  /** The C heap, as far as the cache can tell, and the number of stack buffers
      that are allocated. Whether a call gets memory, and where, is not fixed. */
  class Heap {
    var live: set<nat>
    var buffers: int
    var log: seq<Event>

    ghost predicate Valid()
      reads this
    {
      Replay(log) == Some(live)
    }

    constructor ()
      ensures Valid() && live == {} && buffers == 0 && log == []
    {
      live, buffers, log := {}, 0, [];
    }

    method Record(event: Event)
      requires Valid() && After(live, event).Some?
      modifies this
      ensures Valid() && log == old(log) + [event] && buffers == old(buffers)
      ensures live == After(old(live), event).value
    {
      ReplayOne(log, event);
      log := log + [event];
      live := After(live, event).value;
    }

    /** The cache's own allocator or calloc. */
    method Alloc(byOp: bool) returns (e: Option<nat>)
      requires Valid()
      modifies this
      ensures Valid() && buffers == old(buffers)
      ensures e.None? ==> live == old(live) && log == old(log)
      ensures e.Some? ==> e.value !in old(live) && live == old(live) + {e.value}
      ensures e.Some? ==> log == old(log) + [Allocated(e.value, byOp)]
    {
      if * {
        return None;
      }
      ghost var unused := FreshElement(live);
      var x: nat :| x !in live;
      Record(Allocated(x, byOp));
      return Some(x);
    }
  }

  class ZStack {
    var elements: seq<nat>

    constructor ()
      ensures elements == []
    {
      elements := [];
    }

    /** A copy of the struct, as a call by value makes it. */
    constructor Copy(stack: ZStack)
      ensures elements == stack.elements
    {
      elements := stack.elements;
    }

    /** Grows the buffer by one; where that fails the stack is as before. */
    method Push(heap: Heap, e: nat) returns (grown: bool)
      modifies this, heap`buffers
      ensures elements == old(elements) + if grown then [e] else []
      ensures heap.buffers == old(heap.buffers) + if grown && old(elements) == [] then 1 else 0
    {
      if * {
        return false;
      }
      heap.buffers := heap.buffers + if elements == [] then 1 else 0;
      elements := elements + [e];
      return true;
    }

    /** Takes the last element, and frees the buffer with the first. */
    method Pop(heap: Heap) returns (e: Option<nat>)
      modifies this, heap`buffers
      ensures old(elements) == [] ==> e.None? && elements == [] && heap.buffers == old(heap.buffers)
      ensures old(elements) != [] ==> old(elements) == elements + [old(elements)[|old(elements)| - 1]]
      ensures old(elements) != [] ==> e == Some(old(elements)[|old(elements)| - 1])
      ensures old(elements) != [] ==> heap.buffers == old(heap.buffers) - if elements == [] then 1 else 0
    {
      if elements == [] {
        return None;
      }
      e := Some(elements[|elements| - 1]);
      elements := elements[..|elements| - 1];
      if elements == [] {
        heap.buffers := heap.buffers - 1;
      }
    }
  }

  function Held(stack: seq<nat>): int {
    if stack == [] then 0 else 1
  }

  method FreeLast(heap: Heap, stack: ZStack, ops: Ops)
    requires heap.Valid() && stack.elements != [] && stack.elements[|stack.elements| - 1] in heap.live
    modifies heap, stack
    ensures heap.Valid() && stack.elements == old(stack.elements)[..|old(stack.elements)| - 1]
    ensures var e := old(stack.elements)[|old(stack.elements)| - 1];
      heap.log == old(heap.log) + FreeEvents(ops, e) && heap.live == old(heap.live) - {e}
    ensures heap.buffers == old(heap.buffers) + Held(stack.elements) - 1
  {
    var e := stack.Pop(heap);
    if ops.markInvalid {
      heap.Record(MarkedInvalid(e.value));
    }
    heap.Record(Freed(e.value, ops.free));
  }

  /** Pops and frees to the end, marking each element invalid first when the
      caller has such an operation. */
  method FreeAll(heap: Heap, stack: ZStack, ops: Ops)
    requires heap.Valid() && Distinct(stack.elements) && Members(stack.elements) <= heap.live
    modifies heap, stack
    ensures heap.Valid() && stack.elements == []
    ensures heap.log == old(heap.log) + FreeTrace(ops, old(stack.elements))
    ensures heap.live == old(heap.live) - Members(old(stack.elements))
    ensures heap.buffers == old(heap.buffers) - Held(old(stack.elements))
  {
    hide Distinct, Members, FreeTrace, FreeEvents, Replay;
    FreeTraceReplay(heap.log, heap.live, ops, stack.elements);
    FreeTraceNone(ops);
    while stack.elements != []
      invariant heap.Valid() && Distinct(stack.elements) && Members(stack.elements) <= heap.live
      invariant heap.log + FreeTrace(ops, stack.elements) == old(heap.log) + FreeTrace(ops, old(stack.elements))
      invariant heap.buffers - Held(stack.elements) == old(heap.buffers) - Held(old(stack.elements))
      decreases |stack.elements|
    {
      LastOf(stack.elements);
      FreeTraceLast(heap.log, ops, stack.elements);
      FreeLast(heap, stack, ops);
    }
  }

  /** Frees a batch that the caller keeps a copy of. */
  method FreeN(heap: Heap, stack: ZStack, ops: Ops)
    requires heap.Valid() && Distinct(stack.elements) && Members(stack.elements) <= heap.live
    modifies heap
    ensures heap.Valid()
    ensures heap.log == old(heap.log) + FreeTrace(ops, stack.elements)
    ensures heap.live == old(heap.live) - Members(stack.elements)
    ensures heap.buffers == old(heap.buffers) - Held(stack.elements)
  {
    var copy := new ZStack.Copy(stack);
    FreeAll(heap, copy, ops);
  }

  /** Marks a new element valid and pushes it. */
  method Keep(heap: Heap, stack: ZStack, ops: Ops, e: nat) returns (grown: bool)
    requires heap.Valid() && e in heap.live
    modifies heap, stack
    ensures heap.Valid() && heap.live == old(heap.live)
    ensures heap.log == old(heap.log) + AllocEvents(ops, e, grown)[1..]
    ensures stack.elements == old(stack.elements) + if grown then [e] else []
    ensures heap.buffers == old(heap.buffers) + Held(stack.elements) - Held(old(stack.elements))
  {
    if ops.markValid {
      heap.Record(MarkedValid(e));
    }
    grown := stack.Push(heap, e);
    if !grown {
      heap.Record(Dropped(e));
    }
  }

  /** The batch as far as it got; `found` tells whether the zone ID has a zone.
      The undoing of a batch marks nothing invalid. */
  method AllocN(heap: Heap, found: bool, count: nat, ops: Ops)
    returns (stack: ZStack, ghost elems: seq<nat>, ghost kept: seq<bool>)
    requires heap.Valid()
    modifies heap
    ensures heap.Valid() && fresh(stack)
    ensures |kept| == |elems| <= count && Distinct(elems) && Members(elems) !! old(heap.live)
    ensures !found ==> elems == []
    ensures found && |elems| == count ==>
      stack.elements == Kept(elems, kept)
      && heap.log == old(heap.log) + AllocTrace(ops, elems, kept)
      && heap.live == old(heap.live) + Members(elems)
    ensures !found || |elems| < count ==>
      stack.elements == []
      && heap.log ==
           old(heap.log) + AllocTrace(ops, elems, kept) + FreeTrace(ops.(markInvalid := false), Kept(elems, kept))
      && heap.live == old(heap.live) + Lost(elems, kept)
    ensures heap.buffers == old(heap.buffers) + Held(stack.elements)
  {
    hide Replay, Distinct, Members, AllocTrace, AllocEvents, FreeTrace, Kept, Lost;
    stack := new ZStack();
    elems, kept := [], [];
    BatchOfNone(ops);
    if !found {
      return;
    }
    for i := 0 to count
      invariant heap.Valid() && fresh(stack)
      invariant |elems| == |kept| == i && Distinct(elems) && Members(elems) !! old(heap.live)
      invariant stack.elements == Kept(elems, kept)
      invariant heap.log == old(heap.log) + AllocTrace(ops, elems, kept)
      invariant heap.live == old(heap.live) + Members(elems)
      invariant heap.buffers == old(heap.buffers) + Held(stack.elements)
    {
      var elem := heap.Alloc(ops.alloc);
      if elem.None? {
        KeptMembers(elems, kept);
        FreeAll(heap, stack, ops.(markInvalid := false));
        assert heap.live == old(heap.live) + Lost(elems, kept);
        return;
      }
      var grown := Keep(heap, stack, ops, elem.value);
      OneMore(ops, elems, kept, elem.value, grown, old(heap.log));
      elems, kept := elems + [elem.value], kept + [grown];
    }
  }

  lemma BatchOfNone(ops: Ops)
    ensures Distinct([]) && Members([]) == {} && Kept([], []) == [] && Lost([], []) == {}
    ensures AllocTrace(ops, [], []) == [] && FreeTrace(ops.(markInvalid := false), []) == []
  {}

  lemma OneMore(ops: Ops, elems: seq<nat>, kept: seq<bool>, e: nat, grown: bool, log: seq<Event>)
    requires |elems| == |kept| && Distinct(elems) && e !in Members(elems)
    ensures Distinct(elems + [e]) && Members(elems + [e]) == Members(elems) + {e}
    ensures Kept(elems + [e], kept + [grown]) == Kept(elems, kept) + if grown then [e] else []
    ensures log + AllocTrace(ops, elems + [e], kept + [grown])
      == log + AllocTrace(ops, elems, kept) + [Allocated(e, ops.alloc)] + AllocEvents(ops, e, grown)[1..]
  {
    assert (elems + [e])[..|elems|] == elems && (kept + [grown])[..|elems|] == kept;
    KeptDistinct(elems, e);
  }
}
