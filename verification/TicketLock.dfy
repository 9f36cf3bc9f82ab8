/** The ticket lock manager: locks that can be invalidated and destroyed while
    other threads are inside a `Lock` call, as steps of many threads. Control
    passes to another thread only where a call blocks on a mutex or yields. */
module TicketLock {
  import opened Wrappers

  type Thread = int
  type Address = int
  type MutexId = int

  /** A virtual mutex: its owner and the threads blocked in its `Lock`. */
  datatype Mutex = Mutex(owner: Option<Thread>, waiters: set<Thread>)

  datatype Status = Invalid | Acquired

  /** Where a thread is blocked: in `Lock` on a mutex, or in `Destroy`,
      yielding until the waiters are gone. */
  datatype Call = InLock(a: Address, m: MutexId) | InDestroy(a: Address)

  datatype Reply = Blocked | Returned(status: Status) | Flag(value: bool) | Done | Aborted

  /** `slot` is the mutex pointer stored at an address; `mutexes` are those not freed. */
  datatype State = State(
    live: set<Address>,
    invalidated: set<Address>,
    slot: map<Address, MutexId>,
    mutexes: map<MutexId, Mutex>,
    calls: map<Thread, Call>)
  {
    predicate HasMutex(a: Address) {
      a in slot && slot[a] in mutexes
    }

    function MutexAt(a: Address): Mutex
      requires HasMutex(a)
    {
      mutexes[slot[a]]
    }

    function Owner(a: Address): Option<Thread> {
      if HasMutex(a) then MutexAt(a).owner else None
    }

    function WithMutex(m: MutexId, x: Mutex): State {
      this.(mutexes := mutexes[m := x])
    }

    function WithOwner(m: MutexId, owner: Option<Thread>): State
      requires m in mutexes
    {
      WithMutex(m, mutexes[m].(owner := owner))
    }
  }

  const INIT := State({}, {}, map[], map[], map[])

  datatype Action =
    | Allocate(t: Thread, a: Address, m: MutexId)
    | Invalidate(t: Thread, a: Address)
    | Destroy(t: Thread, a: Address, sync: bool)
    | Lock(t: Thread, a: Address, allowInvalid: bool)
    | TryLock(t: Thread, a: Address)
    | Unlock(t: Thread, a: Address)
    | Held(t: Thread, a: Address)
    | Resume(t: Thread)

  // ----- One step of each operation

  function AllocateStep(s: State, a: Address, m: MutexId): State {
    s.(slot := s.slot[a := m], mutexes := s.mutexes[m := Mutex(None, {})], live := s.live + {a})
  }

  function InvalidateStep(s: State, a: Address): State {
    s.(live := s.live - {a}, invalidated := s.invalidated + {a})
  }

  function Free(s: State, a: Address): State
    requires s.HasMutex(a)
  {
    s.(invalidated := s.invalidated - {a}, mutexes := s.mutexes - {s.slot[a]}, slot := s.slot - {a})
  }

  /** Up to where the waiters of an invalidated lock are to leave, or to the end. */
  function DestroyStep(s: State, t: Thread, a: Address, sync: bool): (State, Reply)
    requires s.HasMutex(a)
  {
    var dead := s.(live := s.live - {a});
    var mutex := s.MutexAt(a);
    if sync && a in s.invalidated && mutex.waiters != {} then
      var given := if mutex.owner == Some(t) then dead.WithOwner(s.slot[a], None) else dead;
      (given.(calls := given.calls[t := InDestroy(a)]), Blocked)
    else
      (Free(dead, a), Done)
  }

  function DestroyResumed(s: State, t: Thread, a: Address): (State, Reply)
    requires s.HasMutex(a)
  {
    if s.MutexAt(a).waiters != {} then (s, Blocked)
    else (Free(s.(calls := s.calls - {t}), a), Done)
  }

  /** The mutex is free: take it, and give it back if it was invalidated meanwhile. */
  function TakeMutex(s: State, t: Thread, a: Address, m: MutexId): (State, Reply)
    requires m in s.mutexes && s.HasMutex(a)
  {
    var taken := s.WithMutex(m, Mutex(Some(t), s.mutexes[m].waiters - {t})).(calls := s.calls - {t});
    if a in s.invalidated then (taken.WithOwner(s.slot[a], None), Returned(Invalid))
    else (taken, Returned(Acquired))
  }

  function LockStep(s: State, t: Thread, a: Address, allowInvalid: bool): (State, Reply)
    requires a in s.live ==> s.HasMutex(a)
  {
    if a in s.invalidated then (s, Returned(if allowInvalid then Invalid else Acquired))
    else if a !in s.live then (s, Returned(Invalid))
    else
      var m, mutex := s.slot[a], s.MutexAt(a);
      if mutex.owner == None then TakeMutex(s, t, a, m)
      else if mutex.owner == Some(t) then (s, Aborted)
      else (s.WithMutex(m, mutex.(waiters := mutex.waiters + {t})).(calls := s.calls[t := InLock(a, m)]), Blocked)
  }

  function LockResumed(s: State, t: Thread, a: Address, m: MutexId): (State, Reply)
    requires m in s.mutexes && s.HasMutex(a)
  {
    if s.mutexes[m].owner == None then TakeMutex(s, t, a, m) else (s, Blocked)
  }

  function TryLockStep(s: State, t: Thread, a: Address): (State, Reply)
    requires a in s.live ==> s.HasMutex(a)
  {
    if a !in s.live then (s, Flag(false))
    else if s.MutexAt(a).owner == Some(t) then (s, Aborted)
    else if s.MutexAt(a).owner != None then (s, Flag(false))
    else (s.WithOwner(s.slot[a], Some(t)), Flag(true))
  }

  function UnlockStep(s: State, t: Thread, a: Address): State
    requires a in s.live + s.invalidated ==> s.HasMutex(a)
  {
    if a in s.live + s.invalidated && s.MutexAt(a).owner == Some(t) then s.WithOwner(s.slot[a], None)
    else s
  }

  function HeldReply(s: State, t: Thread, a: Address): Reply
    requires a in s.live ==> s.HasMutex(a)
  {
    if a !in s.live then Flag(false)
    else if a in s.invalidated then Aborted
    else Flag(s.MutexAt(a).owner == Some(t))
  }

  // ----- Runs

  /** What the kernel is taken to keep to: a thread blocked in a call does
      nothing else; only an address that is not registered is allocated, with a
      new mutex; only an allocated lock is invalidated or destroyed, and by one
      thread; and a lock is not destroyed while a `Lock` call on it is in
      flight, except synchronously after it was invalidated. */
  ghost predicate Allowed(s: State, a: Action) {
    && (a.Resume? <==> a.t in s.calls)
    && (a.Allocate? ==> a.a !in s.live + s.invalidated && a.a !in s.slot && a.m !in s.mutexes)
    && (a.Invalidate? ==> a.a in s.slot)
    && (a.Destroy? ==>
          && a.a in s.slot
          && (forall t :: t in s.calls ==> s.calls[t] != InDestroy(a.a))
          && ((a.sync && a.a in s.invalidated) || forall t :: t in s.calls ==> s.calls[t].a != a.a))
  }

  /** All pointers the steps follow are good. */
  ghost predicate Inv(s: State) {
    && s.live !! s.invalidated
    && s.slot.Keys == s.live + s.invalidated
    && (forall a :: a in s.slot ==> s.slot[a] in s.mutexes)
    && (forall a, b :: a in s.slot && b in s.slot && s.slot[a] == s.slot[b] ==> a == b)
    && (forall t :: t in s.calls ==> CallInv(s, t))
    && (forall m, t :: m in s.mutexes && t in s.mutexes[m].waiters ==>
          t in s.calls && s.calls[t].InLock? && s.calls[t].m == m)
  }

  /** A blocked `Lock` call waits on the mutex of its lock and does not own it;
      a blocked `Destroy` is destroying an invalidated lock. */
  ghost predicate CallInv(s: State, t: Thread)
    requires t in s.calls
  {
    var a := s.calls[t].a;
    && a in s.slot && s.slot[a] in s.mutexes
    && (s.calls[t].InLock? ==>
          && s.slot[a] == s.calls[t].m
          && t in s.mutexes[s.slot[a]].waiters
          && s.mutexes[s.slot[a]].owner != Some(t))
    && (s.calls[t].InDestroy? ==>
          && a in s.invalidated
          && (forall u :: u in s.calls && s.calls[u] == InDestroy(a) ==> u == t))
  }

  /** Every mutex pointer that the step follows leads to a mutex not yet freed. */
  ghost predicate PointersGood(s: State, a: Action) {
    match a
    case Allocate(_, _, _) => true
    case Invalidate(_, _) => true
    case Destroy(_, x, _) => s.HasMutex(x)
    case Unlock(_, x) => x in s.live + s.invalidated ==> s.HasMutex(x)
    case Lock(_, x, _) => x in s.live ==> s.HasMutex(x)
    case TryLock(_, x) => x in s.live ==> s.HasMutex(x)
    case Held(_, x) => x in s.live ==> s.HasMutex(x)
    case Resume(t) => t in s.calls && s.HasMutex(s.calls[t].a) && (s.calls[t].InLock? ==> s.calls[t].m in s.mutexes)
  }

  ghost function Next(s: State, a: Action): (State, Reply)
    requires PointersGood(s, a)
  {
    match a
    case Allocate(_, x, m) => (AllocateStep(s, x, m), Done)
    case Invalidate(_, x) => (InvalidateStep(s, x), Done)
    case Destroy(t, x, sync) => DestroyStep(s, t, x, sync)
    case Lock(t, x, allowInvalid) => LockStep(s, t, x, allowInvalid)
    case TryLock(t, x) => TryLockStep(s, t, x)
    case Unlock(t, x) => (UnlockStep(s, t, x), Done)
    case Held(t, x) => (s, HeldReply(s, t, x))
    case Resume(t) =>
      match s.calls[t]
      case InLock(x, m) => LockResumed(s, t, x, m)
      case InDestroy(x) => DestroyResumed(s, t, x)
  }

  lemma InitInv()
    ensures Inv(INIT)
  {
  }

  lemma TakeKeepsInv(s: State, t: Thread, a: Address, m: MutexId)
    requires Inv(s) && a in s.slot && s.slot[a] == m && s.mutexes[m].owner == None
    requires t !in s.calls || s.calls[t] == InLock(a, m)
    ensures Inv(TakeMutex(s, t, a, m).0)
  {
  }

  lemma FreeKeepsInv(s: State, a: Address)
    requires Inv(s) && a in s.slot
    requires forall t :: t in s.calls ==> s.calls[t].a != a
    ensures Inv(Free(s.(live := s.live - {a}), a))
  {
  }

  lemma DestroyKeepsInv(s: State, t: Thread, a: Address, sync: bool)
    requires Inv(s) && Allowed(s, Destroy(t, a, sync))
    ensures Inv(DestroyStep(s, t, a, sync).0)
  {
    if s.MutexAt(a).waiters == {} {
      NoCallsWithoutWaiters(s, a);
    }
    if !(sync && a in s.invalidated && s.MutexAt(a).waiters != {}) {
      FreeKeepsInv(s, a);
    }
  }

  /** The threads in a `Lock` call on an address are waiters of its mutex. */
  lemma NoCallsWithoutWaiters(s: State, a: Address)
    requires Inv(s) && a in s.slot && s.MutexAt(a).waiters == {}
    ensures forall t :: t in s.calls && s.calls[t].a == a ==> s.calls[t].InDestroy?
  {
  }

  lemma WaiterIsInCall(s: State, a: Address, t: Thread)
    requires Inv(s) && a in s.slot && t in s.MutexAt(a).waiters
    ensures t in s.calls && s.calls[t] == InLock(a, s.slot[a])
  {
    var m := s.slot[a];
    assert m in s.mutexes && t in s.mutexes[m].waiters;
    assert CallInv(s, t);
  }

  lemma ResumeKeepsInv(s: State, t: Thread)
    requires Inv(s) && t in s.calls
    ensures Inv(Next(s, Resume(t)).0)
  {
    match s.calls[t]
    case InLock(a, m) =>
      if s.mutexes[m].owner == None {
        TakeKeepsInv(s, t, a, m);
      }
    case InDestroy(a) =>
      if s.MutexAt(a).waiters == {} {
        NoCallsWithoutWaiters(s, a);
        var s' := s.(calls := s.calls - {t});
        FreeKeepsInv(s', a);
        assert s'.(live := s'.live - {a}) == s';
      }
  }

  lemma LockKeepsInv(s: State, t: Thread, x: Address, allowInvalid: bool)
    requires Inv(s) && t !in s.calls
    ensures Inv(LockStep(s, t, x, allowInvalid).0)
  {
    if x in s.live && s.MutexAt(x).owner == None {
      TakeKeepsInv(s, t, x, s.slot[x]);
    }
  }

  /** Giving a mutex to a thread that does not wait for it, or to nobody. */
  lemma OwnerKeepsInv(s: State, a: Address, owner: Option<Thread>)
    requires Inv(s) && a in s.slot && (owner.Some? ==> owner.value !in s.calls)
    ensures Inv(s.WithOwner(s.slot[a], owner))
  {
  }

  lemma AllocateKeepsInv(s: State, a: Action)
    requires Inv(s) && Allowed(s, a) && a.Allocate?
    ensures Inv(AllocateStep(s, a.a, a.m))
  {
  }

  lemma InvalidateKeepsInv(s: State, a: Action)
    requires Inv(s) && Allowed(s, a) && a.Invalidate?
    ensures Inv(InvalidateStep(s, a.a))
  {
  }

  /** Every step that the kernel may make keeps the invariant. */
  lemma StepKeepsInv(s: State, a: Action)
    requires Inv(s) && Allowed(s, a)
    ensures Inv(Next(s, a).0)
  {
    InvPointersGood(s, a);
    hide Inv;
    match a
    case Allocate(_, _, _) => AllocateKeepsInv(s, a);
    case Invalidate(_, _) => InvalidateKeepsInv(s, a);
    case Destroy(t, x, sync) => DestroyKeepsInv(s, t, x, sync);
    case Lock(t, x, allowInvalid) => LockKeepsInv(s, t, x, allowInvalid);
    case TryLock(t, x) => TryLockKeepsInv(s, t, x);
    case Unlock(t, x) => UnlockKeepsInv(s, t, x);
    case Held(_, _) =>
    case Resume(t) => ResumeKeepsInv(s, t);
  }

  lemma TryLockKeepsInv(s: State, t: Thread, x: Address)
    requires Inv(s) && t !in s.calls
    ensures Inv(TryLockStep(s, t, x).0)
  {
    if x in s.live {
      OwnerKeepsInv(s, x, Some(t));
    }
  }

  lemma UnlockKeepsInv(s: State, t: Thread, x: Address)
    requires Inv(s)
    ensures Inv(UnlockStep(s, t, x))
  {
    if x in s.slot {
      OwnerKeepsInv(s, x, None);
    }
  }

  lemma InvPointersGood(s: State, a: Action)
    requires Inv(s) && Allowed(s, a)
    ensures PointersGood(s, a)
  {
  }

  /** A run: allowed steps, each with its reply. A step that followed a bad
      pointer could lead anywhere. */
  ghost predicate IsRun(states: seq<State>, actions: seq<Action>, replies: seq<Reply>) {
    && |states| == |actions| + 1 && |replies| == |actions|
    && states[0] == INIT
    && forall i :: 0 <= i < |actions| ==> StepAt(states, actions, replies, i)
  }

  ghost predicate StepAt(states: seq<State>, actions: seq<Action>, replies: seq<Reply>, i: nat)
    requires |states| == |actions| + 1 && |replies| == |actions| && i < |actions|
  {
    && Allowed(states[i], actions[i])
    && (PointersGood(states[i], actions[i]) ==> (states[i + 1], replies[i]) == Next(states[i], actions[i]))
  }

  lemma {:induction false} RunInv(states: seq<State>, actions: seq<Action>, replies: seq<Reply>, i: nat)
    requires IsRun(states, actions, replies) && i < |states|
    ensures Inv(states[i])
    ensures i < |actions| ==>
              PointersGood(states[i], actions[i]) && (states[i + 1], replies[i]) == Next(states[i], actions[i])
  {
    if i > 0 {
      RunInv(states, actions, replies, i - 1);
      assert StepAt(states, actions, replies, i - 1);
      StepKeepsInv(states[i - 1], actions[i - 1]);
    }
    if i < |actions| {
      assert StepAt(states, actions, replies, i);
      InvPointersGood(states[i], actions[i]);
    }
  }

  // ----- What holds of every run

  /** No step follows a pointer to a freed mutex, and `Held` never aborts: an
      address is never live and invalidated at once. */
  lemma PointersStayGood(states: seq<State>, actions: seq<Action>, replies: seq<Reply>, i: nat)
    requires IsRun(states, actions, replies) && i < |actions|
    ensures states[i].live !! states[i].invalidated
    ensures PointersGood(states[i], actions[i])
    ensures actions[i].Held? ==> replies[i] != Aborted
  {
    RunInv(states, actions, replies, i);
  }

  /** A step other than its allocation makes nobody the owner of a lock that is
      not live, and does not make it live again. */
  lemma NoNewOwner(s: State, a: Action, x: Address)
    requires Inv(s) && Allowed(s, a) && x !in s.live && !(a.Allocate? && a.a == x)
    ensures var s' := Next(s, a).0;
      x !in s'.live && (s'.Owner(x) == None || s'.Owner(x) == s.Owner(x))
  {
  }

  /** Between states `i` and `k` the address is not allocated. */
  ghost predicate NotAllocated(actions: seq<Action>, x: Address, i: nat, k: nat) {
    forall j :: i < j < k && j < |actions| ==> !(actions[j].Allocate? && actions[j].a == x)
  }

  lemma {:induction false} StaysDead(states: seq<State>, actions: seq<Action>, replies: seq<Reply>, x: Address,
      i: nat, k: nat)
    requires IsRun(states, actions, replies) && i < k < |states|
    requires actions[i].Invalidate? && actions[i].a == x && NotAllocated(actions, x, i, k)
    ensures x !in states[k].live
    decreases k
  {
    RunInv(states, actions, replies, k - 1);
    assert StepAt(states, actions, replies, k - 1);
    if k > i + 1 {
      StaysDead(states, actions, replies, x, i, k - 1);
      NoNewOwner(states[k - 1], actions[k - 1], x);
    }
  }

  lemma {:induction false} StaysFree(states: seq<State>, actions: seq<Action>, replies: seq<Reply>, x: Address,
      i: nat, j: nat, k: nat)
    requires IsRun(states, actions, replies) && i < j <= k < |states|
    requires actions[i].Invalidate? && actions[i].a == x && NotAllocated(actions, x, i, k)
    ensures states[k].Owner(x) == None || states[k].Owner(x) == states[j].Owner(x)
    decreases k
  {
    if k > j {
      StaysFree(states, actions, replies, x, i, j, k - 1);
      StaysDead(states, actions, replies, x, i, k - 1);
      RunInv(states, actions, replies, k - 1);
      assert StepAt(states, actions, replies, k - 1);
      NoNewOwner(states[k - 1], actions[k - 1], x);
    }
  }

  /** From an invalidation up to the next allocation of the address no step
      gives anybody the lock: each leaves the owner or takes the lock away. So
      once it is free it stays free, and even the holder at the invalidation
      does not have it again after letting go. */
  lemma NobodyGainsInvalidated(states: seq<State>, actions: seq<Action>, replies: seq<Reply>, x: Address,
      i: nat, k: nat)
    requires IsRun(states, actions, replies) && i < k < |states|
    requires actions[i].Invalidate? && actions[i].a == x && NotAllocated(actions, x, i, k)
    ensures states[i + 1].Owner(x) == states[i].Owner(x)
    ensures forall j :: i < j <= k ==> x !in states[j].live
    ensures forall j :: i < j < k ==> states[j + 1].Owner(x) == None || states[j + 1].Owner(x) == states[j].Owner(x)
    ensures forall j, j' :: i < j <= j' <= k && states[j].Owner(x) == None ==> states[j'].Owner(x) == None
  {
    hide Next, Inv;
    RunInv(states, actions, replies, i);
    assert StepAt(states, actions, replies, i);
    InvalidateKeepsOwner(states[i], actions[i]);
    forall j | i < j <= k ensures x !in states[j].live {
      StaysDead(states, actions, replies, x, i, j);
    }
    forall j, j' | i < j <= j' <= k
      ensures states[j'].Owner(x) == None || states[j'].Owner(x) == states[j].Owner(x)
    {
      StaysFree(states, actions, replies, x, i, j, j');
    }
  }

  lemma InvalidateKeepsOwner(s: State, a: Action)
    requires a.Invalidate?
    ensures Next(s, a).0.Owner(a.a) == s.Owner(a.a)
  {
  }

  /** The `Lock` call that thread `t` makes on `x` at step `i`, finding it live
      and held by another thread, is still blocked at state `k`. */
  ghost predicate BlockedSince(states: seq<State>, actions: seq<Action>, t: Thread, x: Address, i: nat, k: nat) {
    && i < k < |states| && |states| == |actions| + 1
    && actions[i].Lock? && actions[i].t == t && actions[i].a == x && x in states[i].live
    && forall j :: i < j <= k ==> t in states[j].calls && states[j].calls[t].InLock?
  }

  ghost predicate InvalidatedBetween(actions: seq<Action>, x: Address, i: nat, k: nat) {
    exists j :: i < j < k && j < |actions| && actions[j].Invalidate? && actions[j].a == x
  }

  /** While a call is blocked its lock stays registered, on the same mutex, and
      is live exactly as long as nobody has invalidated it. */
  lemma {:induction false} BlockedCall(states: seq<State>, actions: seq<Action>, replies: seq<Reply>,
      t: Thread, x: Address, i: nat, k: nat)
    requires IsRun(states, actions, replies) && BlockedSince(states, actions, t, x, i, k)
    ensures states[k].calls[t].a == x
    ensures x in states[k].live <==> !InvalidatedBetween(actions, x, i, k)
    ensures x in states[k].live + states[k].invalidated
    decreases k
  {
    hide Inv, Next;
    RunInv(states, actions, replies, k - 1);
    assert StepAt(states, actions, replies, k - 1);
    if k == i + 1 {
      LockBlocks(states[i], actions[i], t, x);
      assert !InvalidatedBetween(actions, x, i, k);
    } else {
      BlockedCall(states, actions, replies, t, x, i, k - 1);
      StepKeepsCall(states[k - 1], actions[k - 1], t, x);
      assert InvalidatedBetween(actions, x, i, k) <==>
             InvalidatedBetween(actions, x, i, k - 1) || (actions[k - 1].Invalidate? && actions[k - 1].a == x);
    }
  }

  lemma LockBlocks(s: State, a: Action, t: Thread, x: Address)
    requires Inv(s) && Allowed(s, a) && PointersGood(s, a) && a.Lock? && a.t == t && a.a == x && x in s.live
    requires t in Next(s, a).0.calls
    ensures Next(s, a).0.calls[t].a == x && x in Next(s, a).0.live
  {
  }

  /** A step that leaves a `Lock` call blocked leaves its lock registered, and
      takes it from the live ones exactly if it invalidates it. */
  lemma StepKeepsCall(s: State, a: Action, t: Thread, x: Address)
    requires Inv(s) && Allowed(s, a) && PointersGood(s, a)
    requires t in s.calls && s.calls[t].InLock? && s.calls[t].a == x && x in s.live + s.invalidated
    requires t in Next(s, a).0.calls && Next(s, a).0.calls[t].InLock?
    ensures var s' := Next(s, a).0;
      && s'.calls[t].a == x && x in s'.live + s'.invalidated
      && (x in s'.live <==> x in s.live && !(a.Invalidate? && a.a == x))
  {
    assert CallInv(s, t);
  }

  /** A blocked `Lock` call that returns at step `k` acquired the lock exactly if
      nobody invalidated it meanwhile; then the caller owns the lock and it is
      still valid. Otherwise the call reports that the lock is invalid, and has
      given it back. */
  lemma LockReturns(states: seq<State>, actions: seq<Action>, replies: seq<Reply>, t: Thread, x: Address,
      i: nat, k: nat)
    requires IsRun(states, actions, replies) && BlockedSince(states, actions, t, x, i, k)
    requires k < |actions| && actions[k] == Resume(t) && replies[k].Returned?
    ensures replies[k] == Returned(if InvalidatedBetween(actions, x, i, k) then Invalid else Acquired)
    ensures replies[k] == Returned(Acquired) ==>
              states[k + 1].Owner(x) == Some(t) && x in states[k + 1].live && x !in states[k + 1].invalidated
    ensures replies[k] == Returned(Invalid) ==>
              states[k + 1].Owner(x) == None && x in states[k + 1].invalidated
    ensures t !in states[k + 1].calls
  {
    BlockedCall(states, actions, replies, t, x, i, k);
    RunInv(states, actions, replies, k);
    assert StepAt(states, actions, replies, k);
  }

  /** What a `Lock` call that does not block reports. An invalidated lock counts
      as acquired, without being owned, unless the caller allows invalid locks. */
  lemma LockAtOnce(states: seq<State>, actions: seq<Action>, replies: seq<Reply>, i: nat, t: Thread,
      x: Address, allowInvalid: bool)
    requires IsRun(states, actions, replies) && i < |actions| && actions[i] == Lock(t, x, allowInvalid)
    ensures replies[i] == Returned(Acquired) <==>
            (x in states[i].live && states[i].Owner(x) == None) || (x in states[i].invalidated && !allowInvalid)
    ensures replies[i] == Returned(Invalid) <==>
            x !in states[i].live && (x in states[i].invalidated ==> allowInvalid)
    ensures x in states[i].live && replies[i] == Returned(Acquired) ==>
            states[i + 1].Owner(x) == Some(t) && x in states[i + 1].live
    ensures x !in states[i].live ==> states[i + 1] == states[i]
  {
    RunInv(states, actions, replies, i);
    assert StepAt(states, actions, replies, i);
  }

  /** When a lock is freed no thread is blocked in `Lock` on it, so the waiters
      that a synchronous destruction lets go have all left. */
  lemma FreedWithoutWaiters(states: seq<State>, actions: seq<Action>, replies: seq<Reply>, i: nat, x: Address)
    requires IsRun(states, actions, replies) && i < |actions|
    requires x in states[i].slot && x !in states[i + 1].slot
    ensures forall t :: t in states[i].calls && states[i].calls[t].InLock? ==> states[i].calls[t].a != x
    ensures states[i].HasMutex(x) && states[i].MutexAt(x).waiters == {}
  {
    RunInv(states, actions, replies, i);
    assert StepAt(states, actions, replies, i);
    if states[i].MutexAt(x).waiters != {} {
      var t := Member(states[i].MutexAt(x).waiters);
      WaiterIsInCall(states[i], x, t);
    }
  }

  // ----- What each operation does, in every run

  /** The lock that a step is about. */
  function Subject(s: State, a: Action): Address
    requires a.Resume? ==> a.t in s.calls
  {
    if a.Resume? then s.calls[a.t].a else a.a
  }

  /** The lock is registered the same way, with the same owner and waiters. */
  ghost predicate SameLock(s: State, s': State, y: Address) {
    && (y in s'.live <==> y in s.live) && (y in s'.invalidated <==> y in s.invalidated)
    && (y in s'.slot <==> y in s.slot)
    && (y in s.slot ==> s'.slot[y] == s.slot[y] && s.HasMutex(y) && s'.HasMutex(y) && s'.MutexAt(y) == s.MutexAt(y))
  }

  ghost predicate OnlyTouches(s: State, s': State, x: Address) {
    forall y :: y != x ==> SameLock(s, s', y)
  }

  lemma StepTouches(s: State, a: Action)
    requires Inv(s) && Allowed(s, a) && PointersGood(s, a)
    ensures OnlyTouches(s, Next(s, a).0, Subject(s, a))
  {
    var s' := Next(s, a).0;
    forall y | y != Subject(s, a) ensures SameLock(s, s', y) {
      StepFrames(s, a, y, a.t);
    }
  }

  ghost predicate SameCall(s: State, s': State, u: Thread) {
    (u in s'.calls <==> u in s.calls) && (u in s.calls ==> s'.calls[u] == s.calls[u])
  }

  /** A step touches no lock but its own and no thread's call but its own. */
  lemma StepFrames(s: State, a: Action, y: Address, u: Thread)
    requires Inv(s) && Allowed(s, a) && PointersGood(s, a)
    ensures y != Subject(s, a) ==> SameLock(s, Next(s, a).0, y)
    ensures u != a.t ==> SameCall(s, Next(s, a).0, u)
  {
    if a.Resume? {
      assert CallInv(s, a.t);
    }
  }

  ghost predicate IsStep(states: seq<State>, actions: seq<Action>, replies: seq<Reply>, i: nat, a: Action) {
    IsRun(states, actions, replies) && i < |actions| && actions[i] == a
  }

  lemma RunStep(states: seq<State>, actions: seq<Action>, replies: seq<Reply>, i: nat)
    requires IsRun(states, actions, replies) && i < |actions|
    ensures Inv(states[i]) && Allowed(states[i], actions[i]) && PointersGood(states[i], actions[i])
    ensures (states[i + 1], replies[i]) == Next(states[i], actions[i])
  {
    RunInv(states, actions, replies, i);
    assert StepAt(states, actions, replies, i);
  }

  /** A new lock is live, owned by nobody and waited for by nobody. */
  lemma Allocated(states: seq<State>, actions: seq<Action>, replies: seq<Reply>, i: nat, t: Thread, x: Address,
      m: MutexId)
    requires IsStep(states, actions, replies, i, Allocate(t, x, m))
    ensures x in states[i + 1].live && x !in states[i + 1].invalidated && states[i + 1].HasMutex(x)
    ensures states[i + 1].MutexAt(x) == Mutex(None, {}) && states[i + 1].calls == states[i].calls
  {
    RunStep(states, actions, replies, i);
  }

  /** An invalidated lock keeps its owner and its waiters. */
  lemma Invalidated(states: seq<State>, actions: seq<Action>, replies: seq<Reply>, i: nat, t: Thread, x: Address)
    requires IsStep(states, actions, replies, i, Invalidate(t, x))
    ensures x !in states[i + 1].live && x in states[i + 1].invalidated
    ensures states[i].HasMutex(x) && states[i + 1].HasMutex(x) && states[i + 1].MutexAt(x) == states[i].MutexAt(x)
    ensures states[i + 1].calls == states[i].calls
  {
    RunStep(states, actions, replies, i);
  }

  /** Unlocking a registered lock releases it exactly if the caller owns it, and
      changes nothing else; a lock that is not registered is left alone. */
  lemma UnlockReleases(states: seq<State>, actions: seq<Action>, replies: seq<Reply>, i: nat, t: Thread, x: Address)
    requires IsStep(states, actions, replies, i, Unlock(t, x))
    ensures x !in states[i].slot ==> states[i + 1] == states[i]
    ensures x in states[i].slot ==>
      && states[i].HasMutex(x) && states[i + 1].HasMutex(x)
      && states[i + 1].Owner(x) == (if states[i].Owner(x) == Some(t) then None else states[i].Owner(x))
      && states[i + 1].MutexAt(x).waiters == states[i].MutexAt(x).waiters
    ensures states[i + 1].live == states[i].live && states[i + 1].invalidated == states[i].invalidated
    ensures states[i + 1].slot == states[i].slot && states[i + 1].calls == states[i].calls
    ensures OnlyTouches(states[i], states[i + 1], x)
  {
    RunStep(states, actions, replies, i);
    StepTouches(states[i], actions[i]);
  }

  /** What TryLock answers: it succeeds exactly on a live lock that nobody owns,
      which the caller then owns, and aborts on one that the caller owns. */
  lemma TryLockAnswers(states: seq<State>, actions: seq<Action>, replies: seq<Reply>, i: nat, t: Thread, x: Address)
    requires IsStep(states, actions, replies, i, TryLock(t, x))
    ensures replies[i] == Flag(true) <==> x in states[i].live && states[i].Owner(x) == None
    ensures replies[i] == Aborted <==> x in states[i].live && states[i].Owner(x) == Some(t)
    ensures replies[i] in {Flag(true), Flag(false), Aborted}
    ensures replies[i] == Flag(true) ==>
      states[i].HasMutex(x) && states[i + 1].HasMutex(x) && x in states[i + 1].live
      && states[i + 1].MutexAt(x) == Mutex(Some(t), states[i].MutexAt(x).waiters)
      && states[i + 1].calls == states[i].calls
    ensures replies[i] != Flag(true) ==> states[i + 1] == states[i]
  {
    RunStep(states, actions, replies, i);
  }

  /** Held says whether the caller owns the lock while it is live. */
  lemma HeldAnswers(states: seq<State>, actions: seq<Action>, replies: seq<Reply>, i: nat, t: Thread, x: Address)
    requires IsStep(states, actions, replies, i, Held(t, x))
    ensures replies[i] == Flag(x in states[i].live && states[i].Owner(x) == Some(t))
    ensures states[i + 1] == states[i]
  {
    RunStep(states, actions, replies, i);
  }

  /** A `Lock` call blocks exactly on a live lock that another thread owns, and
      aborts on one that the caller owns. */
  lemma LockWaits(states: seq<State>, actions: seq<Action>, replies: seq<Reply>, i: nat, t: Thread, x: Address,
      allowInvalid: bool)
    requires IsStep(states, actions, replies, i, Lock(t, x, allowInvalid))
    ensures replies[i] == Blocked <==> x in states[i].live && states[i].Owner(x) !in {None, Some(t)}
    ensures replies[i] == Aborted <==> x in states[i].live && states[i].Owner(x) == Some(t)
    ensures replies[i] == Blocked ==>
      states[i].HasMutex(x) && states[i + 1].HasMutex(x) && x in states[i + 1].live
      && states[i + 1].Owner(x) == states[i].Owner(x)
      && states[i + 1].MutexAt(x).waiters == states[i].MutexAt(x).waiters + {t}
      && t in states[i + 1].calls && states[i + 1].calls[t] == InLock(x, states[i].slot[x])
    ensures replies[i] == Aborted ==> states[i + 1] == states[i]
  {
    RunStep(states, actions, replies, i);
  }

  /** A blocked call that is resumed returns exactly if nobody owns the lock, and
      otherwise goes on waiting with nothing changed. */
  lemma ResumedLock(states: seq<State>, actions: seq<Action>, replies: seq<Reply>, i: nat, t: Thread,
      x: Address, m: MutexId)
    requires IsStep(states, actions, replies, i, Resume(t))
    requires t in states[i].calls && states[i].calls[t] == InLock(x, m)
    ensures replies[i].Returned? <==> states[i].Owner(x) == None
    ensures !replies[i].Returned? ==> replies[i] == Blocked && states[i + 1] == states[i]
    ensures replies[i].Returned? ==>
      states[i].HasMutex(x) && states[i + 1].HasMutex(x)
      && states[i + 1].MutexAt(x).waiters == states[i].MutexAt(x).waiters - {t}
  {
    RunStep(states, actions, replies, i);
    assert CallInv(states[i], t);
  }

  /** Some thread takes the lock, which nobody owned, at step `j`. */
  ghost predicate TakenAt(states: seq<State>, x: Address, j: nat)
    requires j + 1 < |states|
  {
    states[j].Owner(x) == None && states[j + 1].Owner(x) != None
  }

  lemma {:induction false} StaysUntaken(states: seq<State>, x: Address, i: nat, k: nat)
    requires i <= k < |states| && states[i].Owner(x) == None
    requires forall j :: i <= j < k ==> !TakenAt(states, x, j)
    ensures states[k].Owner(x) == None
    decreases k
  {
    if i < k {
      StaysUntaken(states, x, i, k - 1);
      assert !TakenAt(states, x, k - 1);
    }
  }

  /** After its owner unlocks a lock, a call blocked on it returns as soon as it
      is resumed, if nobody has taken the lock before. */
  lemma UnlockLetsIn(states: seq<State>, actions: seq<Action>, replies: seq<Reply>,
      i: nat, k: nat, u: Thread, t: Thread, x: Address, m: MutexId)
    requires IsStep(states, actions, replies, i, Unlock(u, x)) && x in states[i].slot && states[i].Owner(x) == Some(u)
    requires i < k && IsStep(states, actions, replies, k, Resume(t))
    requires t in states[k].calls && states[k].calls[t] == InLock(x, m)
    requires forall j :: i < j < k ==> !TakenAt(states, x, j)
    ensures replies[k].Returned?
  {
    UnlockReleases(states, actions, replies, i, u, x);
    StaysUntaken(states, x, i + 1, k);
    ResumedLock(states, actions, replies, k, t, x, m);
  }

  /** Destruction waits exactly for the waiters of an invalidated lock, when it is
      synchronous, and gives the lock up meanwhile if the caller owns it; when it
      is done nothing is left of the lock. */
  lemma Destroyed(states: seq<State>, actions: seq<Action>, replies: seq<Reply>, i: nat, t: Thread, x: Address,
      sync: bool)
    requires IsStep(states, actions, replies, i, Destroy(t, x, sync))
    ensures states[i].HasMutex(x)
    ensures replies[i] == Blocked <==> sync && x in states[i].invalidated && states[i].MutexAt(x).waiters != {}
    ensures replies[i] == Blocked ==>
      states[i + 1].HasMutex(x) && x in states[i + 1].invalidated
      && states[i + 1].Owner(x) == (if states[i].Owner(x) == Some(t) then None else states[i].Owner(x))
      && states[i + 1].MutexAt(x).waiters == states[i].MutexAt(x).waiters
      && t in states[i + 1].calls && states[i + 1].calls[t] == InDestroy(x)
    ensures replies[i] != Blocked ==> replies[i] == Done && Gone(states[i], states[i + 1], x)
  {
    RunStep(states, actions, replies, i);
  }

  ghost predicate Gone(s: State, s': State, x: Address)
    requires x in s.slot
  {
    x !in s'.live && x !in s'.invalidated && x !in s'.slot && s.slot[x] !in s'.mutexes
  }

  /** A destruction that waits is done as soon as it is resumed with no waiter left. */
  lemma ResumedDestroy(states: seq<State>, actions: seq<Action>, replies: seq<Reply>, i: nat, t: Thread, x: Address)
    requires IsStep(states, actions, replies, i, Resume(t))
    requires t in states[i].calls && states[i].calls[t] == InDestroy(x)
    ensures states[i].HasMutex(x)
    ensures if states[i].MutexAt(x).waiters == {}
            then replies[i] == Done && Gone(states[i], states[i + 1], x) && t !in states[i + 1].calls
            else replies[i] == Blocked && states[i + 1] == states[i]
  {
    RunStep(states, actions, replies, i);
    assert CallInv(states[i], t);
  }

  // ----- The manager

  /** The manager with the memory it works on. A method runs up to the end of the
      call or to the point where the calling thread `t` blocks. */
  class HwTicketLockManager {
    var live: set<Address>
    var invalidated: set<Address>
    var slot: map<Address, MutexId>
    var mutexes: map<MutexId, Mutex>
    var calls: map<Thread, Call>

    ghost function View(): State
      reads this
    {
      State(live, invalidated, slot, mutexes, calls)
    }

    constructor ()
      ensures View() == INIT
    {
      live, invalidated := {}, {};
      slot, mutexes, calls := map[], map[], map[];
    }

    method Allocate(a: Address, m: MutexId)
      modifies this
      ensures View() == AllocateStep(old(View()), a, m)
    {
      mutexes := mutexes[m := Mutex(None, {})];
      slot := slot[a := m];
      live := live + {a};
    }

    method Invalidate(a: Address)
      modifies this
      ensures View() == InvalidateStep(old(View()), a)
    {
      live := live - {a};
      invalidated := invalidated + {a};
    }

    method Destroy(t: Thread, a: Address, sync: bool) returns (r: Reply)
      requires View().HasMutex(a)
      modifies this
      ensures (View(), r) == DestroyStep(old(View()), t, a, sync)
    {
      live := live - {a};
      if sync && a in invalidated {
        if mutexes[slot[a]].waiters != {} {
          if mutexes[slot[a]].owner == Some(t) {
            SetOwner(slot[a], None);
          }
          calls := calls[t := InDestroy(a)];
          return Blocked;
        }
      }
      FreeMutex(a);
      return Done;
    }

    /** After a yield inside `Destroy`. */
    method DestroyAgain(t: Thread, a: Address) returns (r: Reply)
      requires View().HasMutex(a)
      modifies this
      ensures (View(), r) == DestroyResumed(old(View()), t, a)
    {
      if mutexes[slot[a]].waiters != {} {
        return Blocked;
      }
      calls := calls - {t};
      FreeMutex(a);
      return Done;
    }

    method FreeMutex(a: Address)
      requires View().HasMutex(a)
      modifies this
      ensures View() == Free(old(View()), a)
    {
      invalidated := invalidated - {a};
      mutexes := mutexes - {slot[a]};
      slot := slot - {a};
    }

    method SetOwner(m: MutexId, owner: Option<Thread>)
      requires m in mutexes
      modifies this`mutexes
      ensures View() == old(View()).WithOwner(m, owner)
    {
      mutexes := mutexes[m := mutexes[m].(owner := owner)];
    }

    method Lock(t: Thread, a: Address, allowInvalid: bool) returns (r: Reply)
      requires a in live ==> View().HasMutex(a)
      modifies this
      ensures (View(), r) == LockStep(old(View()), t, a, allowInvalid)
    {
      if a in invalidated {
        if allowInvalid {
          return Returned(Invalid);
        }
        return Returned(Acquired);
      }
      if a !in live {
        return Returned(Invalid);
      }
      var m := slot[a];
      if mutexes[m].owner == None {
        r := Take(t, a, m);
      } else if mutexes[m].owner == Some(t) {
        r := Aborted;
      } else {
        mutexes := mutexes[m := mutexes[m].(waiters := mutexes[m].waiters + {t})];
        calls := calls[t := InLock(a, m)];
        r := Blocked;
      }
    }

    /** After waking up inside `Lock`. */
    method LockAgain(t: Thread, a: Address, m: MutexId) returns (r: Reply)
      requires m in mutexes && View().HasMutex(a)
      modifies this
      ensures (View(), r) == LockResumed(old(View()), t, a, m)
    {
      if mutexes[m].owner == None {
        r := Take(t, a, m);
      } else {
        r := Blocked;
      }
    }

    method Take(t: Thread, a: Address, m: MutexId) returns (r: Reply)
      requires m in mutexes && View().HasMutex(a)
      modifies this
      ensures (View(), r) == TakeMutex(old(View()), t, a, m)
    {
      calls := calls - {t};
      mutexes := mutexes[m := Mutex(Some(t), mutexes[m].waiters - {t})];
      if a in invalidated {
        SetOwner(slot[a], None);
        return Returned(Invalid);
      }
      return Returned(Acquired);
    }

    method TryLock(t: Thread, a: Address) returns (r: Reply)
      requires a in live ==> View().HasMutex(a)
      modifies this
      ensures (View(), r) == TryLockStep(old(View()), t, a)
    {
      if a !in live {
        return Flag(false);
      }
      var owner := mutexes[slot[a]].owner;
      if owner == Some(t) {
        return Aborted;
      }
      if owner != None {
        return Flag(false);
      }
      SetOwner(slot[a], Some(t));
      return Flag(true);
    }

    method Unlock(t: Thread, a: Address)
      requires a in live + invalidated ==> View().HasMutex(a)
      modifies this
      ensures View() == UnlockStep(old(View()), t, a)
    {
      if a !in live && a !in invalidated {
        return;
      }
      if mutexes[slot[a]].owner != Some(t) {
        return;
      }
      SetOwner(slot[a], None);
    }

    method Held(t: Thread, a: Address) returns (r: Reply)
      requires a in live ==> View().HasMutex(a)
      ensures r == HeldReply(View(), t, a)
    {
      if a !in live {
        return Flag(false);
      }
      if a in invalidated {
        return Aborted;
      }
      return Flag(mutexes[slot[a]].owner == Some(t));
    }
  }
}
