/** Sleeping with an inheritor: the sleep and wakeup functions that use a hash
    bucket lock as interlock, as steps of many threads over many events, locks
    and buckets. Control can pass to another thread between any two steps.

    A turnstile is its wait queue, which `queue` keeps by sleeping thread; a
    lock, of either kind, is its owner. */
module InheritorSleep {
  import opened Wrappers

  type Thread = int
  type Event = int
  type Lock = int
  type Bucket = int

  /** The arguments of a sleep; `relock` is false for `LCK_SLEEP_UNLOCK`. */
  datatype Sleep = Sleep(event: Event, lock: Lock, relock: bool)

  datatype Wake = WakeAll(event: Event) | WakeOne(event: Event, transferPush: bool)

  /** The next thing a thread does. */
  datatype Pc =
    | Outside
    | SleepLockBucket(c: Sleep)
    | SleepUnlockPrimitive(c: Sleep)
    | SleepAssertWait(c: Sleep)
    | SleepUnlockBucket(c: Sleep, waits: bool)
    | SleepBlock(c: Sleep, waits: bool)
    | SleepRelockBucket(c: Sleep)
    | SleepComplete(c: Sleep)
    | SleepReunlockBucket(c: Sleep)
    | SleepRelockPrimitive(c: Sleep)
    | WakeLockBucket(w: Wake)
    | WakeWaiters(w: Wake)
    | WakeUnlockBucket(w: Wake, woken: set<Thread>)
    | WakeRelockBucket(w: Wake, woken: set<Thread>)
    | WakeComplete(w: Wake, woken: set<Thread>)
    | WakeReunlockBucket(w: Wake, woken: set<Thread>)

  datatype State = State(
    pcs: map<Thread, Pc>,
    primitive: map<Lock, Thread>,
    bucket: map<Bucket, Thread>,
    queue: map<Thread, Event>)
  {
    function Pc(t: Thread): Pc {
      if t in pcs then pcs[t] else Outside
    }

    function At(t: Thread, pc: Pc): State {
      this.(pcs := pcs[t := pc])
    }

    function Waiters(e: Event): set<Thread> {
      set t | t in queue && queue[t] == e
    }

    ghost predicate HoldsPrimitive(t: Thread, l: Lock) {
      l in primitive && primitive[l] == t
    }

    ghost predicate HoldsBucket(t: Thread, b: Bucket) {
      b in bucket && bucket[b] == t
    }
  }

  const INIT := State(map[], map[], map[], map[])

  /** What may happen next. `waits` is the outcome of asserting the wait (false
      for an interrupted thread), `chosen` the thread that a wake-one picks, and
      `EndWait` a deadline or an abort. */
  datatype Action =
    | LockPrimitive(t: Thread, l: Lock)
    | UnlockPrimitive(t: Thread, l: Lock)
    | CallSleep(t: Thread, c: Sleep)
    | CallWake(t: Thread, w: Wake)
    | Continue(t: Thread, waits: bool, chosen: Thread)
    | EndWait(t: Thread)

  /** How far a sleep has come. */
  function Progress(pc: Pc): nat {
    match pc
    case SleepLockBucket(_) => 1
    case SleepUnlockPrimitive(_) => 2
    case SleepAssertWait(_) => 3
    case SleepUnlockBucket(_, _) => 4
    case SleepBlock(_, _) => 5
    case SleepRelockBucket(_) => 6
    case SleepComplete(_) => 7
    case SleepReunlockBucket(_) => 8
    case SleepRelockPrimitive(_) => 9
    case _ => 0
  }

  /** One step, or `None` when the action cannot happen now. */
  function Next(hash: Event -> Bucket, s: State, a: Action): Option<State> {
    match a
    case LockPrimitive(t, l) =>
      if s.Pc(t) == Outside && l !in s.primitive then Some(s.(primitive := s.primitive[l := t]))
      else None
    case UnlockPrimitive(t, l) =>
      if s.Pc(t) == Outside && l in s.primitive && s.primitive[l] == t then Some(s.(primitive := s.primitive - {l}))
      else None
    case CallSleep(t, c) =>
      if s.Pc(t) == Outside && c.lock in s.primitive && s.primitive[c.lock] == t then Some(s.At(t, SleepLockBucket(c)))
      else None
    case CallWake(t, w) =>
      if s.Pc(t) == Outside then Some(s.At(t, WakeLockBucket(w))) else None
    case EndWait(t) =>
      if t in s.queue then Some(s.(queue := s.queue - {t})) else None
    case Continue(t, waits, chosen) =>
      if s.Pc(t) == Outside then None
      else if Progress(s.Pc(t)) > 0 then SleepStep(hash, s, t, waits)
      else WakeStep(hash, s, t, chosen)
  }

  /** The next step of a thread inside the sleep function. */
  function SleepStep(hash: Event -> Bucket, s: State, t: Thread, waits: bool): Option<State>
    requires Progress(s.Pc(t)) > 0
  {
    match s.Pc(t)
    case SleepLockBucket(c) => LockBucket(s, hash(c.event), t, SleepUnlockPrimitive(c))
    case SleepUnlockPrimitive(c) => Some(s.(primitive := s.primitive - {c.lock}).At(t, SleepAssertWait(c)))
    case SleepAssertWait(c) =>
      var queue := if waits then s.queue[t := c.event] else s.queue;
      Some(s.(queue := queue).At(t, SleepUnlockBucket(c, waits)))
    case SleepUnlockBucket(c, w) => Some(UnlockBucket(s, hash(c.event)).At(t, SleepBlock(c, w)))
    case SleepBlock(c, w) => if t in s.queue then None else Some(s.At(t, SleepRelockBucket(c)))
    case SleepRelockBucket(c) => LockBucket(s, hash(c.event), t, SleepComplete(c))
    case SleepComplete(c) => Some(s.At(t, SleepReunlockBucket(c)))
    case SleepReunlockBucket(c) => Some(UnlockBucket(s, hash(c.event)).At(t, SleepRelockPrimitive(c)))
    case SleepRelockPrimitive(c) =>
      if !c.relock then Some(s.At(t, Outside))
      else if c.lock in s.primitive then None
      else Some(s.(primitive := s.primitive[c.lock := t]).At(t, Outside))
  }

  /** The next step of a thread inside the wakeup function. */
  function WakeStep(hash: Event -> Bucket, s: State, t: Thread, chosen: Thread): Option<State>
    requires Progress(s.Pc(t)) == 0 && s.Pc(t) != Outside
  {
    match s.Pc(t)
    case WakeLockBucket(w) => LockBucket(s, hash(w.event), t, WakeWaiters(w))
    case WakeWaiters(w) =>
      var waiters := s.Waiters(w.event);
      if w.WakeAll? || waiters == {} then
        Some(s.(queue := s.queue - waiters).At(t, WakeUnlockBucket(w, waiters)))
      else if chosen !in waiters then None
      else
        var next := if w.transferPush then WakeUnlockBucket(w, {chosen}) else WakeComplete(w, {chosen});
        Some(s.(queue := s.queue - {chosen}).At(t, next))
    case WakeUnlockBucket(w, woken) => Some(UnlockBucket(s, hash(w.event)).At(t, WakeRelockBucket(w, woken)))
    case WakeRelockBucket(w, woken) => LockBucket(s, hash(w.event), t, WakeComplete(w, woken))
    case WakeComplete(w, woken) => Some(s.At(t, WakeReunlockBucket(w, woken)))
    case WakeReunlockBucket(w, woken) => Some(UnlockBucket(s, hash(w.event)).At(t, Outside))
  }

  function LockBucket(s: State, b: Bucket, t: Thread, then_: Pc): Option<State> {
    if b in s.bucket then None else Some(s.(bucket := s.bucket[b := t]).At(t, then_))
  }

  function UnlockBucket(s: State, b: Bucket): State {
    s.(bucket := s.bucket - {b})
  }

  // ----- The invariant

  /** The bucket a thread holds at a program point. */
  ghost function HeldBucket(hash: Event -> Bucket, pc: Pc): Option<Bucket> {
    match pc
    case SleepUnlockPrimitive(c) => Some(hash(c.event))
    case SleepAssertWait(c) => Some(hash(c.event))
    case SleepUnlockBucket(c, _) => Some(hash(c.event))
    case SleepComplete(c) => Some(hash(c.event))
    case SleepReunlockBucket(c) => Some(hash(c.event))
    case WakeWaiters(w) => Some(hash(w.event))
    case WakeUnlockBucket(w, _) => Some(hash(w.event))
    case WakeComplete(w, _) => Some(hash(w.event))
    case WakeReunlockBucket(w, _) => Some(hash(w.event))
    case _ => None
  }

  ghost predicate Sleeping(pc: Pc, c: Sleep) {
    Progress(pc) > 0 && pc.c == c
  }

  /** A thread holds exactly the bucket lock that its program point says. */
  ghost predicate BucketInv(hash: Event -> Bucket, s: State, t: Thread) {
    forall b: Bucket :: s.HoldsBucket(t, b) <==> HeldBucket(hash, s.Pc(t)) == Some(b)
  }

  /** A thread holds the primitive lock until it drops it, waits only from
      asserting the wait to blocking, and does not hold the lock meanwhile. */
  ghost predicate LocksInv(s: State, t: Thread) {
    var pc := s.Pc(t);
    && (1 <= Progress(pc) <= 2 ==> s.HoldsPrimitive(t, pc.c.lock))
    && (3 <= Progress(pc) ==> !s.HoldsPrimitive(t, pc.c.lock))
    && (t in s.queue ==> 4 <= Progress(pc) <= 5 && pc.waits && pc.c.event == s.queue[t])
  }

  ghost predicate ThreadInv(hash: Event -> Bucket, s: State, t: Thread) {
    BucketInv(hash, s, t) && LocksInv(s, t)
  }

  ghost predicate Inv(hash: Event -> Bucket, s: State) {
    forall t :: ThreadInv(hash, s, t)
  }

  lemma InitInv(hash: Event -> Bucket)
    ensures Inv(hash, INIT)
  {
  }

  /** `s'` leaves `t` where it is, with the primitive locks it holds and on no
      other queue. */
  ghost predicate Frames(s: State, s': State, t: Thread) {
    && s'.Pc(t) == s.Pc(t)
    && (forall l: Lock :: s'.HoldsPrimitive(t, l) <==> s.HoldsPrimitive(t, l))
    && (t in s'.queue ==> t in s.queue && s'.queue[t] == s.queue[t])
  }

  lemma SleepStepFrames(hash: Event -> Bucket, s: State, u: Thread, waits: bool, t: Thread)
    requires LocksInv(s, u) && t != u && Progress(s.Pc(u)) > 0 && SleepStep(hash, s, u, waits).Some?
    ensures Frames(s, SleepStep(hash, s, u, waits).value, t)
  {
    if s.Pc(u).SleepUnlockPrimitive? {
      assert s.HoldsPrimitive(u, s.Pc(u).c.lock);
    }
  }

  lemma WakeStepFrames(hash: Event -> Bucket, s: State, u: Thread, chosen: Thread, t: Thread)
    requires t != u && Progress(s.Pc(u)) == 0 && s.Pc(u) != Outside && WakeStep(hash, s, u, chosen).Some?
    ensures Frames(s, WakeStep(hash, s, u, chosen).value, t)
  {
  }

  /** A step leaves the other threads where they are, with the locks they hold. */
  lemma StepFramesOthers(hash: Event -> Bucket, s: State, a: Action, t: Thread)
    requires Next(hash, s, a).Some? && ThreadInv(hash, s, a.t) && t != a.t
    ensures Frames(s, Next(hash, s, a).value, t)
  {
    hide SleepStep, WakeStep;
    if a.Continue? {
      hide Frames;
      if Progress(s.Pc(a.t)) > 0 {
        SleepStepFrames(hash, s, a.t, a.waits, t);
      } else {
        WakeStepFrames(hash, s, a.t, a.chosen, t);
      }
    }
  }

  lemma StepFramesBuckets(hash: Event -> Bucket, s: State, a: Action, t: Thread)
    requires Next(hash, s, a).Some? && ThreadInv(hash, s, a.t) && t != a.t
    ensures forall b: Bucket :: Next(hash, s, a).value.HoldsBucket(t, b) <==> s.HoldsBucket(t, b)
  {
    var held := HeldBucket(hash, s.Pc(a.t));
    assert held.Some? ==> s.HoldsBucket(a.t, held.value);
  }

  lemma TakesBucket(hash: Event -> Bucket, s: State, t: Thread, b: Bucket, pc: Pc)
    requires BucketInv(hash, s, t) && HeldBucket(hash, s.Pc(t)) == None
    requires LockBucket(s, b, t, pc).Some? && HeldBucket(hash, pc) == Some(b)
    ensures BucketInv(hash, LockBucket(s, b, t, pc).value, t)
  {
  }

  lemma DropsBucket(hash: Event -> Bucket, s: State, t: Thread, b: Bucket, pc: Pc)
    requires BucketInv(hash, s, t) && HeldBucket(hash, s.Pc(t)) == Some(b) && HeldBucket(hash, pc) == None
    ensures BucketInv(hash, UnlockBucket(s, b).At(t, pc), t)
  {
  }

  lemma KeepsBucket(hash: Event -> Bucket, s: State, t: Thread, s': State)
    requires BucketInv(hash, s, t) && s'.bucket == s.bucket
    requires HeldBucket(hash, s'.Pc(t)) == HeldBucket(hash, s.Pc(t))
    ensures BucketInv(hash, s', t)
  {
    forall b: Bucket ensures s'.HoldsBucket(t, b) <==> s.HoldsBucket(t, b) {
    }
  }

  lemma SleepStepKeepsBucket(hash: Event -> Bucket, s: State, t: Thread, waits: bool)
    requires BucketInv(hash, s, t) && Progress(s.Pc(t)) > 0 && SleepStep(hash, s, t, waits).Some?
    ensures BucketInv(hash, SleepStep(hash, s, t, waits).value, t)
  {
    hide BucketInv;
    var pc, b := s.Pc(t), hash(s.Pc(t).c.event);
    if pc.SleepLockBucket? {
      TakesBucket(hash, s, t, b, SleepUnlockPrimitive(pc.c));
    } else if pc.SleepUnlockBucket? {
      DropsBucket(hash, s, t, b, SleepBlock(pc.c, pc.waits));
    } else if pc.SleepRelockBucket? {
      TakesBucket(hash, s, t, b, SleepComplete(pc.c));
    } else if pc.SleepReunlockBucket? {
      DropsBucket(hash, s, t, b, SleepRelockPrimitive(pc.c));
    } else {
      KeepsBucket(hash, s, t, SleepStep(hash, s, t, waits).value);
    }
  }

  lemma WakeStepKeepsBucket(hash: Event -> Bucket, s: State, t: Thread, chosen: Thread)
    requires BucketInv(hash, s, t) && Progress(s.Pc(t)) == 0 && s.Pc(t) != Outside
    requires WakeStep(hash, s, t, chosen).Some?
    ensures BucketInv(hash, WakeStep(hash, s, t, chosen).value, t)
  {
    hide BucketInv;
    var pc, b := s.Pc(t), hash(s.Pc(t).w.event);
    if pc.WakeLockBucket? {
      TakesBucket(hash, s, t, b, WakeWaiters(pc.w));
    } else if pc.WakeUnlockBucket? {
      DropsBucket(hash, s, t, b, WakeRelockBucket(pc.w, pc.woken));
    } else if pc.WakeRelockBucket? {
      TakesBucket(hash, s, t, b, WakeComplete(pc.w, pc.woken));
    } else if pc.WakeReunlockBucket? {
      DropsBucket(hash, s, t, b, Outside);
    } else {
      KeepsBucket(hash, s, t, WakeStep(hash, s, t, chosen).value);
    }
  }

  lemma StepKeepsOwnBucket(hash: Event -> Bucket, s: State, a: Action)
    requires Next(hash, s, a).Some? && BucketInv(hash, s, a.t)
    ensures BucketInv(hash, Next(hash, s, a).value, a.t)
  {
    if a.Continue? {
      if Progress(s.Pc(a.t)) > 0 {
        SleepStepKeepsBucket(hash, s, a.t, a.waits);
      } else {
        WakeStepKeepsBucket(hash, s, a.t, a.chosen);
      }
    }
  }

  lemma SleepStepKeepsLocks(hash: Event -> Bucket, s: State, t: Thread, waits: bool)
    requires LocksInv(s, t) && Progress(s.Pc(t)) > 0 && SleepStep(hash, s, t, waits).Some?
    ensures LocksInv(SleepStep(hash, s, t, waits).value, t)
  {
  }

  lemma WakeStepKeepsLocks(hash: Event -> Bucket, s: State, t: Thread, chosen: Thread)
    requires LocksInv(s, t) && Progress(s.Pc(t)) == 0 && s.Pc(t) != Outside
    requires WakeStep(hash, s, t, chosen).Some?
    ensures LocksInv(WakeStep(hash, s, t, chosen).value, t)
  {
  }

  lemma StepKeepsOwnLocks(hash: Event -> Bucket, s: State, a: Action)
    requires Next(hash, s, a).Some? && LocksInv(s, a.t)
    ensures LocksInv(Next(hash, s, a).value, a.t)
  {
    hide SleepStep, WakeStep;
    if a.Continue? {
      if Progress(s.Pc(a.t)) > 0 {
        SleepStepKeepsLocks(hash, s, a.t, a.waits);
      } else {
        WakeStepKeepsLocks(hash, s, a.t, a.chosen);
      }
    }
  }

  lemma StepKeepsThreadInv(hash: Event -> Bucket, s: State, a: Action, t: Thread)
    requires Next(hash, s, a).Some?
    requires ThreadInv(hash, s, t) && ThreadInv(hash, s, a.t)
    ensures ThreadInv(hash, Next(hash, s, a).value, t)
  {
    if t == a.t {
      StepKeepsOwnBucket(hash, s, a);
      StepKeepsOwnLocks(hash, s, a);
    } else {
      StepFramesOthers(hash, s, a, t);
      StepFramesBuckets(hash, s, a, t);
    }
  }

  /** Every step of every thread keeps the invariant. */
  lemma StepKeepsInv(hash: Event -> Bucket, s: State, a: Action)
    requires Inv(hash, s) && Next(hash, s, a).Some?
    ensures Inv(hash, Next(hash, s, a).value)
  {
    forall t
      ensures ThreadInv(hash, Next(hash, s, a).value, t)
    {
      assert ThreadInv(hash, s, t) && ThreadInv(hash, s, a.t);
      StepKeepsThreadInv(hash, s, a, t);
    }
  }

  // ----- Whole runs

  ghost predicate IsRun(hash: Event -> Bucket, states: seq<State>, actions: seq<Action>) {
    && |states| == |actions| + 1
    && states[0] == INIT
    && forall i :: 0 <= i < |actions| ==> Next(hash, states[i], actions[i]) == Some(states[i + 1])
  }

  lemma {:induction false} RunInv(hash: Event -> Bucket, states: seq<State>, actions: seq<Action>, i: nat)
    requires IsRun(hash, states, actions) && i < |states|
    ensures Inv(hash, states[i])
  {
    hide Next, Inv;
    if i > 0 {
      RunInv(hash, states, actions, i - 1);
      assert Next(hash, states[i - 1], actions[i - 1]) == Some(states[i]);
      StepKeepsInv(hash, states[i - 1], actions[i - 1]);
    } else {
      InitInv(hash);
    }
  }

  /** In every reachable state the bucket lock is held where the turnstile is
      completed, and a thread outside the functions, or blocked in one, holds no
      bucket lock; a sleeper that blocks does not hold the primitive lock. */
  lemma BucketDiscipline(hash: Event -> Bucket, states: seq<State>, actions: seq<Action>, i: nat, t: Thread)
    requires IsRun(hash, states, actions) && i < |states|
    ensures var s := states[i]; var pc := s.Pc(t);
      && (pc.SleepComplete? ==> s.HoldsBucket(t, hash(pc.c.event)))
      && (pc.WakeComplete? ==> s.HoldsBucket(t, hash(pc.w.event)))
      && (pc.Outside? || pc.SleepBlock? ==> forall b: Bucket :: !s.HoldsBucket(t, b))
      && (pc.SleepBlock? ==> !s.HoldsPrimitive(t, pc.c.lock))
  {
    RunInv(hash, states, actions, i);
    assert ThreadInv(hash, states[i], t);
  }

  /** A sleep returns with the primitive lock held exactly if it was to relock. */
  lemma ReturnsAsAsked(hash: Event -> Bucket, states: seq<State>, actions: seq<Action>, i: nat, t: Thread, c: Sleep)
    requires IsRun(hash, states, actions) && i < |actions|
    requires Sleeping(states[i].Pc(t), c) && states[i + 1].Pc(t) == Outside
    ensures states[i + 1].HoldsPrimitive(t, c.lock) <==> c.relock
  {
    hide Next, Inv;
    RunInv(hash, states, actions, i);
    assert Next(hash, states[i], actions[i]) == Some(states[i + 1]);
    LeavesAsAsked(hash, states[i], actions[i], t, c);
  }

  lemma LeavesAsAsked(hash: Event -> Bucket, s: State, a: Action, t: Thread, c: Sleep)
    requires Inv(hash, s) && Next(hash, s, a).Some?
    requires Sleeping(s.Pc(t), c) && Next(hash, s, a).value.Pc(t) == Outside
    ensures Next(hash, s, a).value.HoldsPrimitive(t, c.lock) <==> c.relock
  {
    assert ThreadInv(hash, s, t) && ThreadInv(hash, s, a.t);
    if a.t != t {
      StepFramesOthers(hash, s, a, t);
    }
  }

  /** Inside the functions a thread can be held up only by a bucket lock, by the
      primitive lock it must take back, or by its own wait; and the holder of a
      bucket lock is never held up, so bucket locks cannot deadlock. */
  lemma HeldUpOnlyBy(hash: Event -> Bucket, s: State, t: Thread)
    requires Inv(hash, s) && s.Pc(t) != Outside
    ensures (forall waits, chosen :: Next(hash, s, Continue(t, waits, chosen)) == None) <==>
            match s.Pc(t) {
              case SleepLockBucket(c) => hash(c.event) in s.bucket
              case SleepRelockBucket(c) => hash(c.event) in s.bucket
              case WakeLockBucket(w) => hash(w.event) in s.bucket
              case WakeRelockBucket(w, _) => hash(w.event) in s.bucket
              case SleepBlock(_, _) => t in s.queue
              case SleepRelockPrimitive(c) => c.relock && c.lock in s.primitive
              case _ => false
            }
    ensures (exists b: Bucket :: s.HoldsBucket(t, b)) ==>
            exists waits, chosen :: Next(hash, s, Continue(t, waits, chosen)).Some?
  {
    assert ThreadInv(hash, s, t);
    var chosen: Thread := 0;
    if s.Pc(t).WakeWaiters? && s.Waiters(s.Pc(t).w.event) != {} {
      chosen := Member(s.Waiters(s.Pc(t).w.event));
    }
    var next := Next(hash, s, Continue(t, true, chosen));
    var held := HeldBucket(hash, s.Pc(t));
    assert held.Some? ==> s.HoldsBucket(t, held.value);
  }

  // ----- No wakeup is lost

  /** From state `lo` to state `hi` the thread is in the one call `c`. */
  ghost predicate InCall(states: seq<State>, t: Thread, c: Sleep, lo: nat, hi: nat) {
    hi < |states| && forall m :: lo <= m <= hi ==> Sleeping(states[m].Pc(t), c)
  }

  lemma ProgressOneByOne(hash: Event -> Bucket, s: State, a: Action, t: Thread, c: Sleep)
    requires Inv(hash, s) && Next(hash, s, a).Some?
    requires Sleeping(s.Pc(t), c) && Sleeping(Next(hash, s, a).value.Pc(t), c)
    ensures var p, p' := Progress(s.Pc(t)), Progress(Next(hash, s, a).value.Pc(t));
      p' == p || (p' == p + 1 && a.Continue? && a.t == t)
  {
    assert ThreadInv(hash, s, a.t);
    if a.t != t {
      StepFramesOthers(hash, s, a, t);
    }
  }

  /** The step at which a call passes the point `p`. */
  lemma {:induction false} PassesPoint(hash: Event -> Bucket, states: seq<State>, actions: seq<Action>,
      t: Thread, c: Sleep, lo: nat, hi: nat, p: nat)
    returns (m: nat)
    requires IsRun(hash, states, actions) && lo <= hi && InCall(states, t, c, lo, hi)
    requires Progress(states[lo].Pc(t)) <= p < Progress(states[hi].Pc(t))
    ensures lo <= m < hi && actions[m].Continue? && actions[m].t == t
    ensures Progress(states[m].Pc(t)) == p && Progress(states[m + 1].Pc(t)) == p + 1
    decreases hi
  {
    hide Next;
    RunInv(hash, states, actions, hi - 1);
    ProgressOneByOne(hash, states[hi - 1], actions[hi - 1], t, c);
    if Progress(states[hi - 1].Pc(t)) == p {
      m := hi - 1;
    } else {
      m := PassesPoint(hash, states, actions, t, c, lo, hi - 1, p);
    }
  }

  lemma {:induction false} ProgressGrows(hash: Event -> Bucket, states: seq<State>, actions: seq<Action>,
      t: Thread, c: Sleep, lo: nat, hi: nat)
    requires IsRun(hash, states, actions) && lo <= hi && InCall(states, t, c, lo, hi)
    ensures Progress(states[lo].Pc(t)) <= Progress(states[hi].Pc(t))
    decreases hi
  {
    hide Next;
    if lo < hi {
      ProgressGrows(hash, states, actions, t, c, lo, hi - 1);
      RunInv(hash, states, actions, hi - 1);
      assert Next(hash, states[hi - 1], actions[hi - 1]) == Some(states[hi]);
      ProgressOneByOne(hash, states[hi - 1], actions[hi - 1], t, c);
    }
  }

  /** Once past the assert-wait and off the queue, a call never waits again. */
  lemma {:induction false} StaysAwake(hash: Event -> Bucket, states: seq<State>, actions: seq<Action>,
      t: Thread, c: Sleep, lo: nat, hi: nat)
    requires IsRun(hash, states, actions) && lo <= hi && InCall(states, t, c, lo, hi)
    requires 4 <= Progress(states[lo].Pc(t)) && t !in states[lo].queue
    ensures t !in states[hi].queue
    decreases hi
  {
    if lo < hi {
      StaysAwake(hash, states, actions, t, c, lo, hi - 1);
      ProgressGrows(hash, states, actions, t, c, lo, hi - 1);
      RunInv(hash, states, actions, hi - 1);
      assert ThreadInv(hash, states[hi - 1], actions[hi - 1].t);
      assert Next(hash, states[hi - 1], actions[hi - 1]) == Some(states[hi]);
      if actions[hi - 1].t != t {
        StepFramesOthers(hash, states[hi - 1], actions[hi - 1], t);
      }
    }
  }

  /** Step `n` ends the wait of `t`: a deadline or an abort, or a wakeup that
      counts `t` among those it has woken. */
  ghost predicate EndsWait(states: seq<State>, actions: seq<Action>, n: nat, t: Thread)
    requires n < |actions| && |states| == |actions| + 1
  {
    actions[n] == EndWait(t) || WakesAt(states, actions, n, t)
  }

  ghost predicate WakesAt(states: seq<State>, actions: seq<Action>, n: nat, t: Thread)
    requires n < |actions| && |states| == |actions| + 1
  {
    actions[n].Continue? && states[n].Pc(actions[n].t).WakeWaiters?
    && Woken(states[n + 1].Pc(actions[n].t), t)
  }

  ghost predicate Woken(pc: Pc, t: Thread) {
    (pc.WakeUnlockBucket? || pc.WakeComplete?) && t in pc.woken
  }

  /** What a step does to a waiting thread: it goes on waiting for its event, or
      is off the queue because the step ended its wait. */
  lemma StepOnQueue(hash: Event -> Bucket, s: State, a: Action, t: Thread)
    requires Inv(hash, s) && Next(hash, s, a).Some? && t in s.queue
    ensures var s' := Next(hash, s, a).value;
      if t in s'.queue then s'.queue[t] == s.queue[t]
      else a == EndWait(t) || (a.Continue? && s.Pc(a.t).WakeWaiters? && Woken(s'.Pc(a.t), t))
  {
    assert ThreadInv(hash, s, t) && ThreadInv(hash, s, a.t);
  }

  /** Only a step that ends its wait takes a thread off the queue. */
  lemma {:induction false} StaysQueued(hash: Event -> Bucket, states: seq<State>, actions: seq<Action>,
      t: Thread, lo: nat, hi: nat)
    requires IsRun(hash, states, actions) && lo <= hi < |states| && t in states[lo].queue
    requires forall n :: lo <= n < hi ==> !EndsWait(states, actions, n, t)
    ensures t in states[hi].queue && states[hi].queue[t] == states[lo].queue[t]
    decreases hi
  {
    hide Next;
    if lo < hi {
      StaysQueued(hash, states, actions, t, lo, hi - 1);
      RunInv(hash, states, actions, hi - 1);
      assert Next(hash, states[hi - 1], actions[hi - 1]) == Some(states[hi]);
      StepOnQueue(hash, states[hi - 1], actions[hi - 1], t);
      assert !EndsWait(states, actions, hi - 1, t);
    }
  }

  lemma AssertsWait(hash: Event -> Bucket, s: State, a: Action, t: Thread, c: Sleep)
    requires Next(hash, s, a).Some? && a.Continue? && a.t == t && s.Pc(t) == SleepAssertWait(c)
    ensures a.waits ==> t in Next(hash, s, a).value.queue && Next(hash, s, a).value.queue[t] == c.event
  {
  }

  // ----- What a wakeup wakes

  /** The threads that the wakeup at step `k` has woken. */
  ghost function WokenBy(states: seq<State>, k: nat, w: Thread): set<Thread>
    requires k + 1 < |states|
  {
    var pc := states[k + 1].Pc(w);
    if pc.WakeUnlockBucket? || pc.WakeComplete? then pc.woken else {}
  }

  /** A wakeup of one that finds a waiter of its event takes exactly one of those
      off the queue, and that is the thread it counts as woken; if it finds none
      the queue is as it was. */
  lemma WakesOne(hash: Event -> Bucket, s: State, a: Action, w: Thread, e: Event, push: bool)
    returns (u: Option<Thread>)
    requires Next(hash, s, a).Some? && a.Continue? && a.t == w && s.Pc(w) == WakeWaiters(WakeOne(e, push))
    ensures u.None? <==> forall t :: t in s.queue ==> s.queue[t] != e
    ensures u.Some? ==> u.value in s.queue && s.queue[u.value] == e
    ensures var s' := Next(hash, s, a).value;
      && (forall t :: t in s'.queue <==> t in s.queue && u != Some(t))
      && (forall t :: t in s'.queue ==> s'.queue[t] == s.queue[t])
      && (forall t :: t != w ==> s'.Pc(t) == s.Pc(t))
      && s'.bucket == s.bucket && s'.primitive == s.primitive
      && var woken := if u.Some? then {u.value} else {};
      s'.Pc(w) == if u.Some? && !push then WakeComplete(WakeOne(e, push), woken)
                  else WakeUnlockBucket(WakeOne(e, push), woken)
  {
    var waiters := s.Waiters(e);
    if waiters == {} {
      u := None;
      assert forall t :: t in s.queue && s.queue[t] == e ==> t in waiters;
    } else {
      u := Some(a.chosen);
      assert a.chosen in waiters;
    }
  }

  /** A thread that waits alone for an event is woken by any wakeup of it. */
  lemma WakesTheOnlyWaiter(hash: Event -> Bucket, s: State, a: Action, w: Thread, t: Thread)
    requires Next(hash, s, a).Some? && a.Continue? && a.t == w && s.Pc(w).WakeWaiters?
    requires s.Waiters(s.Pc(w).w.event) == {t}
    ensures var s' := Next(hash, s, a).value;
      t !in s'.queue && (s'.Pc(w).WakeUnlockBucket? || s'.Pc(w).WakeComplete?) && s'.Pc(w).woken == {t}
  {
    var e := s.Pc(w).w.event;
    assert t in s.Waiters(e);
    if s.Pc(w).w.WakeAll? {
      WakesAll(hash, s, a, w, e);
    } else {
      var u := WakesOne(hash, s, a, w, e, s.Pc(w).w.transferPush);
      assert u.Some? && u.value in s.Waiters(e);
    }
  }

  /** A wakeup of all wakes exactly the waiters of its event. */
  lemma WakesAll(hash: Event -> Bucket, s: State, a: Action, w: Thread, e: Event)
    requires Next(hash, s, a).Some? && a.Continue? && a.t == w && s.Pc(w) == WakeWaiters(WakeAll(e))
    ensures var s' := Next(hash, s, a).value;
      s'.Pc(w) == WakeUnlockBucket(WakeAll(e), s.Waiters(e)) && s'.queue == s.queue - s.Waiters(e)
      && forall t :: t != w ==> s'.Pc(t) == s.Pc(t)
  {
  }

  // ----- The course of a wakeup

  /** How far a wakeup has come. */
  function Stage(pc: Pc): nat {
    match pc
    case WakeLockBucket(_) => 1
    case WakeWaiters(_) => 2
    case WakeUnlockBucket(_, _) => 3
    case WakeRelockBucket(_, _) => 4
    case WakeComplete(_, _) => 5
    case WakeReunlockBucket(_, _) => 6
    case _ => 0
  }

  /** A wakeup that has woken one thread and does not hand on the push goes
      straight on to its completion; every other drops the bucket lock first. */
  ghost predicate KeepsBucketLock(pc: Pc) {
    pc.WakeWaiters? && pc.w.WakeOne? && !pc.w.transferPush
  }

  lemma WakeMoves(hash: Event -> Bucket, s: State, w: Thread, chosen: Thread)
    requires Stage(s.Pc(w)) > 0 && WakeStep(hash, s, w, chosen).Some?
    ensures var pc, pc' := s.Pc(w), WakeStep(hash, s, w, chosen).value.Pc(w);
      if pc.WakeWaiters? then
        pc'.w == pc.w && (pc'.WakeUnlockBucket? || pc'.WakeComplete?)
        && (pc'.WakeComplete? <==> KeepsBucketLock(pc) && s.Waiters(pc.w.event) != {})
      else if pc.WakeReunlockBucket? then pc' == Outside
      else Stage(pc') == Stage(pc) + 1 && pc'.w == pc.w && (Stage(pc) > 2 ==> pc'.woken == pc.woken)
  {
  }

  lemma OthersLeaveWaker(hash: Event -> Bucket, s: State, a: Action, w: Thread)
    requires Next(hash, s, a).Some? && Stage(s.Pc(w)) > 0 && !(a.Continue? && a.t == w)
    ensures Next(hash, s, a).value.Pc(w) == s.Pc(w)
  {
    hide SleepStep, WakeStep;
    if a.Continue? {
      if Progress(s.Pc(a.t)) > 0 {
        SleepMovesOwnPc(hash, s, a.t, a.waits, w);
      } else {
        WakeStepFrames(hash, s, a.t, a.chosen, w);
      }
    }
  }

  lemma SleepMovesOwnPc(hash: Event -> Bucket, s: State, u: Thread, waits: bool, t: Thread)
    requires t != u && Progress(s.Pc(u)) > 0 && SleepStep(hash, s, u, waits).Some?
    ensures SleepStep(hash, s, u, waits).value.Pc(t) == s.Pc(t)
  {
  }

  /** A wakeup goes through its stages in order, and returns only from the last;
      whom it has woken stays counted. */
  lemma StageByStage(hash: Event -> Bucket, s: State, a: Action, w: Thread)
    requires Next(hash, s, a).Some? && Stage(s.Pc(w)) > 0
    ensures var pc, pc' := s.Pc(w), Next(hash, s, a).value.Pc(w);
      if !(a.Continue? && a.t == w) then pc' == pc
      else if pc.WakeWaiters? then
        pc'.w == pc.w && (pc'.WakeUnlockBucket? || pc'.WakeComplete?)
        && (pc'.WakeComplete? <==> KeepsBucketLock(pc) && s.Waiters(pc.w.event) != {})
      else if pc.WakeReunlockBucket? then pc' == Outside
      else Stage(pc') == Stage(pc) + 1 && pc'.w == pc.w && (Stage(pc) > 2 ==> pc'.woken == pc.woken)
  {
    hide SleepStep, WakeStep;
    if a.Continue? && a.t == w {
      WakeMoves(hash, s, w, a.chosen);
    } else {
      OthersLeaveWaker(hash, s, a, w);
    }
  }

  /** From its wakeup of the waiters on, the bucket lock is held by the waker up
      to the completion exactly if it wakes one thread and keeps the push. */
  lemma WhenBucketIsDropped(hash: Event -> Bucket, states: seq<State>, actions: seq<Action>, k: nat, w: Thread)
    requires IsRun(hash, states, actions) && k < |actions|
    requires actions[k].Continue? && actions[k].t == w && states[k].Pc(w).WakeWaiters?
    ensures var e, b := states[k].Pc(w).w.event, hash(states[k].Pc(w).w.event);
      && states[k].HoldsBucket(w, b) && states[k + 1].HoldsBucket(w, b)
      && (states[k + 1].Pc(w).WakeComplete? <==> KeepsBucketLock(states[k].Pc(w)) && states[k].Waiters(e) != {})
      && (!states[k + 1].Pc(w).WakeComplete? ==> states[k + 1].Pc(w).WakeUnlockBucket?)
  {
    hide Next, Inv;
    RunInv(hash, states, actions, k);
    RunInv(hash, states, actions, k + 1);
    assert Next(hash, states[k], actions[k]) == Some(states[k + 1]);
    StageByStage(hash, states[k], actions[k], w);
    HoldsItsBucket(hash, states[k], w);
    HoldsItsBucket(hash, states[k + 1], w);
  }

  lemma HoldsItsBucket(hash: Event -> Bucket, s: State, w: Thread)
    requires Inv(hash, s) && Stage(s.Pc(w)) > 0
    ensures s.HoldsBucket(w, hash(s.Pc(w).w.event)) <==> Stage(s.Pc(w)) in {2, 3, 5, 6}
  {
    assert ThreadInv(hash, s, w);
  }

  /** The step after `WakeUnlockBucket` gives the bucket lock up, the one after
      `WakeRelockBucket` takes it again, as does the step of a sleeper. */
  lemma BucketStep(hash: Event -> Bucket, s: State, a: Action, w: Thread)
    requires Inv(hash, s) && Next(hash, s, a).Some? && a.Continue? && a.t == w
    ensures var b, s' := HeldBucket(hash, s.Pc(w)), Next(hash, s, a).value;
      && (s.Pc(w).WakeUnlockBucket? || s.Pc(w).WakeReunlockBucket? ==> b.Some? && b.value !in s'.bucket)
      && (s.Pc(w).SleepUnlockBucket? || s.Pc(w).SleepReunlockBucket? ==> b.Some? && b.value !in s'.bucket)
  {
  }

  /** A call that returns has completed its turnstile with the bucket lock held. */
  lemma {:induction false} WakeCompletes(hash: Event -> Bucket, states: seq<State>, actions: seq<Action>, w: Thread,
      i: nat, k: nat)
    returns (m: nat)
    requires IsRun(hash, states, actions) && i < k < |states|
    requires 1 <= Stage(states[i].Pc(w)) <= 5 && Stage(states[k].Pc(w)) == 6
    requires forall n :: i <= n <= k ==> Stage(states[n].Pc(w)) > 0
    ensures i <= m < k && states[m].Pc(w).WakeComplete? && states[m + 1].Pc(w).WakeReunlockBucket?
    ensures states[m].HoldsBucket(w, hash(states[m].Pc(w).w.event))
    decreases k
  {
    hide Next, Inv;
    RunInv(hash, states, actions, k - 1);
    assert Next(hash, states[k - 1], actions[k - 1]) == Some(states[k]);
    StageByStage(hash, states[k - 1], actions[k - 1], w);
    if Stage(states[k - 1].Pc(w)) == 6 {
      m := WakeCompletes(hash, states, actions, w, i, k - 1);
    } else {
      m := k - 1;
      HoldsItsBucket(hash, states[m], w);
    }
  }

  /** A sleep returns only from its last step. */
  lemma SleepReturnsFrom(hash: Event -> Bucket, s: State, a: Action, t: Thread)
    requires Inv(hash, s) && Next(hash, s, a).Some?
    requires Progress(s.Pc(t)) > 0 && Progress(Next(hash, s, a).value.Pc(t)) == 0
    ensures s.Pc(t).SleepRelockPrimitive? && Next(hash, s, a).value.Pc(t) == Outside
  {
    assert ThreadInv(hash, s, a.t);
    if a.t != t {
      StepFramesOthers(hash, s, a, t);
    }
  }

  /** From its assert-wait at `m` a call is on the queue up to the first step
      that ends its wait. */
  lemma WaitBetween(hash: Event -> Bucket, states: seq<State>, actions: seq<Action>, t: Thread, c: Sleep,
      m: nat, k: nat)
    requires IsRun(hash, states, actions) && m < k < |states| && InCall(states, t, c, m, k)
    requires actions[m].Continue? && actions[m].t == t && states[m].Pc(t) == SleepAssertWait(c)
    ensures actions[m].waits ==> t in states[m + 1].queue && states[m + 1].queue[t] == c.event
    ensures actions[m].waits ==>
      (t in states[k].queue <==> forall n :: m < n < k ==> !EndsWait(states, actions, n, t))
  {
    hide Next;
    assert Next(hash, states[m], actions[m]) == Some(states[m + 1]);
    AssertsWait(hash, states[m], actions[m], t, c);
    if actions[m].waits {
      if n :| m < n < k && EndsWait(states, actions, n, t) {
        RunInv(hash, states, actions, n);
        assert Next(hash, states[n], actions[n]) == Some(states[n + 1]);
        EndedWait(hash, states, actions, n, t);
        RunInv(hash, states, actions, m);
        ProgressAfterAssert(hash, states[m], actions[m], t, c);
        ProgressGrows(hash, states, actions, t, c, m + 1, n + 1);
        StaysAwake(hash, states, actions, t, c, n + 1, k);
      } else {
        StaysQueued(hash, states, actions, t, m + 1, k);
      }
    }
  }

  lemma ProgressAfterAssert(hash: Event -> Bucket, s: State, a: Action, t: Thread, c: Sleep)
    requires Next(hash, s, a).Some? && a.Continue? && a.t == t && s.Pc(t) == SleepAssertWait(c)
    ensures Progress(Next(hash, s, a).value.Pc(t)) == 4
  {
  }

  lemma EndedWait(hash: Event -> Bucket, states: seq<State>, actions: seq<Action>, n: nat, t: Thread)
    requires n < |actions| && |states| == |actions| + 1 && Next(hash, states[n], actions[n]) == Some(states[n + 1])
    requires EndsWait(states, actions, n, t)
    ensures t !in states[n + 1].queue
  {
  }

  /** No lost wakeup. A sleeper enters the sleep at step `a` with the primitive
      lock held; another thread takes that lock at step `j` and, at step `k`,
      wakes waiters of the event, all or one. Then the sleeper dropped the lock
      at a step `d` before `j` and asserted its wait at a step `m` before `k`,
      which put it on the queue of the event unless it was interrupted, and it is
      on the queue still exactly unless a step in between ended its wait. If it
      is, a wakeup of all wakes it, and so does a wakeup of one where it waits
      alone. Once off the queue the call waits no more. */
  lemma NoLostWakeup(hash: Event -> Bucket, states: seq<State>, actions: seq<Action>, t: Thread, c: Sleep, w: Thread,
      a: nat, j: nat, k: nat)
    returns (d: nat, m: nat)
    requires IsRun(hash, states, actions) && a < j < k < |actions|
    requires actions[a] == CallSleep(t, c) && InCall(states, t, c, a + 1, k)
    requires actions[j] == LockPrimitive(w, c.lock)
    requires actions[k].Continue? && actions[k].t == w
    requires states[k].Pc(w).WakeWaiters? && states[k].Pc(w).w.event == c.event
    ensures a < d < j && actions[d].Continue? && actions[d].t == t && states[d].Pc(t) == SleepUnlockPrimitive(c)
    ensures d < m < k && actions[m].Continue? && actions[m].t == t && states[m].Pc(t) == SleepAssertWait(c)
    ensures actions[m].waits ==> t in states[m + 1].queue && states[m + 1].queue[t] == c.event
    ensures actions[m].waits ==>
      (t in states[k].queue <==> forall n :: m < n < k ==> !EndsWait(states, actions, n, t))
    ensures t in states[k + 1].queue <==> t in states[k].queue && t !in WokenBy(states, k, w)
    ensures t in states[k].queue && (states[k].Pc(w).w.WakeAll? || states[k].Waiters(c.event) == {t}) ==>
      t in WokenBy(states, k, w)
    ensures t !in states[k + 1].queue ==>
      forall n :: k < n < |states| && InCall(states, t, c, a + 1, n) ==> t !in states[n].queue
  {
    hide Next, Inv;
    RunInv(hash, states, actions, j);
    RunInv(hash, states, actions, k);
    assert Next(hash, states[a], actions[a]) == Some(states[a + 1]);
    EntersSleep(hash, states[a], t, c);
    assert Next(hash, states[j], actions[j]) == Some(states[j + 1]);
    assert Sleeping(states[j].Pc(t), c) && Sleeping(states[k].Pc(t), c);
    LockWasDropped(hash, states[j], t, c, w);
    d := PassesPoint(hash, states, actions, t, c, a + 1, j, 2);
    ProgressGrows(hash, states, actions, t, c, j, k);
    HasLeftBucket(hash, states[k], t, c, w);
    ProgressGrows(hash, states, actions, t, c, d + 1, k);
    m := PassesPoint(hash, states, actions, t, c, d + 1, k, 3);
    WaitBetween(hash, states, actions, t, c, m, k);
    assert Next(hash, states[k], actions[k]) == Some(states[k + 1]);
    WakeMeets(hash, states[k], actions[k], t, c, w);
    if t !in states[k + 1].queue {
      forall n | k < n < |states| && InCall(states, t, c, a + 1, n)
        ensures t !in states[n].queue
      {
        StaysAwake(hash, states, actions, t, c, k + 1, n);
      }
    }
  }

  /** A wakeup of the event that a call sleeps on, seen from the sleeper. */
  lemma WakeMeets(hash: Event -> Bucket, s: State, a: Action, t: Thread, c: Sleep, w: Thread)
    requires Inv(hash, s) && Next(hash, s, a).Some? && a.Continue? && a.t == w && t != w
    requires Sleeping(s.Pc(t), c) && s.Pc(w).WakeWaiters? && s.Pc(w).w.event == c.event
    ensures var s' := Next(hash, s, a).value; var pc := s'.Pc(w);
      && s'.Pc(t) == s.Pc(t) && (pc.WakeUnlockBucket? || pc.WakeComplete?)
      && (t in s'.queue <==> t in s.queue && t !in pc.woken)
      && (t in s.queue && (s.Pc(w).w.WakeAll? || s.Waiters(c.event) == {t}) ==> t in pc.woken)
  {
    hide Inv;
    WaitsForItsEvent(hash, s, t, c);
    if s.Pc(w).w.WakeAll? {
      WakesAll(hash, s, a, w, c.event);
    } else {
      var u := WakesOne(hash, s, a, w, c.event, s.Pc(w).w.transferPush);
      if t in s.queue && s.Waiters(c.event) == {t} {
        WakesTheOnlyWaiter(hash, s, a, w, t);
      }
    }
  }

  lemma EntersSleep(hash: Event -> Bucket, s: State, t: Thread, c: Sleep)
    requires Next(hash, s, CallSleep(t, c)).Some?
    ensures Next(hash, s, CallSleep(t, c)).value.Pc(t) == SleepLockBucket(c)
  {
  }

  /** Where another thread can take the primitive lock, a sleeper in the call has
      dropped it. */
  lemma LockWasDropped(hash: Event -> Bucket, s: State, t: Thread, c: Sleep, w: Thread)
    requires Inv(hash, s) && Sleeping(s.Pc(t), c) && Next(hash, s, LockPrimitive(w, c.lock)).Some?
    ensures t != w && Progress(s.Pc(t)) >= 3
  {
    assert ThreadInv(hash, s, t);
  }

  /** The waker at its wakeup holds the bucket lock, so a sleeper on the event
      that has dropped the primitive lock is past asserting its wait. */
  lemma HasLeftBucket(hash: Event -> Bucket, s: State, t: Thread, c: Sleep, w: Thread)
    requires Inv(hash, s) && Sleeping(s.Pc(t), c) && Progress(s.Pc(t)) >= 3
    requires s.Pc(w).WakeWaiters? && s.Pc(w).w.event == c.event
    ensures t != w && Progress(s.Pc(t)) >= 5
  {
    assert ThreadInv(hash, s, t) && ThreadInv(hash, s, w);
    assert s.HoldsBucket(w, hash(c.event));
  }

  lemma WaitsForItsEvent(hash: Event -> Bucket, s: State, t: Thread, c: Sleep)
    requires Inv(hash, s) && Sleeping(s.Pc(t), c)
    ensures t in s.queue ==> s.queue[t] == c.event && t in s.Waiters(c.event)
  {
    assert ThreadInv(hash, s, t);
  }
}
