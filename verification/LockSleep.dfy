/** Sleeping on an event with a lock held: the lock is given up for the sleep and
    taken again as the action says, whatever the other threads do meanwhile. */
module LockSleep {
  import opened Wrappers

  type Thread = nat

  datatype Mode = Unheld | Shared | Exclusive

  /** A read-write lock; a mutex or spin lock is one that is never shared. */
  datatype Lock = Lock(readers: set<Thread>, writer: Option<Thread>)

  predicate Exclusion(l: Lock) {
    l.writer.Some? ==> l.readers == {}
  }

  function ModeOf(l: Lock, t: Thread): Mode {
    if l.writer == Some(t) then Exclusive else if t in l.readers then Shared else Unheld
  }

  predicate FreeFor(l: Lock, mode: Mode) {
    l.writer.None? && (mode.Exclusive? ==> l.readers == {})
  }

  const UNLOCK: bv32 := 0x01
  const SHARED: bv32 := 0x02
  const EXCLUSIVE: bv32 := 0x04
  const SPIN: bv32 := 0x08
  const PROMOTED_PRI: bv32 := 0x10
  const SPIN_ALWAYS: bv32 := 0x20
  const OUTSIDE_MASK: bv32 := 0xffff_ffc0

  const THREAD_WAITING := -1
  const RW_TYPE_SHARED := 1
  const RW_TYPE_EXCLUSIVE := 2

  predicate Has(action: bv32, bit: bv32) {
    action & bit != 0
  }

  /** `Contending` is a call that has not got the lock back. */
  datatype Outcome = Panicked | Aborted | Contending | Returned(result: int)

  /** The mode a call returns in, as the flags document it. */
  function ModeAfter(action: bv32, slept: bool, before: Mode): Mode {
    if Has(action, UNLOCK) then Unheld
    else if slept && Has(action, EXCLUSIVE) then Exclusive
    else if slept && Has(action, SHARED) then Shared
    else before
  }

  /** How a thread went to sleep: how it held the lock, and its priority floor. */
  datatype Nap = Nap(held: Mode, floor: int)

  /** The sleeps of a call, one or none, and never with the lock held. */
  function Sleeps(action: bv32, wait: int, floor: int): seq<Nap> {
    if wait != THREAD_WAITING then [] else [Nap(Unheld, floor + if Has(action, PROMOTED_PRI) then 1 else 0)]
  }

  // ----- What other threads can do to a lock

  function Take(l: Lock, t: Thread, mode: Mode): Lock {
    if mode.Exclusive? then Lock({}, Some(t)) else Lock(l.readers + {t}, None)
  }

  function Drop(l: Lock, t: Thread): Lock {
    if l.readers == {} then Lock({}, None) else Lock(l.readers - {t}, None)
  }

  /** A thread takes a lock that is free for it, or drops one it holds. */
  predicate LockStep(l: Lock, t: Thread, l': Lock) {
    || (ModeOf(l, t).Unheld?
        && exists mode :: mode in {Shared, Exclusive} && FreeFor(l, mode) && l' == Take(l, t, mode))
    || (!ModeOf(l, t).Unheld? && l' == Drop(l, t))
  }

  predicate OthersRun(run: seq<Lock>, actors: seq<Thread>, me: Thread) {
    |run| == |actors| + 1
    && forall i :: 0 <= i < |actors| ==> actors[i] != me && LockStep(run[i], actors[i], run[i + 1])
  }

  lemma StepKeepsOthers(l: Lock, t: Thread, l': Lock, me: Thread)
    requires Exclusion(l) && LockStep(l, t, l') && t != me
    ensures Exclusion(l') && ModeOf(l', me) == ModeOf(l, me)
  {}

  /** However long the other threads run, exclusion stands and the hold of the
      thread that waits is what it was. */
  lemma {:induction false} OthersKeepMine(run: seq<Lock>, actors: seq<Thread>, me: Thread, n: nat)
    requires OthersRun(run, actors, me) && Exclusion(run[0]) && n <= |actors|
    ensures Exclusion(run[n]) && ModeOf(run[n], me) == ModeOf(run[0], me)
  {
    if n > 0 {
      OthersKeepMine(run, actors, me, n - 1);
      StepKeepsOthers(run[n - 1], actors[n - 1], run[n], me);
    }
  }

  /** The lock as one thread sees it. What the others have made of the lock by
      the n-th time they run is `others(n)`, taken over unless it would change
      this thread's own hold or break exclusion, which their calls never do. */
  class LockUser {
    const me: Thread
    const others: nat -> Lock
    var lock: Lock
    var switches: nat
    var floor: int
    var slept: seq<Nap>

    ghost predicate Valid()
      reads this
    {
      Exclusion(lock)
    }

    predicate CanBecome(l: Lock, next: Lock) {
      Exclusion(next) && ModeOf(next, me) == ModeOf(l, me)
    }

    function Mine(): Mode
      reads this
    {
      ModeOf(lock, me)
    }

    constructor (me: Thread, others: nat -> Lock, lock: Lock)
      requires Exclusion(lock)
      ensures Valid() && this.me == me && this.others == others && this.lock == lock
      ensures floor == 0 && slept == []
    {
      this.me, this.others, this.lock := me, others, lock;
      switches, floor, slept := 0, 0, [];
    }

    /** Lets the other threads run. */
    method Yield()
      requires Valid()
      modifies this`lock, this`switches
      ensures Valid() && Mine() == old(Mine()) && switches == old(switches) + 1
      ensures lock == if CanBecome(old(lock), others(old(switches))) then others(old(switches)) else old(lock)
    {
      var next := others(switches);
      if CanBecome(lock, next) {
        lock := next;
      }
      switches := switches + 1;
    }

    /** Sleeps until woken. */
    method Block(result: int) returns (r: int)
      requires Valid()
      modifies this`lock, this`switches, this`slept
      ensures Valid() && Mine() == old(Mine()) && r == result
      ensures slept == old(slept) + [Nap(old(Mine()), floor)]
    {
      slept := slept + [Nap(Mine(), floor)];
      Yield();
      return result;
    }

    /** Waits for the lock; false for a wait that has not ended. */
    method Acquire(mode: Mode) returns (got: bool)
      requires Valid() && Mine().Unheld? && !mode.Unheld?
      modifies this`lock, this`switches
      ensures Valid() && Mine() == if got then mode else Unheld
      ensures old(FreeFor(lock, mode)) ==> got && lock == Take(old(lock), me, mode) && switches == old(switches)
      ensures !old(FreeFor(lock, mode)) ==> switches == old(switches) + 1
      ensures !got ==> !FreeFor(lock, mode)
    {
      if !FreeFor(lock, mode) {
        Yield();
        if !FreeFor(lock, mode) {
          return false;
        }
      }
      lock := Take(lock, me, mode);
      return true;
    }

    method Release()
      requires Valid() && !Mine().Unheld?
      modifies this`lock
      ensures Valid() && Mine().Unheld?
      ensures forall t :: t != me ==> ModeOf(lock, t) == old(ModeOf(lock, t))
    {
      lock := Drop(lock, me);
    }

    // ----- Read-write locks

    /** Which mode the lock was in is read off the lock, not off the thread. */
    method RwDone() returns (kind: int)
      requires Valid() && !Mine().Unheld?
      modifies this`lock, this`switches
      ensures Valid() && Mine().Unheld?
      ensures kind == if old(Mine()).Shared? then RW_TYPE_SHARED else RW_TYPE_EXCLUSIVE
      ensures switches == old(switches) + 1
    {
      kind := if lock.readers != {} then RW_TYPE_SHARED else RW_TYPE_EXCLUSIVE;
      Release();
      Yield();
    }

    method RwLockShared() returns (got: bool)
      requires Valid() && Mine().Unheld?
      modifies this`lock, this`switches
      ensures Valid() && Mine() == if got then Shared else Unheld
      ensures (!got ==> !FreeFor(lock, Shared)) && switches > old(switches)
    {
      Yield();
      got := Acquire(Shared);
    }

    method RwLockExclusive() returns (got: bool)
      requires Valid() && Mine().Unheld?
      modifies this`lock, this`switches
      ensures Valid() && Mine() == if got then Exclusive else Unheld
      ensures (!got ==> !FreeFor(lock, Exclusive)) && switches > old(switches)
    {
      Yield();
      got := Acquire(Exclusive);
    }

    /** None for the abort on a type that is neither. */
    method RwLock(kind: int) returns (got: Option<bool>)
      requires Valid() && Mine().Unheld?
      modifies this`lock, this`switches
      ensures Valid()
      ensures got.None? <==> kind != RW_TYPE_SHARED && kind != RW_TYPE_EXCLUSIVE
      ensures Mine() == if got != Some(true) then Unheld else if kind == RW_TYPE_SHARED then Shared else Exclusive
      ensures got == Some(false) ==> !FreeFor(lock, if kind == RW_TYPE_SHARED then Shared else Exclusive)
      ensures got.Some? ==> switches > old(switches)
    {
      if kind == RW_TYPE_SHARED {
        var b := RwLockShared();
        got := Some(b);
      } else if kind == RW_TYPE_EXCLUSIVE {
        var b := RwLockExclusive();
        got := Some(b);
      } else {
        got := None;
      }
    }

    /** lck_rw_sleep; `wait` and `woken` are what assert_wait and thread_block
        return. */
    method RwSleep(action: bv32, wait: int, woken: int) returns (r: Outcome)
      requires Valid() && !Mine().Unheld?
      modifies this
      ensures Valid() && !r.Aborted?
      ensures r.Panicked? <==> Has(action, OUTSIDE_MASK)
      ensures r.Panicked? ==> lock == old(lock) && slept == old(slept)
      ensures r.Contending? ==> wait == THREAD_WAITING && !Has(action, UNLOCK) && Mine().Unheld?
      ensures r.Contending? ==> !FreeFor(lock, ModeAfter(action, true, old(Mine())))
      ensures r.Returned? ==> r.result == if wait == THREAD_WAITING then woken else wait
      ensures r.Returned? ==> Mine() == ModeAfter(action, wait == THREAD_WAITING, old(Mine())) && floor == old(floor)
      ensures !r.Panicked? ==> slept == old(slept) + Sleeps(action, wait, old(floor))
    {
      if action & OUTSIDE_MASK != 0 {
        return Panicked;
      }
      if Has(action, PROMOTED_PRI) {
        floor := floor + 1;
      }
      var res := wait;
      if res == THREAD_WAITING {
        var kind := RwDone();
        res := Block(woken);
        if !Has(action, UNLOCK) {
          var got: bool;
          if action & (SHARED | EXCLUSIVE) == 0 {
            BitsOf(action);
            var again := RwLock(kind);
            if again.None? {
              return Aborted;
            }
            got := again.value;
          } else if Has(action, EXCLUSIVE) {
            got := RwLockExclusive();
          } else {
            BitsOf(action);
            got := RwLockShared();
          }
          if !got {
            return Contending;
          }
        }
      } else if Has(action, UNLOCK) {
        var _ := RwDone();
      }
      if Has(action, PROMOTED_PRI) {
        floor := floor - 1;
      }
      return Returned(res);
    }

    // ----- Mutexes and spin locks

    method MtxUnlock()
      requires Valid() && Mine().Exclusive?
      modifies this`lock, this`switches
      ensures Valid() && Mine().Unheld? && switches == old(switches) + 1
    {
      Release();
      Yield();
    }

    method MtxLock() returns (got: bool)
      requires Valid() && Mine().Unheld?
      modifies this`lock, this`switches
      ensures Valid() && Mine() == if got then Exclusive else Unheld
      ensures (!got ==> !FreeFor(lock, Exclusive)) && switches > old(switches)
    {
      Yield();
      got := Acquire(Exclusive);
    }

    /** The spin forms take the mutex as the plain one does. */
    method MtxLockSpin() returns (got: bool)
      requires Valid() && Mine().Unheld?
      modifies this`lock, this`switches
      ensures Valid() && Mine() == if got then Exclusive else Unheld
      ensures (!got ==> !FreeFor(lock, Exclusive)) && switches > old(switches)
    {
      got := MtxLock();
    }

    method MtxLockSpinAlways() returns (got: bool)
      requires Valid() && Mine().Unheld?
      modifies this`lock, this`switches
      ensures Valid() && Mine() == if got then Exclusive else Unheld
      ensures (!got ==> !FreeFor(lock, Exclusive)) && switches > old(switches)
    {
      Yield();
      got := Acquire(Exclusive);
    }

    method MtxSleep(action: bv32, wait: int, woken: int) returns (r: Outcome)
      requires Valid() && Mine().Exclusive?
      modifies this
      ensures Valid() && !r.Aborted?
      ensures r.Panicked? <==> Has(action, OUTSIDE_MASK)
      ensures r.Panicked? ==> lock == old(lock) && slept == old(slept)
      ensures r.Contending? ==> wait == THREAD_WAITING && !Has(action, UNLOCK) && Mine().Unheld?
      ensures r.Contending? ==> !FreeFor(lock, Exclusive)
      ensures r.Returned? ==> r.result == if wait == THREAD_WAITING then woken else wait
      ensures r.Returned? ==> Mine() == (if Has(action, UNLOCK) then Unheld else Exclusive) && floor == old(floor)
      ensures !r.Panicked? ==> slept == old(slept) + Sleeps(action, wait, old(floor))
    {
      if action & OUTSIDE_MASK != 0 {
        return Panicked;
      }
      if Has(action, PROMOTED_PRI) {
        floor := floor + 1;
      }
      var res := wait;
      if res == THREAD_WAITING {
        MtxUnlock();
        res := Block(woken);
        if !Has(action, UNLOCK) {
          var got: bool;
          if Has(action, SPIN) {
            got := MtxLockSpin();
          } else if Has(action, SPIN_ALWAYS) {
            got := MtxLockSpinAlways();
          } else {
            got := MtxLock();
          }
          if !got {
            return Contending;
          }
        }
      } else if Has(action, UNLOCK) {
        MtxUnlock();
      }
      if Has(action, PROMOTED_PRI) {
        floor := floor - 1;
      }
      return Returned(res);
    }

    /** A spin lock is slept on like a mutex, at the thread's own priority. */
    method SpinSleep(action: bv32, wait: int, woken: int) returns (r: Outcome)
      requires Valid() && Mine().Exclusive?
      modifies this
      ensures Valid() && !r.Aborted? && floor == old(floor)
      ensures r.Panicked? <==> Has(action, OUTSIDE_MASK)
      ensures r.Panicked? ==> lock == old(lock) && slept == old(slept)
      ensures r.Contending? ==> wait == THREAD_WAITING && !Has(action, UNLOCK) && Mine().Unheld?
      ensures r.Contending? ==> !FreeFor(lock, Exclusive)
      ensures r.Returned? ==> r.result == if wait == THREAD_WAITING then woken else wait
      ensures r.Returned? ==> Mine() == if Has(action, UNLOCK) then Unheld else Exclusive
      ensures !r.Panicked? ==> slept == old(slept) + if wait != THREAD_WAITING then [] else [Nap(Unheld, floor)]
    {
      if action & OUTSIDE_MASK != 0 {
        return Panicked;
      }
      var res := wait;
      if res == THREAD_WAITING {
        MtxUnlock();
        res := Block(woken);
        if !Has(action, UNLOCK) {
          var got := MtxLock();
          if !got {
            return Contending;
          }
        }
      } else if Has(action, UNLOCK) {
        MtxUnlock();
      }
      return Returned(res);
    }
  }

  lemma BitsOf(action: bv32)
    ensures action & (SHARED | EXCLUSIVE) == 0 <==> !Has(action, SHARED) && !Has(action, EXCLUSIVE)
  {}
}
