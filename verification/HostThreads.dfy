/** The host's thread table: which threads wait, which are runnable, and how
    control passes between them. The scheduler is the set of runnable handles
    and an arbitrary choice among them; it never holds the main thread, which
    counts as always runnable. No thread is suspended. */
module HostThreads {
  import opened Wrappers

  type Thread = int
  type Handle = int

  datatype WaitResult = Waiting | Awakened | TimedOut | Interrupted | Restart

  /** `enqueues` counts how often a thread was enqueued for termination since it
      was created. */
  datatype State = State(
    main: Handle,
    current: Handle,
    threadOf: map<Handle, Thread>,
    handleOf: map<Thread, Handle>,
    runnable: set<Handle>,
    waiting: set<Thread>,
    waitReport: set<Thread>,
    uninterruptible: set<Thread>,
    terminating: set<Thread>,
    enqueued: set<Thread>,
    results: map<Thread, WaitResult>,
    enqueues: map<Thread, nat>)
  {
    /** The tables are inverse to each other, and hold the two threads in use. */
    ghost predicate Mapped() {
      && main in threadOf && current in threadOf
      && (forall h :: h in threadOf ==> threadOf[h] in handleOf && handleOf[threadOf[h]] == h)
      && (forall t :: t in handleOf ==> handleOf[t] in threadOf && threadOf[handleOf[t]] == t)
      && main !in runnable && runnable <= threadOf.Keys
    }

    function Self(): Thread
      requires current in threadOf
    {
      threadOf[current]
    }

    function Enqueues(t: Thread): nat {
      if t in enqueues then enqueues[t] else 0
    }
  }

  // ----- The operations, step by step; `Aborted` where the program aborts

  datatype Outcome = Aborted | Running(s: State)

  function ClearWait(s: State, t: Thread, r: WaitResult): State {
    s.(waiting := s.waiting - {t}, waitReport := s.waitReport - {t},
       uninterruptible := s.uninterruptible - {t}, results := s.results[t := r])
  }

  function SetRunnable(s: State, t: Thread): State
    requires t in s.handleOf
  {
    if s.handleOf[t] == s.main then s else s.(runnable := s.runnable + {s.handleOf[t]})
  }

  predicate ShouldBlock(s: State, t: Thread) {
    t in s.terminating || t in s.waiting
  }

  function Wakeup(s: State, t: Thread, r: WaitResult): State
    requires t in s.handleOf
  {
    var cleared := ClearWait(s, t, r);
    if s.handleOf[t] in s.runnable && !ShouldBlock(cleared, t) then cleared else SetRunnable(cleared, t)
  }

  ghost predicate SameTables(s: State, s': State) {
    s'.main == s.main && s'.current == s.current && s'.threadOf == s.threadOf && s'.handleOf == s.handleOf
  }

  function WakeupAll(s: State, ts: seq<Thread>): (s': State)
    requires forall t :: t in ts ==> t in s.handleOf
    ensures SameTables(s, s')
    decreases ts
  {
    if ts == [] then s else WakeupAll(Wakeup(s, ts[0], Awakened), ts[1..])
  }

  function SetBlocked(s: State, t: Thread): Outcome
    requires t in s.handleOf
  {
    var s' := if t !in s.enqueued && t in s.terminating
              then s.(enqueued := s.enqueued + {t}, enqueues := s.enqueues[t := s.Enqueues(t) + 1])
              else s;
    if s.handleOf[t] == s.main then Aborted
    else Running(s'.(runnable := s'.runnable - {s'.handleOf[t]}))
  }

  /** `signalled` are the threads that waited for this one to stop running. */
  function SwitchFrom(s: State, t: Thread, signalled: seq<Thread>): Outcome
    requires t in s.handleOf && forall u :: u in signalled ==> u in s.handleOf
  {
    if t in s.waiting then
      match SetBlocked(s, t)
      case Aborted => Aborted
      case Running(s') => Running(WakeupAll(s', signalled))
    else Running(WakeupAll(SetRunnable(s, t), signalled))
  }

  function Resumed(s: State): State
    requires s.current in s.threadOf
  {
    ClearWait(s, s.Self(), Awakened)
  }

  /** What the scheduler may pick: any runnable thread, and the main thread if there is none. */
  function Choices(s: State): set<Handle> {
    if s.runnable == {} then {s.main} else s.runnable
  }

  function Block(s: State, h: Handle, signalled: seq<Thread>): Outcome
    requires s.Mapped() && h in Choices(s) && forall u :: u in signalled ==> u in s.handleOf
  {
    if s.runnable == {} && s.threadOf[s.main] in s.waiting then Aborted
    else
      var picked := s.(runnable := s.runnable - {h});
      if h == s.current then
        if s.Self() in s.waiting then Aborted else Running(picked)
      else
        match SwitchFrom(picked, s.Self(), signalled)
        case Aborted => Aborted
        case Running(s') => Running(Resumed(s'.(current := h)))
  }

  /** The scheduler's own block, where a thread waits for a virtual lock. */
  function BlockOnLock(s: State): Outcome
    requires s.Mapped()
  {
    if s.current == s.main then Aborted
    else
      var t := s.Self();
      var blocked := s.(waiting := s.waiting + {t}, uninterruptible := s.uninterruptible + {t});
      Running(Resumed(blocked.(current := s.main)))
  }

  datatype Interrupt = Uninterruptible | Interruptible | AbortSafe

  /** `abort` and `abortSafely` are the thread's pending-abort flags, `report`
      whether its scheduling callback wants to hear of this wait. */
  datatype WaitCall = WaitCall(mode: Interrupt, abort: bool, abortSafely: bool, report: bool)

  predicate MayWait(w: WaitCall) {
    w.mode == Uninterruptible || !w.abort || (w.mode != AbortSafe && w.abortSafely)
  }

  /** Marking the current thread as waiting, before it blocks. */
  function MarkWait(s: State, w: WaitCall): Outcome
    requires s.Mapped()
  {
    var t := s.Self();
    if t in s.waiting || t in s.uninterruptible || t in s.enqueued || t in s.waitReport then Aborted
    else if MayWait(w) then
      Running(s.(
        waiting := s.waiting + {t},
        uninterruptible := if w.mode == Uninterruptible then s.uninterruptible + {t} else s.uninterruptible,
        waitReport := if w.report then s.waitReport + {t} else s.waitReport,
        results := s.results[t := Waiting]))
    else Running(s.(results := s.results[t := Interrupted]))
  }

  function Create(s: State, t: Thread, h: Handle, runnable: bool): State {
    s.(threadOf := s.threadOf[h := t], handleOf := s.handleOf[t := h],
       runnable := if runnable then s.runnable + {h} else s.runnable)
  }

  function Destroy(s: State, h: Handle): State
    requires h in s.threadOf
  {
    var t := s.threadOf[h];
    s.(threadOf := s.threadOf - {h}, handleOf := s.handleOf - {t}, runnable := s.runnable - {h},
       waiting := s.waiting - {t}, waitReport := s.waitReport - {t}, uninterruptible := s.uninterruptible - {t},
       terminating := s.terminating - {t}, enqueued := s.enqueued - {t}, results := s.results - {t},
       enqueues := s.enqueues - {t})
  }

  // ----- Runs

  datatype Action =
    | MarkWaitA(w: WaitCall)
    | WakeupA(t: Thread, r: WaitResult)
    | BlockA(h: Handle, signalled: seq<Thread>)
    | YieldA(enabled: bool, h: Handle, signalled: seq<Thread>)
    | BlockOnLockA
    | MakeRunnableA(hs: set<Handle>)
    | SetTerminatingA(t: Thread)
    | SetUninterruptibleWaitA(t: Thread)
    | ClearUninterruptibleWaitA(t: Thread)
    | CreateA(t: Thread, h: Handle, runnable: bool)
    | DestroyA(h: Handle)

  /** Only mapped threads are named, a choice is one the scheduler has, a new
      thread is new, neither the main nor the running thread is destroyed, and
      only a wait without a report is ended by clearing its two flags. */
  ghost predicate Allowed(s: State, a: Action) {
    && s.Mapped()
    && match a
       case MarkWaitA(_) => true
       case WakeupA(t, _) => t in s.handleOf
       case BlockA(h, signalled) => h in Choices(s) && forall u :: u in signalled ==> u in s.handleOf
       case YieldA(_, h, signalled) => h in Choices(s) && forall u :: u in signalled ==> u in s.handleOf
       case BlockOnLockA => true
       case MakeRunnableA(hs) => hs <= s.threadOf.Keys
       case SetTerminatingA(t) => t in s.handleOf
       case SetUninterruptibleWaitA(t) => t in s.handleOf
       case ClearUninterruptibleWaitA(t) => t in s.handleOf && t !in s.waitReport
       case CreateA(t, h, _) => t !in s.handleOf && h !in s.threadOf
       case DestroyA(h) => h in s.threadOf && h != s.main && h != s.current
  }

  ghost function Next(s: State, a: Action): Outcome
    requires Allowed(s, a)
  {
    match a
    case MarkWaitA(w) => MarkWait(s, w)
    case WakeupA(t, r) => Running(Wakeup(s, t, r))
    case BlockA(h, signalled) => Block(s, h, signalled)
    case YieldA(enabled, h, signalled) =>
      if !enabled || s.Self() in s.waiting then Running(s) else Block(s, h, signalled)
    case BlockOnLockA => BlockOnLock(s)
    case MakeRunnableA(hs) => Running(s.(runnable := s.runnable + (hs - {s.main})))
    case SetTerminatingA(t) => Running(s.(terminating := s.terminating + {t}))
    case SetUninterruptibleWaitA(t) =>
      Running(s.(waiting := s.waiting + {t}, uninterruptible := s.uninterruptible + {t}))
    case ClearUninterruptibleWaitA(t) =>
      Running(s.(waiting := s.waiting - {t}, uninterruptible := s.uninterruptible - {t}))
    case CreateA(t, h, runnable) => Running(Create(s, t, h, runnable))
    case DestroyA(h) => Running(Destroy(s, h))
  }

  /** The steps of a run in which threads only mark waits, wake, yield and block. */
  predicate IsWaitStep(a: Action) {
    a.MarkWaitA? || a.WakeupA? || a.BlockA? || a.YieldA?
  }

  // ----- Each switched-out thread is either waiting or runnable

  /** Waiting or runnable, and not both. */
  ghost predicate OneOf(s: State, h: Handle)
    requires h in s.threadOf
  {
    s.threadOf[h] in s.waiting <==> h !in s.runnable
  }

  /** All threads but the main thread and the one that runs. */
  ghost predicate AllOneOf(s: State, running: Handle) {
    forall h :: h in s.threadOf && h != s.main && h != running ==> OneOf(s, h)
  }

  ghost predicate SchedInv(s: State) {
    s.Mapped() && AllOneOf(s, s.current)
  }

  lemma WakeupKeeps(s: State, t: Thread, r: WaitResult, running: Handle)
    requires s.Mapped() && t in s.handleOf && AllOneOf(s, running)
    ensures Wakeup(s, t, r).Mapped() && AllOneOf(Wakeup(s, t, r), running)
  {
  }

  lemma {:induction false} WakeupAllKeeps(s: State, ts: seq<Thread>, running: Handle)
    requires s.Mapped() && AllOneOf(s, running) && forall t :: t in ts ==> t in s.handleOf
    ensures WakeupAll(s, ts).Mapped() && AllOneOf(WakeupAll(s, ts), running)
    decreases ts
  {
    if ts != [] {
      WakeupKeeps(s, ts[0], Awakened, running);
      WakeupAllKeeps(Wakeup(s, ts[0], Awakened), ts[1..], running);
    }
  }

  /** After switching away from the running thread it too is one of the two. */
  lemma SwitchFromKeeps(s: State, h: Handle, signalled: seq<Thread>)
    requires s.Mapped() && AllOneOf(s.(runnable := s.runnable + {h}), s.current) && h !in s.runnable
    requires h in s.threadOf && h != s.current && forall u :: u in signalled ==> u in s.handleOf
    ensures match SwitchFrom(s, s.Self(), signalled)
            case Aborted => s.current == s.main && s.Self() in s.waiting
            case Running(s') => s'.Mapped() && SameTables(s, s') && AllOneOf(s', h)
  {
    var t := s.Self();
    if t in s.waiting {
      if s.current != s.main {
        WakeupAllKeeps(SetBlocked(s, t).s, signalled, h);
      }
    } else {
      WakeupAllKeeps(SetRunnable(s, t), signalled, h);
    }
  }

  lemma BlockKeepsSchedInv(s: State, h: Handle, signalled: seq<Thread>)
    requires SchedInv(s) && h in Choices(s) && forall u :: u in signalled ==> u in s.handleOf
    ensures Block(s, h, signalled).Running? ==> SchedInv(Block(s, h, signalled).s)
  {
    assert h in s.threadOf;
    var picked := s.(runnable := s.runnable - {h});
    if h != s.current && Block(s, h, signalled).Running? {
      SwitchFromKeeps(picked, h, signalled);
    }
  }

  /** Every wait step keeps each switched-out thread either waiting or runnable. */
  lemma StepKeepsSchedInv(s: State, a: Action)
    requires SchedInv(s) && Allowed(s, a) && IsWaitStep(a)
    ensures Next(s, a).Running? ==> SchedInv(Next(s, a).s)
  {
    match a
    case MarkWaitA(_) =>
    case WakeupA(t, r) => WakeupKeeps(s, t, r, s.current);
    case BlockA(h, signalled) => BlockKeepsSchedInv(s, h, signalled);
    case YieldA(_, h, signalled) => BlockKeepsSchedInv(s, h, signalled);
  }

  ghost predicate IsRun(states: seq<State>, actions: seq<Action>) {
    && |states| == |actions| + 1
    && forall i :: 0 <= i < |actions| ==> StepAt(states, actions, i)
  }

  ghost predicate StepAt(states: seq<State>, actions: seq<Action>, i: nat)
    requires |states| == |actions| + 1 && i < |actions|
  {
    Allowed(states[i], actions[i]) && Next(states[i], actions[i]) == Running(states[i + 1])
  }

  /** A run that starts in order and makes only wait steps. */
  ghost predicate IsWaitRun(states: seq<State>, actions: seq<Action>) {
    IsRun(states, actions) && SchedInv(states[0]) && forall i :: 0 <= i < |actions| ==> IsWaitStep(actions[i])
  }

  /** In every state of such a run each switched-out thread is exactly one of
      waiting or runnable. */
  lemma {:induction false} AlwaysOneOf(states: seq<State>, actions: seq<Action>, i: nat)
    requires IsWaitRun(states, actions) && i < |states|
    ensures SchedInv(states[i])
  {
    if i > 0 {
      AlwaysOneOf(states, actions, i - 1);
      assert StepAt(states, actions, i - 1);
      StepKeepsSchedInv(states[i - 1], actions[i - 1]);
    }
  }

  lemma {:induction false} WakeupAllKeepsAwake(s: State, ts: seq<Thread>, h: Handle)
    requires s.Mapped() && (forall t :: t in ts ==> t in s.handleOf)
    requires h in s.threadOf && h in s.runnable && s.threadOf[h] !in s.waiting
    ensures h in WakeupAll(s, ts).runnable && s.threadOf[h] !in WakeupAll(s, ts).waiting
    decreases ts
  {
    if ts != [] {
      WakeupAllKeepsAwake(Wakeup(s, ts[0], Awakened), ts[1..], h);
    }
  }

  /** Runnable, and not waiting. */
  ghost predicate Awake(s: State, h: Handle, t: Thread) {
    h in s.threadOf && s.threadOf[h] == t && h in s.runnable && t !in s.waiting
  }

  lemma BlockKeepsAwake(s: State, g: Handle, signalled: seq<Thread>, h: Handle, t: Thread)
    requires s.Mapped() && g in Choices(s) && (forall u :: u in signalled ==> u in s.handleOf)
    requires Block(s, g, signalled).Running? && Block(s, g, signalled).s.current != h
    requires Awake(s, h, t) && h != s.current
    ensures Awake(Block(s, g, signalled).s, h, t)
  {
    if g != s.current {
      var picked := s.(runnable := s.runnable - {g});
      var left := if s.Self() in s.waiting then SetBlocked(picked, s.Self()).s else SetRunnable(picked, s.Self());
      assert left.Mapped() && SameTables(s, left) && Awake(left, h, t);
      WakeupAllKeepsAwake(left, signalled, h);
    }
  }

  lemma StepKeepsAwake(s: State, a: Action, h: Handle, t: Thread)
    requires s.Mapped() && Allowed(s, a) && IsWaitStep(a) && Next(s, a).Running?
    requires Awake(s, h, t) && h != s.current && Next(s, a).s.current != h
    ensures Awake(Next(s, a).s, h, t)
  {
    if a.BlockA? || (a.YieldA? && a.enabled && s.Self() !in s.waiting) {
      BlockKeepsAwake(s, a.h, a.signalled, h, t);
    }
  }

  /** No wakeup is lost: from the wakeup of a switched-out thread on, it is
      runnable and does not wait, until the scheduler selects it. */
  lemma {:induction false} NoLostWakeup(states: seq<State>, actions: seq<Action>, i: nat, k: nat, t: Thread)
    requires IsWaitRun(states, actions) && i < k < |states|
    requires actions[i].WakeupA? && actions[i].t == t && t in states[i].handleOf
    requires states[i].handleOf[t] != states[i].main
    requires forall j :: i <= j <= k ==> states[j].current != states[i].handleOf[t]
    ensures t in states[k].handleOf && states[k].handleOf[t] == states[i].handleOf[t]
    ensures states[k].handleOf[t] in states[k].runnable && t !in states[k].waiting
    decreases k
  {
    AlwaysOneOf(states, actions, k - 1);
    AlwaysOneOf(states, actions, k);
    assert StepAt(states, actions, k - 1);
    if k > i + 1 {
      NoLostWakeup(states, actions, i, k - 1, t);
      StepKeepsAwake(states[k - 1], actions[k - 1], states[i].handleOf[t], t);
    }
  }

  // ----- When blocking aborts

  /** The running thread gives up control at this step. */
  ghost predicate Picks(s: State, a: Action) {
    a.BlockA? || a.BlockOnLockA? || (a.YieldA? && a.enabled && s.current in s.threadOf && s.Self() !in s.waiting)
  }

  /** From state `i`, the start or one right after a pick, to state `k` one
      thread has kept running. */
  ghost predicate InSpan(states: seq<State>, actions: seq<Action>, i: nat, k: nat) {
    && i <= k < |states| && |states| == |actions| + 1
    && (i > 0 ==> Picks(states[i - 1], actions[i - 1]))
    && forall j :: i <= j < k ==> !Picks(states[j], actions[j])
  }

  /** The thread picked last was among those that the switch to it signalled. */
  ghost predicate SignalledAtPick(s: State, a: Action, s': State) {
    && (a.BlockA? || a.YieldA?) && s'.current in s'.threadOf
    && s'.current != s.current && s'.current != s'.main && s'.Self() in a.signalled
  }

  /** Since it was picked, the running thread has been woken: by a wakeup while
      it ran, or by the very switch to it. */
  ghost predicate Woken(states: seq<State>, actions: seq<Action>, i: nat, k: nat)
    requires InSpan(states, actions, i, k) && states[i].current in states[i].threadOf
  {
    || (if i == 0 then states[0].current in states[0].runnable
        else SignalledAtPick(states[i - 1], actions[i - 1], states[i]))
    || exists j :: i <= j < k && actions[j].WakeupA? && actions[j].t == states[i].Self()
  }

  /** Right after a pick the thread picked runs, does not wait, and is off the
      runnable set, unless the switch to it signalled it. */
  lemma PickedThread(s: State, h: Handle, signalled: seq<Thread>)
    requires s.Mapped() && h in Choices(s) && forall u :: u in signalled ==> u in s.handleOf
    requires Block(s, h, signalled).Running?
    ensures var s' := Block(s, h, signalled).s;
      && s'.current == h && s'.threadOf == s.threadOf && s'.main == s.main && h in s.threadOf
      && s.threadOf[h] !in s'.waiting
      && (h in s'.runnable <==> h != s.current && h != s.main && s.threadOf[h] in signalled)
      && (h == s.current ==> s'.results == s.results)
  {
    var picked := s.(runnable := s.runnable - {h});
    if h != s.current && h != s.main {
      SwitchEach(picked, s.Self(), signalled, h);
    } else if h != s.current {
      BlockMapped(s, h, signalled);
    }
  }

  lemma {:induction false} WakeupAllMapped(s: State, ts: seq<Thread>)
    requires s.Mapped() && forall t :: t in ts ==> t in s.handleOf
    ensures WakeupAll(s, ts).Mapped()
    decreases ts
  {
    if ts != [] {
      WakeupAllMapped(Wakeup(s, ts[0], Awakened), ts[1..]);
    }
  }

  lemma SwitchMapped(s: State, t: Thread, signalled: seq<Thread>)
    requires s.Mapped() && t in s.handleOf && forall u :: u in signalled ==> u in s.handleOf
    ensures SwitchFrom(s, t, signalled).Running? ==>
              SwitchFrom(s, t, signalled).s.Mapped() && SameTables(s, SwitchFrom(s, t, signalled).s)
  {
    if SwitchFrom(s, t, signalled).Running? {
      var left := if t in s.waiting then SetBlocked(s, t).s else SetRunnable(s, t);
      WakeupAllMapped(left, signalled);
    }
  }

  lemma BlockMapped(s: State, h: Handle, signalled: seq<Thread>)
    requires s.Mapped() && h in Choices(s) && forall u :: u in signalled ==> u in s.handleOf
    ensures Block(s, h, signalled).Running? ==> Block(s, h, signalled).s.Mapped()
  {
    hide SwitchFrom;
    if h != s.current {
      SwitchMapped(s.(runnable := s.runnable - {h}), s.Self(), signalled);
    }
  }

  /** A step that is no pick: the same thread runs on, and is runnable if it was
      or if the step wakes it. */
  lemma RunsOn(s: State, a: Action)
    requires Allowed(s, a) && IsWaitStep(a) && !Picks(s, a) && Next(s, a).Running?
    ensures var s' := Next(s, a).s;
      && s'.current == s.current && s'.threadOf == s.threadOf && s'.main == s.main
      && (s.current in s'.runnable <==>
            s.current in s.runnable || (a.WakeupA? && a.t == s.Self() && s.current != s.main))
  {
  }

  /** The running thread is in the runnable set exactly if it has been woken
      since it was picked. */
  lemma {:induction false} RunnableIffWoken(states: seq<State>, actions: seq<Action>, i: nat, k: nat)
    requires IsWaitRun(states, actions) && InSpan(states, actions, i, k)
    ensures states[i].Mapped() && states[k].Mapped()
    ensures states[k].current == states[i].current && states[k].main == states[i].main
    ensures states[k].threadOf == states[i].threadOf
    ensures states[k].current in states[k].runnable <==>
            states[k].current != states[k].main && Woken(states, actions, i, k)
    decreases k
  {
    AlwaysOneOf(states, actions, i);
    AlwaysOneOf(states, actions, k);
    if i < k {
      RunnableIffWoken(states, actions, i, k - 1);
      AlwaysOneOf(states, actions, k - 1);
      assert StepAt(states, actions, k - 1);
      RunsOn(states[k - 1], actions[k - 1]);
      WokenOneMore(states, actions, i, k);
    } else if i > 0 {
      AlwaysOneOf(states, actions, i - 1);
      assert StepAt(states, actions, i - 1);
      PickedThread(states[i - 1], actions[i - 1].h, actions[i - 1].signalled);
    }
  }

  lemma WokenOneMore(states: seq<State>, actions: seq<Action>, i: nat, k: nat)
    requires i < k && InSpan(states, actions, i, k) && states[i].current in states[i].threadOf
    ensures InSpan(states, actions, i, k - 1)
    ensures Woken(states, actions, i, k) <==>
      Woken(states, actions, i, k - 1) || (actions[k - 1].WakeupA? && actions[k - 1].t == states[i].Self())
  {
  }

  /** Some choice of the scheduler makes blocking abort. */
  ghost predicate MayAbort(s: State)
    requires s.Mapped()
  {
    exists h :: h in Choices(s) && Block(s, h, []) == Aborted
  }

  /** Who is signalled has no part in whether blocking aborts. */
  lemma SignalsDoNotMatter(s: State, h: Handle, signalled: seq<Thread>)
    requires s.Mapped() && h in Choices(s) && forall u :: u in signalled ==> u in s.handleOf
    ensures Block(s, h, signalled) == Aborted <==> Block(s, h, []) == Aborted
  {
  }

  /** Whether blocking can abort, seen before the scheduler picks. */
  lemma MayAbortIff(s: State)
    requires s.Mapped()
    ensures MayAbort(s) <==>
      || (s.runnable == {} && s.threadOf[s.main] in s.waiting)
      || (s.Self() in s.waiting && (s.current == s.main || s.current in s.runnable))
  {
    if s.runnable == {} && s.threadOf[s.main] in s.waiting {
      assert s.main in Choices(s) && Block(s, s.main, []) == Aborted;
    } else if s.Self() in s.waiting && s.current in s.runnable {
      assert s.current in Choices(s) && Block(s, s.current, []) == Aborted;
    } else if s.Self() in s.waiting && s.current == s.main {
      var h := Member(s.runnable);
      assert h in Choices(s) && Block(s, h, []) == Aborted;
    }
  }

  /** Exactly when blocking can abort in a run: the main thread would have to
      wait, or the running thread waits although it was woken after it was
      picked and before it began to wait. */
  lemma BlockAborts(states: seq<State>, actions: seq<Action>, i: nat, k: nat)
    requires IsWaitRun(states, actions) && InSpan(states, actions, i, k)
    ensures states[i].Mapped() && states[k].Mapped() && states[k].current == states[i].current
    ensures MayAbort(states[k]) <==>
      || (states[k].runnable == {} && states[k].threadOf[states[k].main] in states[k].waiting)
      || (states[k].Self() in states[k].waiting
          && (states[k].current == states[k].main || Woken(states, actions, i, k)))
  {
    RunnableIffWoken(states, actions, i, k);
    MayAbortIff(states[k]);
  }

  /** Off the main thread, the scheduler can pick a thread that still waits
      exactly if it is the running one, it waits, and it has been woken since it
      was picked. */
  lemma SelectableAndWaiting(states: seq<State>, actions: seq<Action>, i: nat, k: nat, h: Handle)
    requires IsWaitRun(states, actions) && InSpan(states, actions, i, k)
    requires h != states[k].main
    ensures states[i].Mapped() && states[k].Mapped()
    ensures h in Choices(states[k]) && states[k].threadOf[h] in states[k].waiting <==>
      h == states[k].current && states[k].Self() in states[k].waiting && Woken(states, actions, i, k)
  {
    RunnableIffWoken(states, actions, i, k);
    AlwaysOneOf(states, actions, k);
    if h in states[k].threadOf && h != states[k].current {
      assert OneOf(states[k], h);
    }
  }

  /** It can happen off the main thread: a running thread that is woken, then
      marks a wait and blocks, may be picked again although nothing ended that
      wait. */
  lemma WokenWhileRunning()
    ensures
      var s := State(1, 2, map[1 := 10, 2 := 20], map[10 := 1, 20 := 2], {}, {}, {}, {}, {}, {}, map[], map[]);
      var wait := WaitCall(Interruptible, false, false, false);
      && SchedInv(s)
      && var woken := Wakeup(s, 20, Awakened);
      && woken.Mapped() && MarkWait(woken, wait).Running?
      && var marked := MarkWait(woken, wait).s;
      && SchedInv(marked) && 2 in Choices(marked) && Block(marked, 2, []) == Aborted
  {
  }

  // ----- What blocking returns

  /** A step that gives control to another thread resumes that thread, and leaves
      it with an ordinary wakeup as the result of its wait. */
  lemma ResumedAwakened(s: State, a: Action)
    requires Allowed(s, a) && Next(s, a).Running? && Next(s, a).s.current != s.current
    ensures var s' := Next(s, a).s;
      s'.current in s'.threadOf && s'.Self() !in s'.waiting
      && s'.Self() in s'.results && s'.results[s'.Self()] == Awakened
  {
    match a
    case BlockA(h, signalled) => BlockMapped(s, h, signalled);
    case YieldA(_, h, signalled) => BlockMapped(s, h, signalled);
    case _ =>
  }

  lemma BlockedStep(s: State, a: Action)
    requires Allowed(s, a) && a.BlockA? && Next(s, a).Running?
    ensures s.Mapped() && (s.Self() in s.waiting ==> a.h != s.current)
    ensures var s' := Next(s, a).s;
      && s'.current == a.h && s'.current in s'.threadOf && s'.Self() !in s'.waiting
      && (a.h == s.current ==> s'.results == s.results)
  {
    PickedThread(s, a.h, a.signalled);
  }

  /** What ThreadBlock returns, in every run of all the steps. A thread that
      blocks at step `i` and is next the running one at state `k` gets the result
      it had if the scheduler picked it again at once; otherwise it gets an
      ordinary wakeup. One that blocks to wait always gets the latter, so that a
      timeout or an interruption that ends its wait does not reach it. */
  lemma BlockReturns(states: seq<State>, actions: seq<Action>, i: nat, k: nat)
    requires IsRun(states, actions) && i < k < |states| && actions[i].BlockA?
    requires states[k].current == states[i].current
    requires forall j :: i < j < k ==> states[j].current != states[i].current
    ensures states[i].Mapped() && states[k].current in states[k].threadOf && states[k].Self() !in states[k].waiting
    ensures states[i].Self() in states[i].waiting || actions[i].h != states[i].current ==>
      states[k].Self() in states[k].results && states[k].results[states[k].Self()] == Awakened
    ensures actions[i].h == states[i].current ==> k == i + 1 && states[k].results == states[i].results
  {
    hide Next, Allowed;
    assert StepAt(states, actions, i) && StepAt(states, actions, k - 1);
    BlockedStep(states[i], actions[i]);
    if k > i + 1 {
      ResumedAwakened(states[k - 1], actions[k - 1]);
    }
  }

  /** The main thread and one other that waits with a timeout, blocks, is let go
      by the timeout, and is picked again. */
  ghost function TimeoutState(i: nat): State {
    var s0 := State(1, 2, map[1 := 10, 2 := 20], map[10 := 1, 20 := 2], {}, {}, {}, {}, {}, {}, map[], map[]);
    if i == 0 then s0
    else if i == 1 then s0.(waiting := {20}, results := map[20 := Waiting])
    else if i == 2 then s0.(current := 1, waiting := {20}, results := map[20 := Waiting, 10 := Awakened])
    else if i == 3 then s0.(current := 1, runnable := {2}, results := map[20 := TimedOut, 10 := Awakened])
    else s0.(results := map[20 := Awakened, 10 := Awakened])
  }

  ghost function TimeoutAction(i: nat): Action {
    if i == 0 then MarkWaitA(WaitCall(Interruptible, false, false, false))
    else if i == 1 then BlockA(1, [])
    else if i == 2 then WakeupA(20, TimedOut)
    else BlockA(2, [])
  }

  lemma TwoThreads(s: State)
    requires s.main == 1 && s.current in {1, 2} && s.threadOf == map[1 := 10, 2 := 20]
    requires s.handleOf == map[10 := 1, 20 := 2] && s.runnable <= {2}
    ensures s.Mapped() && (s.current == 2 ==> SchedInv(s))
  {
  }

  lemma TimeoutWaits()
    ensures Allowed(TimeoutState(0), TimeoutAction(0))
    ensures Next(TimeoutState(0), TimeoutAction(0)) == Running(TimeoutState(1))
  {
    TwoThreads(TimeoutState(0));
  }

  lemma TimeoutBlocks()
    ensures Allowed(TimeoutState(1), TimeoutAction(1))
    ensures Next(TimeoutState(1), TimeoutAction(1)) == Running(TimeoutState(2))
  {
    var s := TimeoutState(1);
    TwoThreads(s);
    assert s.runnable - {1} == {} && SwitchFrom(s.(runnable := {}), 20, []) == Running(s);
    assert s.waiting - {10} == {20};
  }

  lemma TimeoutEnds()
    ensures Allowed(TimeoutState(2), TimeoutAction(2))
    ensures Next(TimeoutState(2), TimeoutAction(2)) == Running(TimeoutState(3))
  {
    TwoThreads(TimeoutState(2));
  }

  lemma TimeoutResumes()
    ensures Allowed(TimeoutState(3), TimeoutAction(3))
    ensures Next(TimeoutState(3), TimeoutAction(3)) == Running(TimeoutState(4))
  {
    var s := TimeoutState(3);
    TwoThreads(s);
    assert s.runnable - {2} == {} && SwitchFrom(s.(runnable := {}), 10, []) == Running(s.(runnable := {}));
  }

  /** Such a run: the timeout ends the wait and is its result, and back from
      blocking the result is a wakeup. */
  lemma TimeoutIsLost() returns (states: seq<State>, actions: seq<Action>)
    ensures IsWaitRun(states, actions) && |actions| == 4
    ensures states[0].current == 2 && states[0].threadOf == map[1 := 10, 2 := 20]
    ensures actions[0].MarkWaitA? && actions[1] == BlockA(1, []) && 20 in states[1].waiting
    ensures actions[2] == WakeupA(20, TimedOut) && 20 in states[3].results && states[3].results[20] == TimedOut
    ensures actions[3].BlockA? && states[4].current == 2
    ensures 20 in states[4].results && states[4].results[20] == Awakened
  {
    hide Next, Allowed, SchedInv;
    states := seq(5, i requires 0 <= i => TimeoutState(i));
    actions := seq(4, i requires 0 <= i => TimeoutAction(i));
    TwoThreads(TimeoutState(0));
    TimeoutWaits();
    TimeoutBlocks();
    TimeoutEnds();
    TimeoutResumes();
    forall i: nat | i < 4 ensures StepAt(states, actions, i) {
      assert i == 0 || i == 1 || i == 2 || i == 3;
    }
  }

  // ----- Runs in which threads also wait for virtual locks

  predicate IsLockStep(a: Action) {
    IsWaitStep(a) || a.BlockOnLockA? || a.MakeRunnableA?
  }

  ghost predicate SwitchedOut(s: State, h: Handle) {
    h in s.threadOf && h != s.main && h != s.current
  }

  /** Every switched-out thread waits or is runnable, perhaps both. */
  ghost predicate LockInv(s: State) {
    s.Mapped() && forall h :: SwitchedOut(s, h) ==> s.threadOf[h] in s.waiting || h in s.runnable
  }

  ghost predicate Both(s: State, h: Handle) {
    SwitchedOut(s, h) && s.threadOf[h] in s.waiting && h in s.runnable
  }

  /** The step makes a waiting thread runnable without ending its wait: the
      release of a lock does that to those who wait for it, and waiting for a
      lock does it to a thread that was woken while it ran. */
  ghost predicate MakesBoth(s: State, a: Action, h: Handle) {
    || (a.MakeRunnableA? && SwitchedOut(s, h) && h in a.hs && s.threadOf[h] in s.waiting)
    || (a.BlockOnLockA? && h == s.current && h in s.runnable)
  }

  /** The step wakes the thread, signals it at a switch, or picks it. */
  ghost predicate EndsBoth(s: State, a: Action, h: Handle) {
    h in s.threadOf
    && (|| (a.WakeupA? && a.t == s.threadOf[h])
        || ((a.BlockA? || a.YieldA?) && Picks(s, a)
            && (a.h == h || (a.h != s.current && s.threadOf[h] in a.signalled))))
  }

  lemma {:induction false} WakeupAllEach(s: State, ts: seq<Thread>, h: Handle)
    requires s.Mapped() && h in s.threadOf && h != s.main && forall t :: t in ts ==> t in s.handleOf
    ensures var s' := WakeupAll(s, ts);
      && (h in s'.runnable <==> h in s.runnable || s.threadOf[h] in ts)
      && (s.threadOf[h] in s'.waiting <==> s.threadOf[h] in s.waiting && s.threadOf[h] !in ts)
    decreases ts
  {
    if ts != [] {
      WakeupAllEach(Wakeup(s, ts[0], Awakened), ts[1..], h);
    }
  }

  /** What a switch does to each thread off the main one. */
  lemma SwitchEach(s: State, t: Thread, signalled: seq<Thread>, h: Handle)
    requires s.Mapped() && t in s.handleOf && forall u :: u in signalled ==> u in s.handleOf
    requires h in s.threadOf && h != s.main && SwitchFrom(s, t, signalled).Running?
    ensures var s' := SwitchFrom(s, t, signalled).s;
      && SameTables(s, s') && s'.Mapped()
      && (s.threadOf[h] in s'.waiting <==> s.threadOf[h] in s.waiting && s.threadOf[h] !in signalled)
      && (h in s'.runnable <==>
            s.threadOf[h] in signalled || (if s.threadOf[h] == t then t !in s.waiting else h in s.runnable))
  {
    var left := if t in s.waiting then SetBlocked(s, t).s else SetRunnable(s, t);
    WakeupAllEach(left, signalled, h);
    WakeupAllMapped(left, signalled);
  }

  lemma BlockBoth(s: State, g: Handle, signalled: seq<Thread>, h: Handle)
    requires s.Mapped() && g in Choices(s) && (forall u :: u in signalled ==> u in s.handleOf)
    requires Block(s, g, signalled).Running? && h in s.threadOf && h != s.main
    ensures var s' := Block(s, g, signalled).s;
      && (Both(s', h) <==> Both(s, h) && g != h && !(g != s.current && s.threadOf[h] in signalled))
      && (SwitchedOut(s', h) && (SwitchedOut(s, h) ==> s.threadOf[h] in s.waiting || h in s.runnable) ==>
            s'.threadOf[h] in s'.waiting || h in s'.runnable)
  {
    hide SwitchFrom;
    if g != s.current {
      SwitchEach(s.(runnable := s.runnable - {g}), s.Self(), signalled, h);
    }
  }

  lemma BlockLockInv(s: State, g: Handle, signalled: seq<Thread>)
    requires LockInv(s) && g in Choices(s) && (forall u :: u in signalled ==> u in s.handleOf)
    requires Block(s, g, signalled).Running?
    ensures LockInv(Block(s, g, signalled).s)
  {
    var s' := Block(s, g, signalled).s;
    BlockMapped(s, g, signalled);
    PickedThread(s, g, signalled);
    hide Block;
    forall h | SwitchedOut(s', h) ensures s'.threadOf[h] in s'.waiting || h in s'.runnable {
      BlockBoth(s, g, signalled, h);
    }
  }

  /** Every step of these runs keeps each switched-out thread waiting or runnable. */
  lemma StepKeepsLockInv(s: State, a: Action)
    requires LockInv(s) && Allowed(s, a) && IsLockStep(a) && Next(s, a).Running?
    ensures LockInv(Next(s, a).s)
  {
    if Picks(s, a) && !a.BlockOnLockA? {
      BlockLockInv(s, a.h, a.signalled);
    }
  }

  /** A thread is both after a step exactly if the step makes it so, or it was
      and the step does not end that. */
  lemma StepBoth(s: State, a: Action, h: Handle)
    requires s.Mapped() && Allowed(s, a) && IsLockStep(a) && Next(s, a).Running?
    ensures Both(Next(s, a).s, h) <==> MakesBoth(s, a, h) || (Both(s, h) && !EndsBoth(s, a, h))
  {
    if Picks(s, a) && !a.BlockOnLockA? {
      PickedThread(s, a.h, a.signalled);
      if h in s.threadOf && h != s.main {
        BlockBoth(s, a.h, a.signalled, h);
      }
    }
  }

  ghost predicate IsLockRun(states: seq<State>, actions: seq<Action>) {
    IsRun(states, actions) && SchedInv(states[0]) && forall i :: 0 <= i < |actions| ==> IsLockStep(actions[i])
  }

  /** Some earlier step made the thread both, and none since has ended that. */
  ghost predicate BothSince(states: seq<State>, actions: seq<Action>, h: Handle, k: nat)
    requires |states| == |actions| + 1 && k < |states|
  {
    exists j :: 0 <= j < k && MakesBoth(states[j], actions[j], h) && NotEnded(states, actions, h, j, k)
  }

  ghost predicate NotEnded(states: seq<State>, actions: seq<Action>, h: Handle, j: int, k: nat)
    requires |states| == |actions| + 1 && k < |states|
  {
    forall n :: j < n < k && 0 <= n ==> !EndsBoth(states[n], actions[n], h)
  }

  lemma BothOneMore(states: seq<State>, actions: seq<Action>, h: Handle, k: nat)
    requires |states| == |actions| + 1 && 0 < k < |states|
    ensures BothSince(states, actions, h, k) <==>
      MakesBoth(states[k - 1], actions[k - 1], h)
      || (BothSince(states, actions, h, k - 1) && !EndsBoth(states[k - 1], actions[k - 1], h))
  {
    if MakesBoth(states[k - 1], actions[k - 1], h) {
      assert NotEnded(states, actions, h, k - 1, k);
    } else if BothSince(states, actions, h, k - 1) && !EndsBoth(states[k - 1], actions[k - 1], h) {
      var j :| 0 <= j < k - 1 && MakesBoth(states[j], actions[j], h) && NotEnded(states, actions, h, j, k - 1);
      assert NotEnded(states, actions, h, j, k);
    } else if BothSince(states, actions, h, k) {
      var j :| 0 <= j < k && MakesBoth(states[j], actions[j], h) && NotEnded(states, actions, h, j, k);
      assert NotEnded(states, actions, h, j, k - 1);
    }
  }

  /** In every state of every such run a switched-out thread waits or is
      runnable, and is both exactly if it was made runnable while it waited and
      has been neither woken nor picked since. */
  lemma {:induction false} AlwaysWaitingOrRunnable(states: seq<State>, actions: seq<Action>, k: nat, h: Handle)
    requires IsLockRun(states, actions) && k < |states|
    ensures LockInv(states[k])
    ensures Both(states[k], h) <==> BothSince(states, actions, h, k)
  {
    if k == 0 {
      if SwitchedOut(states[0], h) {
        assert OneOf(states[0], h);
      }
      forall g | SwitchedOut(states[0], g)
        ensures states[0].threadOf[g] in states[0].waiting || g in states[0].runnable
      {
        assert OneOf(states[0], g);
      }
    } else {
      hide Next, MakesBoth, EndsBoth, LockInv;
      AlwaysWaitingOrRunnable(states, actions, k - 1, h);
      assert StepAt(states, actions, k - 1);
      StepKeepsLockInv(states[k - 1], actions[k - 1]);
      StepBoth(states[k - 1], actions[k - 1], h);
      BothOneMore(states, actions, h, k);
    }
  }

  // ----- Wait flags and termination

  /** The two wait flags only occur on waiting threads, and a thread is marked as
      enqueued for termination exactly if it was enqueued, which was once. */
  ghost predicate FlagInv(s: State) {
    && s.Mapped()
    && s.waitReport <= s.waiting && s.uninterruptible <= s.waiting
    && s.enqueued <= s.terminating
    && forall t :: s.Enqueues(t) == (if t in s.enqueued then 1 else 0)
  }

  lemma {:induction false} WakeupAllKeepsFlags(s: State, ts: seq<Thread>)
    requires FlagInv(s) && forall t :: t in ts ==> t in s.handleOf
    ensures FlagInv(WakeupAll(s, ts))
    ensures WakeupAll(s, ts).enqueued == s.enqueued
    decreases ts
  {
    if ts != [] {
      WakeupAllKeepsFlags(Wakeup(s, ts[0], Awakened), ts[1..]);
    }
  }

  lemma SwitchKeepsFlags(s: State, t: Thread, signalled: seq<Thread>)
    requires FlagInv(s) && t in s.handleOf && forall u :: u in signalled ==> u in s.handleOf
    ensures SwitchFrom(s, t, signalled).Running? ==>
              FlagInv(SwitchFrom(s, t, signalled).s)
              && SameTables(s, SwitchFrom(s, t, signalled).s)
              && s.enqueued <= SwitchFrom(s, t, signalled).s.enqueued
  {
    if t !in s.waiting {
      assert FlagInv(SetRunnable(s, t));
      WakeupAllKeepsFlags(SetRunnable(s, t), signalled);
    } else if SetBlocked(s, t).Running? {
      var left := SetBlocked(s, t).s;
      assert FlagInv(left);
      WakeupAllKeepsFlags(left, signalled);
    }
  }

  lemma BlockKeepsFlags(s: State, h: Handle, signalled: seq<Thread>)
    requires FlagInv(s) && h in Choices(s) && forall u :: u in signalled ==> u in s.handleOf
    ensures Block(s, h, signalled).Running? ==>
              FlagInv(Block(s, h, signalled).s) && s.enqueued <= Block(s, h, signalled).s.enqueued
  {
    hide SwitchFrom, WakeupAll;
    var picked := s.(runnable := s.runnable - {h});
    assert FlagInv(picked);
    if h != s.current {
      SwitchKeepsFlags(picked, s.Self(), signalled);
      assert h in s.threadOf;
    }
  }

  ghost predicate Destroys(s: State, a: Action, t: Thread) {
    a.DestroyA? && a.h in s.threadOf && s.threadOf[a.h] == t
  }

  /** Every step of every run keeps the flag discipline, and only its destruction
      takes the termination mark from a thread. */
  lemma StepKeepsFlagInv(s: State, a: Action)
    requires FlagInv(s) && Allowed(s, a) && Next(s, a).Running?
    ensures FlagInv(Next(s, a).s)
    ensures forall t :: t in s.enqueued && !Destroys(s, a, t) ==> t in Next(s, a).s.enqueued
  {
    if a.BlockA? || a.YieldA? {
      hide FlagInv, Block;
      BlockKeepsFlags(s, a.h, a.signalled);
    } else if a.CreateA? || a.DestroyA? {
      TablesKeepFlags(s, a);
    } else {
      OwnStepKeepsFlags(s, a);
    }
  }

  lemma TablesKeepFlags(s: State, a: Action)
    requires FlagInv(s) && Allowed(s, a) && (a.CreateA? || a.DestroyA?)
    ensures Next(s, a).Running? && FlagInv(Next(s, a).s)
    ensures forall t :: t in s.enqueued && !Destroys(s, a, t) ==> t in Next(s, a).s.enqueued
  {
  }

  lemma OwnStepKeepsFlags(s: State, a: Action)
    requires FlagInv(s) && Allowed(s, a) && Next(s, a).Running?
    requires !(a.BlockA? || a.YieldA? || a.CreateA? || a.DestroyA?)
    ensures FlagInv(Next(s, a).s) && Next(s, a).s.enqueued == s.enqueued
  {
    var s' := Next(s, a).s;
    OwnStepKeepsTables(s, a);
    assert s'.waitReport <= s'.waiting && s'.uninterruptible <= s'.waiting;
    FlagInvFrame(s, s');
  }

  /** These steps map no threads, enqueue none and let none off terminating. */
  lemma OwnStepKeepsTables(s: State, a: Action)
    requires Allowed(s, a) && Next(s, a).Running?
    requires !(a.BlockA? || a.YieldA? || a.CreateA? || a.DestroyA?)
    ensures var s' := Next(s, a).s;
      && s'.Mapped() && s'.enqueued == s.enqueued && s'.enqueues == s.enqueues && s.terminating <= s'.terminating
  {
  }

  lemma FlagInvFrame(s: State, s': State)
    requires FlagInv(s) && s'.Mapped() && s'.enqueued == s.enqueued && s'.enqueues == s.enqueues
    requires s.terminating <= s'.terminating && s'.waitReport <= s'.waiting && s'.uninterruptible <= s'.waiting
    ensures FlagInv(s')
  {
    forall t ensures s'.Enqueues(t) == s.Enqueues(t) {
    }
  }

  lemma {:induction false} AlwaysFlagInv(states: seq<State>, actions: seq<Action>, i: nat)
    requires IsRun(states, actions) && FlagInv(states[0]) && i < |states|
    ensures FlagInv(states[i])
  {
    if i > 0 {
      AlwaysFlagInv(states, actions, i - 1);
      assert StepAt(states, actions, i - 1);
      StepKeepsFlagInv(states[i - 1], actions[i - 1]);
    }
  }

  /** In every run, marking a wait aborts exactly if the thread already waits or
      is queued for termination: the two wait flags add nothing to the test. */
  lemma MarkWaitAborts(states: seq<State>, actions: seq<Action>, i: nat, w: WaitCall)
    requires IsRun(states, actions) && FlagInv(states[0]) && i < |states|
    ensures states[i].Mapped()
    ensures MarkWait(states[i], w) == Aborted <==>
            states[i].Self() in states[i].waiting || states[i].Self() in states[i].enqueued
  {
    AlwaysFlagInv(states, actions, i);
  }

  /** Thread `t` is enqueued for termination at step `i`. */
  ghost predicate EnqueuedAt(states: seq<State>, t: Thread, i: nat)
    requires i + 1 < |states|
  {
    states[i + 1].Enqueues(t) > states[i].Enqueues(t)
  }

  lemma {:induction false} StaysEnqueued(states: seq<State>, actions: seq<Action>, t: Thread, i: nat, k: nat)
    requires IsRun(states, actions) && FlagInv(states[0]) && i < k < |states| && EnqueuedAt(states, t, i)
    requires forall j :: i < j < k ==> !Destroys(states[j], actions[j], t)
    ensures t in states[k].enqueued
    decreases k
  {
    AlwaysFlagInv(states, actions, i);
    AlwaysFlagInv(states, actions, i + 1);
    if k > i + 1 {
      StaysEnqueued(states, actions, t, i, k - 1);
      AlwaysFlagInv(states, actions, k - 1);
      assert StepAt(states, actions, k - 1);
      StepKeepsFlagInv(states[k - 1], actions[k - 1]);
    }
  }

  /** A thread is enqueued for termination at most once before it is destroyed. */
  lemma EnqueuedOnce(states: seq<State>, actions: seq<Action>, t: Thread, i: nat, k: nat)
    requires IsRun(states, actions) && FlagInv(states[0]) && i < k < |actions|
    requires forall j :: i < j < k ==> !Destroys(states[j], actions[j], t)
    ensures !(EnqueuedAt(states, t, i) && EnqueuedAt(states, t, k))
  {
    AlwaysFlagInv(states, actions, k);
    AlwaysFlagInv(states, actions, k + 1);
    if EnqueuedAt(states, t, i) {
      StaysEnqueued(states, actions, t, i, k);
    }
  }

  /** The step takes the running thread `t` off in favour of another. */
  ghost predicate SwitchesAway(s: State, a: Action, t: Thread) {
    && (a.BlockA? || a.YieldA?) && Picks(s, a)
    && s.current in s.threadOf && s.Self() == t && a.h != s.current
  }

  lemma {:induction false} WakeupAllEnqueuesNone(s: State, ts: seq<Thread>)
    requires forall t :: t in ts ==> t in s.handleOf
    ensures WakeupAll(s, ts).enqueues == s.enqueues && WakeupAll(s, ts).terminating == s.terminating
    decreases ts
  {
    if ts != [] {
      WakeupAllEnqueuesNone(Wakeup(s, ts[0], Awakened), ts[1..]);
    }
  }

  lemma BlockEnqueues(s: State, h: Handle, signalled: seq<Thread>, t: Thread)
    requires s.Mapped() && h in Choices(s) && (forall u :: u in signalled ==> u in s.handleOf)
    requires Block(s, h, signalled).Running?
    ensures Block(s, h, signalled).s.Enqueues(t) == s.Enqueues(t) +
      if h != s.current && t == s.Self() && t in s.waiting && t in s.terminating && t !in s.enqueued then 1 else 0
    ensures Block(s, h, signalled).s.terminating == s.terminating
  {
    if h != s.current {
      var picked := s.(runnable := s.runnable - {h});
      var left := if s.Self() in s.waiting then SetBlocked(picked, s.Self()).s else SetRunnable(picked, s.Self());
      WakeupAllEnqueuesNone(left, signalled);
    }
  }

  lemma OtherStepsEnqueueNone(s: State, a: Action, t: Thread)
    requires Allowed(s, a) && Next(s, a).Running? && !a.BlockA? && !a.YieldA?
    ensures Next(s, a).s.Enqueues(t) <= s.Enqueues(t)
  {
  }

  /** In every run a step enqueues a thread for termination exactly if it switches
      away from that thread while the thread waits, is terminating and has not
      been enqueued. */
  lemma EnqueuedIff(states: seq<State>, actions: seq<Action>, t: Thread, i: nat)
    requires IsRun(states, actions) && i < |actions|
    ensures EnqueuedAt(states, t, i) <==>
      SwitchesAway(states[i], actions[i], t)
      && t in states[i].waiting && t in states[i].terminating && t !in states[i].enqueued
  {
    assert StepAt(states, actions, i);
    var s, a := states[i], actions[i];
    if a.BlockA? || a.YieldA? {
      if Picks(s, a) {
        BlockEnqueues(s, a.h, a.signalled, t);
      }
    } else {
      OtherStepsEnqueueNone(s, a, t);
    }
  }

  /** From then on, until it is destroyed, the thread is marked as enqueued, and
      has been enqueued once. */
  lemma EnqueuedLasts(states: seq<State>, actions: seq<Action>, t: Thread, i: nat, k: nat)
    requires IsRun(states, actions) && FlagInv(states[0]) && i < k < |states| && EnqueuedAt(states, t, i)
    requires forall j :: i < j < k ==> !Destroys(states[j], actions[j], t)
    ensures t in states[k].enqueued && states[k].Enqueues(t) == 1
  {
    StaysEnqueued(states, actions, t, i, k);
    AlwaysFlagInv(states, actions, k);
  }

  // ----- What the steps do to the threads they name, and to the others

  /** Marking a wait is refused exactly if the wait can be interrupted, an abort is
      pending, and that applies here: it is not an abort at safe points only, or
      this is one. A refused wait is interrupted and leaves no mark. */
  lemma MarkWaitDoes(s: State, w: WaitCall)
    requires s.Mapped() && MarkWait(s, w).Running?
    ensures var s', t := MarkWait(s, w).s, s.Self();
      var refused := w.mode != Uninterruptible && w.abort && (w.abortSafely ==> w.mode == AbortSafe);
      && (t in s'.waiting <==> !refused)
      && (t in s'.uninterruptible <==> !refused && w.mode == Uninterruptible)
      && (t in s'.waitReport <==> !refused && w.report)
      && t in s'.results && s'.results[t] == (if refused then Interrupted else Waiting)
      && s'.runnable == s.runnable && s'.current == s.current
  {
  }

  /** A wakeup ends the wait with the given result, takes both marks away, and
      makes the thread runnable unless it is the main one. */
  lemma WakeupDoes(s: State, t: Thread, r: WaitResult)
    requires s.Mapped() && t in s.handleOf
    ensures var s' := Wakeup(s, t, r);
      && t !in s'.waiting && t !in s'.waitReport && t !in s'.uninterruptible
      && t in s'.results && s'.results[t] == r
      && s'.runnable == (if s.handleOf[t] == s.main then s.runnable else s.runnable + {s.handleOf[t]})
  {
  }

  /** Waiting for a virtual lock marks an uninterruptible wait and hands control
      to the main thread, whose wait is over. */
  lemma BlockOnLockDoes(s: State)
    requires s.Mapped() && BlockOnLock(s).Running?
    ensures var s', t := BlockOnLock(s).s, s.Self();
      && s'.current == s.main && t in s'.waiting && t in s'.uninterruptible
      && s'.threadOf[s.main] !in s'.waiting && s'.runnable == s.runnable
  {
    assert s.threadOf[s.main] != s.Self();
  }

  /** Marking for termination and the two setters of an uninterruptible wait. */
  lemma MarksSet(s: State, t: Thread)
    requires s.Mapped() && t in s.handleOf
    ensures var s' := Next(s, SetTerminatingA(t)).s; t in s'.terminating && s'.waiting == s.waiting
    ensures var s' := Next(s, SetUninterruptibleWaitA(t)).s; t in s'.waiting && t in s'.uninterruptible
    ensures t !in s.waitReport ==>
      var s' := Next(s, ClearUninterruptibleWaitA(t)).s; t !in s'.waiting && t !in s'.uninterruptible
  {
  }

  /** A new thread is mapped, and is runnable exactly if asked to be. */
  lemma CreateDoes(s: State, t: Thread, h: Handle, runnable: bool)
    requires FlagInv(s) && Allowed(s, CreateA(t, h, runnable))
    ensures var s' := Create(s, t, h, runnable);
      && h in s'.threadOf && s'.threadOf[h] == t && t in s'.handleOf && s'.handleOf[t] == h
      && (h in s'.runnable <==> runnable)
  {
  }

  /** Nothing is left of a destroyed thread. */
  lemma DestroyForgets(s: State, h: Handle)
    requires s.Mapped() && h in s.threadOf
    ensures var s', t := Destroy(s, h), s.threadOf[h];
      && h !in s'.threadOf && t !in s'.handleOf && h !in s'.runnable
      && t !in s'.waiting && t !in s'.waitReport && t !in s'.uninterruptible
      && t !in s'.terminating && t !in s'.enqueued && t !in s'.results && s'.Enqueues(t) == 0
  {
  }

  /** The threads that a step is about. */
  ghost predicate Concerns(s: State, a: Action, u: Thread)
    requires Allowed(s, a)
  {
    match a
    case MarkWaitA(_) => u == s.Self()
    case BlockA(h, signalled) => u == s.Self() || u in signalled || (h in s.threadOf && u == s.threadOf[h])
    case YieldA(_, h, signalled) => u == s.Self() || u in signalled || (h in s.threadOf && u == s.threadOf[h])
    case BlockOnLockA => u == s.Self() || u == s.threadOf[s.main]
    case MakeRunnableA(_) => false
    case DestroyA(h) => u == s.threadOf[h]
    case _ => u == a.t
  }

  ghost predicate SameThread(s: State, s': State, u: Thread) {
    && (u in s'.waiting <==> u in s.waiting) && (u in s'.waitReport <==> u in s.waitReport)
    && (u in s'.uninterruptible <==> u in s.uninterruptible) && (u in s'.terminating <==> u in s.terminating)
    && (u in s'.enqueued <==> u in s.enqueued) && s'.Enqueues(u) == s.Enqueues(u)
    && (u in s'.results <==> u in s.results) && (u in s.results ==> s'.results[u] == s.results[u])
  }

  lemma {:induction false} WakeupAllLeaves(s: State, ts: seq<Thread>, u: Thread)
    requires (forall t :: t in ts ==> t in s.handleOf) && u !in ts
    ensures SameThread(s, WakeupAll(s, ts), u)
    decreases ts
  {
    if ts != [] {
      WakeupAllLeaves(Wakeup(s, ts[0], Awakened), ts[1..], u);
    }
  }

  lemma BlockLeaves(s: State, h: Handle, signalled: seq<Thread>, u: Thread)
    requires s.Mapped() && h in Choices(s) && (forall t :: t in signalled ==> t in s.handleOf)
    requires Block(s, h, signalled).Running? && u != s.Self() && u !in signalled
    requires h in s.threadOf && u != s.threadOf[h]
    ensures SameThread(s, Block(s, h, signalled).s, u)
  {
    if h != s.current {
      var picked := s.(runnable := s.runnable - {h});
      var left := if s.Self() in s.waiting then SetBlocked(picked, s.Self()).s else SetRunnable(picked, s.Self());
      WakeupAllLeaves(left, signalled, u);
    }
  }

  /** A step leaves the marks and the results of all other threads as they are. */
  lemma StepLeavesOthers(s: State, a: Action, u: Thread)
    requires Allowed(s, a) && Next(s, a).Running? && !Concerns(s, a, u)
    ensures SameThread(s, Next(s, a).s, u)
  {
    if (a.BlockA? || a.YieldA?) && Picks(s, a) {
      BlockLeaves(s, a.h, a.signalled, u);
    }
  }

  // ----- The host

  class Host {
    const main: Handle
    var current: Handle
    var threadOf: map<Handle, Thread>
    var handleOf: map<Thread, Handle>
    var runnable: set<Handle>
    var waiting: set<Thread>
    var waitReport: set<Thread>
    var uninterruptible: set<Thread>
    var terminating: set<Thread>
    var enqueued: set<Thread>
    var results: map<Thread, WaitResult>
    ghost var enqueues: map<Thread, nat>

    ghost function View(): State
      reads this
    {
      State(main, current, threadOf, handleOf, runnable, waiting, waitReport,
            uninterruptible, terminating, enqueued, results, enqueues)
    }

    /** The call aborted, or left this state. */
    ghost predicate Left(ok: bool, outcome: Outcome)
      reads this
    {
      outcome == if ok then Running(View()) else Aborted
    }

    constructor (main: Handle, mainThread: Thread)
      ensures SchedInv(View()) && FlagInv(View()) && View().current == View().main == main
      ensures View().threadOf == map[main := mainThread]
    {
      this.main, current := main, main;
      threadOf, handleOf := map[main := mainThread], map[mainThread := main];
      runnable := {};
      waiting, waitReport, uninterruptible, terminating, enqueued := {}, {}, {}, {}, {};
      results, enqueues := map[], map[];
    }

    method ThreadClearWait(t: Thread, r: WaitResult)
      modifies this
      ensures View() == ClearWait(old(View()), t, r)
    {
      waiting := waiting - {t};
      waitReport := waitReport - {t};
      uninterruptible := uninterruptible - {t};
      results := results[t := r];
    }

    method MakeRunnable(t: Thread)
      requires t in handleOf
      modifies this
      ensures View() == SetRunnable(old(View()), t)
    {
      if handleOf[t] != main {
        runnable := runnable + {handleOf[t]};
      }
    }

    method ThreadWakeup(t: Thread, r: WaitResult)
      requires t in handleOf
      modifies this
      ensures View() == Wakeup(old(View()), t, r)
    {
      ThreadClearWait(t, r);
      if handleOf[t] in runnable && !(t in terminating || t in waiting) {
        return;
      }
      MakeRunnable(t);
    }

    method ThreadSetBlocked(t: Thread) returns (ok: bool)
      requires t in handleOf
      modifies this
      ensures Left(ok, SetBlocked(old(View()), t))
    {
      if t !in enqueued && t in terminating {
        enqueued := enqueued + {t};
        enqueues := enqueues[t := (if t in enqueues then enqueues[t] else 0) + 1];
      }
      if handleOf[t] == main {
        return false;
      }
      runnable := runnable - {handleOf[t]};
      return true;
    }

    method SwitchAway(t: Thread, signalled: seq<Thread>) returns (ok: bool)
      requires t in handleOf && forall u :: u in signalled ==> u in handleOf
      modifies this
      ensures Left(ok, SwitchFrom(old(View()), t, signalled))
    {
      if t in waiting {
        ok := ThreadSetBlocked(t);
        if !ok {
          return;
        }
      } else {
        MakeRunnable(t);
        ok := true;
      }
      ghost var total := WakeupAll(View(), signalled);
      for i := 0 to |signalled|
        invariant handleOf == old(handleOf)
        invariant total == WakeupAll(View(), signalled[i..])
      {
        ThreadWakeup(signalled[i], Awakened);
        assert signalled[i..][1..] == signalled[i + 1..];
      }
    }

    method ThreadBlock(h: Handle, signalled: seq<Thread>) returns (ok: bool)
      requires View().Mapped() && h in Choices(View()) && forall u :: u in signalled ==> u in handleOf
      modifies this
      ensures Left(ok, Block(old(View()), h, signalled))
    {
      var self := threadOf[current];
      if runnable == {} && threadOf[main] in waiting {
        return false;
      }
      runnable := runnable - {h};
      if h == current {
        return self !in waiting;
      }
      ok := SwitchAway(self, signalled);
      if ok {
        current := h;
        ThreadClearWait(threadOf[current], Awakened);
      }
    }

    method Yield(enabled: bool, h: Handle, signalled: seq<Thread>) returns (ok: bool)
      requires Allowed(View(), YieldA(enabled, h, signalled))
      modifies this
      ensures Left(ok, Next(old(View()), YieldA(enabled, h, signalled)))
    {
      if !enabled {
        return true;
      }
      if threadOf[current] in waiting {
        return true;
      }
      ok := ThreadBlock(h, signalled);
    }

    method MarkWaitLocked(w: WaitCall) returns (ok: bool)
      requires View().Mapped()
      modifies this
      ensures Left(ok, MarkWait(old(View()), w))
    {
      var t := threadOf[current];
      if t in waiting || t in uninterruptible || t in enqueued || t in waitReport {
        return false;
      }
      if w.mode == Uninterruptible || !w.abort || (w.mode != AbortSafe && w.abortSafely) {
        waiting := waiting + {t};
        if w.mode == Uninterruptible {
          uninterruptible := uninterruptible + {t};
        }
        if w.report {
          waitReport := waitReport + {t};
        }
        results := results[t := Waiting];
      } else {
        results := results[t := Interrupted];
      }
      return true;
    }

    method ThreadDestroyed(h: Handle)
      requires h in threadOf
      modifies this
      ensures View() == Destroy(old(View()), h)
    {
      var t := threadOf[h];
      handleOf, threadOf, runnable := handleOf - {t}, threadOf - {h}, runnable - {h};
      terminating, waiting, waitReport := terminating - {t}, waiting - {t}, waitReport - {t};
      uninterruptible, enqueued := uninterruptible - {t}, enqueued - {t};
      results, enqueues := results - {t}, enqueues - {t};
    }
  }
}
