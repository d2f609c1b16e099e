/** The activity gate as a state machine over the atomic steps of any number of threads. Atomics are
    sequentially consistent and the gate is not reactivated. */
module ActivityGate {
  import opened Common

  type Thread = int

  /** The next atomic step of a thread. */
  datatype Pc =
    | Idle
    | EnterAdd          // saw the gate open, about to increment running
    | EnterCheck        // incremented, about to test the gate again
    | Guarded           // holds a live guard
    | LeaveSub          // about to decrement running
    | LeaveClosed       // decremented from one, about to load closed
    | LeaveWaiters      // gate open, about to load waiters
    | LeaveLock         // about to lock for the broadcast
    | LeaveBroadcast    // holds the lock
    | LeaveUnlock       // has broadcast, holds the lock
    | WaitLock          // about to lock
    | WaitAdd           // holds the lock, about to increment waiters
    | WaitLoad          // holds the lock, about to load running
    | WaitSleep         // saw running non-zero, holds the lock
    | Sleeping          // in the condition wait, lock released
    | Woken             // signalled, about to lock again
    | WaitSub           // saw running zero, holds the lock, about to decrement waiters
    | WaitUnlock        // holds the lock

  datatype Gate = Gate(closed: bool, running: int, waiters: int, lock: Option<Thread>, pcs: map<Thread, Pc>)

  function At(g: Gate, t: Thread): Pc {
    if t in g.pcs then g.pcs[t] else Idle
  }

  function Goto(g: Gate, t: Thread, pc: Pc): Gate {
    g.(pcs := g.pcs[t := pc])
  }

  const INITIAL := Gate(false, 0, 0, None, map[])

  datatype Step =
    | Enter(t: Thread)
    | Drop(t: Thread)
    | Wait(t: Thread)
    | Close
    | Spurious(t: Thread)
    | Continue(t: Thread)

  /** Everyone in the condition wait is signalled. */
  function Broadcast(pcs: map<Thread, Pc>): map<Thread, Pc> {
    map t | t in pcs :: if pcs[t] == Sleeping then Woken else pcs[t]
  }

  /** One step; a step that is not enabled changes nothing. */
  function Next(g: Gate, step: Step): Gate {
    match step
    case Enter(t) => if At(g, t) == Idle && !g.closed then Goto(g, t, EnterAdd) else g
    case Drop(t) => if At(g, t) == Guarded then Goto(g, t, LeaveSub) else g
    case Wait(t) => if At(g, t) == Idle then Goto(g, t, WaitLock) else g
    case Close => g.(closed := true)
    case Spurious(t) => if At(g, t) == Sleeping then Goto(g, t, Woken) else g
    case Continue(t) => Advance(g, t)
  }

  function Advance(g: Gate, t: Thread): Gate {
    match At(g, t)
    case Idle => g
    case EnterAdd => Goto(g.(running := g.running + 1), t, EnterCheck)
    case EnterCheck => Goto(g, t, if g.closed then LeaveSub else Guarded)
    case Guarded => g
    case LeaveSub => Goto(g.(running := g.running - 1), t, if g.running == 1 then LeaveClosed else Idle)
    case LeaveClosed => Goto(g, t, if g.closed then LeaveLock else LeaveWaiters)
    case LeaveWaiters => Goto(g, t, if g.waiters != 0 then LeaveLock else Idle)
    case LeaveLock => if g.lock == None then Goto(g.(lock := Some(t)), t, LeaveBroadcast) else g
    case LeaveBroadcast => Goto(g.(pcs := Broadcast(g.pcs)), t, LeaveUnlock)
    case LeaveUnlock => Goto(g.(lock := None), t, Idle)
    case WaitLock => if g.lock == None then Goto(g.(lock := Some(t)), t, WaitAdd) else g
    case WaitAdd => Goto(g.(waiters := g.waiters + 1), t, WaitLoad)
    case WaitLoad => Goto(g, t, if g.running != 0 then WaitSleep else WaitSub)
    case WaitSleep => Goto(g.(lock := None), t, Sleeping)
    case Sleeping => g
    case Woken => if g.lock == None then Goto(g.(lock := Some(t)), t, WaitLoad) else g
    case WaitSub => Goto(g.(waiters := g.waiters - 1), t, WaitUnlock)
    case WaitUnlock => Goto(g.(lock := None), t, Idle)
  }

  function Run(g: Gate, steps: seq<Step>): Gate {
    if steps == [] then g else Next(Run(g, steps[..|steps| - 1]), steps[|steps| - 1])
  }

  /* ---- invariants ---- */

  /** Threads that have incremented `running` and not yet decremented it. */
  predicate IsRunning(pc: Pc) { pc == EnterCheck || pc == Guarded || pc == LeaveSub }

  predicate IsWaiting(pc: Pc) {
    pc == WaitLoad || pc == WaitSleep || pc == Sleeping || pc == Woken || pc == WaitSub
  }

  predicate HoldsLock(pc: Pc) {
    pc == LeaveBroadcast || pc == LeaveUnlock || pc == WaitAdd || pc == WaitLoad || pc == WaitSleep
    || pc == WaitSub || pc == WaitUnlock
  }

  /** A leaver that took `running` to zero and has not broadcast yet. */
  predicate OnItsWay(pc: Pc) {
    pc == LeaveClosed || pc == LeaveWaiters || pc == LeaveLock || pc == LeaveBroadcast
  }

  predicate NeedsSignal(pc: Pc) { pc == WaitSleep || pc == Sleeping }

  function Those(pcs: map<Thread, Pc>, p: Pc -> bool): set<Thread> {
    set t | t in pcs && p(pcs[t])
  }

  ghost predicate Counts(g: Gate) {
    g.running == |Those(g.pcs, IsRunning)| && g.waiters == |Those(g.pcs, IsWaiting)|
  }

  ghost predicate Exclusive(g: Gate) {
    forall t :: HoldsLock(At(g, t)) <==> g.lock == Some(t)
  }

  /** No lost wake-up: whoever sleeps, or is about to, while nothing runs can count on a leaver. */
  ghost predicate WakeUpComes(g: Gate) {
    g.running == 0 && (exists t :: NeedsSignal(At(g, t))) ==> exists l :: OnItsWay(At(g, l))
  }

  ghost predicate Inv(g: Gate) { Counts(g) && Exclusive(g) && WakeUpComes(g) }

  function Bit(b: bool): nat { if b then 1 else 0 }

  lemma CountAfter(pcs: map<Thread, Pc>, t: Thread, pc: Pc, p: Pc -> bool)
    ensures |Those(pcs[t := pc], p)| == |Those(pcs, p)| - Bit(t in pcs && p(pcs[t])) + Bit(p(pc))
  {
    var before, after := Those(pcs, p), Those(pcs[t := pc], p);
    assert after == if p(pc) then before + {t} else before - {t};
    assert t in before <==> t in pcs && p(pcs[t]);
  }

  lemma CountBroadcast(pcs: map<Thread, Pc>)
    ensures Those(Broadcast(pcs), IsRunning) == Those(pcs, IsRunning)
    ensures Those(Broadcast(pcs), IsWaiting) == Those(pcs, IsWaiting)
  {
    var after := Broadcast(pcs);
    assert forall t :: t in pcs ==> (IsRunning(after[t]) <==> IsRunning(pcs[t]));
    assert forall t :: t in pcs ==> (IsWaiting(after[t]) <==> IsWaiting(pcs[t]));
    assert forall t :: t in Those(after, IsRunning) <==> t in Those(pcs, IsRunning);
    assert forall t :: t in Those(after, IsWaiting) <==> t in Those(pcs, IsWaiting);
  }

  lemma GotoCounts(g: Gate, g': Gate, t: Thread, pc: Pc)
    requires Counts(g) && g'.pcs == g.pcs[t := pc]
    requires g'.running == g.running - Bit(IsRunning(At(g, t))) + Bit(IsRunning(pc))
    requires g'.waiters == g.waiters - Bit(IsWaiting(At(g, t))) + Bit(IsWaiting(pc))
    ensures Counts(g')
  {
    CountAfter(g.pcs, t, pc, IsRunning);
    CountAfter(g.pcs, t, pc, IsWaiting);
  }

  lemma GotoExclusive(g: Gate, g': Gate, t: Thread, pc: Pc)
    requires Exclusive(g) && g'.pcs == g.pcs[t := pc]
    requires g'.lock == if HoldsLock(pc) then Some(t) else if g.lock == Some(t) then None else g.lock
    requires HoldsLock(pc) ==> g.lock == None || g.lock == Some(t)
    ensures Exclusive(g')
  {
    forall x
      ensures HoldsLock(At(g', x)) <==> g'.lock == Some(x)
    {
      assert x != t ==> At(g', x) == At(g, x);
    }
  }

  /** A step of one thread keeps the promise of a wake-up when the thread is still on its way, or was
      not, and does not newly need a signal while nothing runs. */
  lemma GotoWakeUp(g: Gate, g': Gate, t: Thread, pc: Pc)
    requires WakeUpComes(g) && g'.pcs == g.pcs[t := pc]
    requires g'.running == 0 && g.running != 0 ==> OnItsWay(pc)
    requires OnItsWay(At(g, t)) && !OnItsWay(pc) && g'.running == 0 ==> forall x :: !NeedsSignal(At(g, x))
    requires NeedsSignal(pc) && g'.running == 0 ==> NeedsSignal(At(g, t))
    ensures WakeUpComes(g')
  {
    assert At(g', t) == pc;
    assert forall x :: x != t ==> At(g', x) == At(g, x);
    if g'.running == 0 && exists x :: NeedsSignal(At(g', x)) {
      var x :| NeedsSignal(At(g', x));
      assert NeedsSignal(At(g, x));
      if g.running == 0 {
        var l :| OnItsWay(At(g, l));
        assert OnItsWay(At(g', if l == t && !OnItsWay(pc) then x else l)) || OnItsWay(At(g', t));
      }
    }
  }

  lemma StepGoto(g: Gate, g': Gate, t: Thread, pc: Pc)
    requires Inv(g) && g'.pcs == g.pcs[t := pc]
    requires g'.running == g.running - Bit(IsRunning(At(g, t))) + Bit(IsRunning(pc))
    requires g'.waiters == g.waiters - Bit(IsWaiting(At(g, t))) + Bit(IsWaiting(pc))
    requires g'.lock == if HoldsLock(pc) then Some(t) else if g.lock == Some(t) then None else g.lock
    requires HoldsLock(pc) ==> g.lock == None || g.lock == Some(t)
    requires g'.running == 0 && g.running != 0 ==> OnItsWay(pc)
    requires OnItsWay(At(g, t)) && !OnItsWay(pc) && g'.running == 0 ==> forall x :: !NeedsSignal(At(g, x))
    requires NeedsSignal(pc) && g'.running == 0 ==> NeedsSignal(At(g, t))
    ensures Inv(g')
  {
    GotoCounts(g, g', t, pc);
    GotoExclusive(g, g', t, pc);
    GotoWakeUp(g, g', t, pc);
  }

  /** The common case: the thread does not give up a wake-up it owes. */
  lemma StepPlain(g: Gate, g': Gate, t: Thread, pc: Pc)
    requires Inv(g) && g'.pcs == g.pcs[t := pc]
    requires g'.running == g.running - Bit(IsRunning(At(g, t))) + Bit(IsRunning(pc))
    requires g'.waiters == g.waiters - Bit(IsWaiting(At(g, t))) + Bit(IsWaiting(pc))
    requires g'.lock == if HoldsLock(pc) then Some(t) else if g.lock == Some(t) then None else g.lock
    requires HoldsLock(pc) ==> g.lock == None || g.lock == Some(t)
    requires OnItsWay(At(g, t)) ==> OnItsWay(pc)
    requires g'.running == 0 && g.running != 0 ==> OnItsWay(pc)
    requires NeedsSignal(pc) && g'.running == 0 ==> NeedsSignal(At(g, t))
    ensures Inv(g')
  {
    hide Counts, WakeUpComes, Exclusive;
    StepGoto(g, g', t, pc);
  }

  lemma NeverNegative(g: Gate)
    requires Counts(g)
    ensures g.running >= 0 && g.waiters >= 0
  {
  }

  /** Nobody waits when the counter is zero. */
  lemma NoWaiters(g: Gate)
    requires Counts(g) && g.waiters == 0
    ensures forall t :: !IsWaiting(At(g, t))
  {
    forall t
      ensures !IsWaiting(At(g, t))
    {
      assert At(g, t) != Idle ==> (IsWaiting(At(g, t)) <==> t in Those(g.pcs, IsWaiting));
    }
  }

  lemma BroadcastStep(g: Gate, t: Thread)
    requires Inv(g) && At(g, t) == LeaveBroadcast
    ensures Inv(Advance(g, t))
  {
    var mid := g.(pcs := Broadcast(g.pcs));
    CountBroadcast(g.pcs);
    assert Exclusive(g);
    assert forall x :: HoldsLock(At(mid, x)) <==> HoldsLock(At(g, x));
    assert forall x :: HoldsLock(At(g, x)) ==> x == t;
    assert forall x :: !NeedsSignal(At(mid, x)) by {
      forall x
        ensures !NeedsSignal(At(mid, x))
      {
        assert At(g, x) == WaitSleep ==> HoldsLock(At(g, x));
      }
    }
    StepGoto(mid, Advance(g, t), t, LeaveUnlock);
  }

  /** The steps of enter. */
  lemma AdvanceEnter(g: Gate, t: Thread)
    requires Inv(g) && g.lock != Some(t) && g.running >= 0
    requires At(g, t) == EnterAdd || At(g, t) == EnterCheck
    ensures Inv(Advance(g, t))
  {
    hide Counts, WakeUpComes, Exclusive;
    StepPlain(g, Advance(g, t), t, At(Advance(g, t), t));
  }

  /** The steps of leave_ other than the broadcast. */
  lemma AdvanceLeave(g: Gate, t: Thread)
    requires Inv(g) && g.lock != Some(t)
    requires At(g, t) == LeaveSub || At(g, t) == LeaveClosed
    ensures Inv(Advance(g, t))
  {
    hide Counts, WakeUpComes, Exclusive;
    StepPlain(g, Advance(g, t), t, At(Advance(g, t), t));
  }

  lemma AdvanceLeaveLock(g: Gate, t: Thread)
    requires Inv(g) && (HoldsLock(At(g, t)) <==> g.lock == Some(t))
    requires At(g, t) == LeaveLock || At(g, t) == LeaveUnlock
    ensures Inv(Advance(g, t))
  {
    hide Counts, WakeUpComes, Exclusive;
    if Advance(g, t) != g {
      StepPlain(g, Advance(g, t), t, At(Advance(g, t), t));
    }
  }

  /** The steps of wait_for_activities that look at the counters. */
  lemma AdvanceCounting(g: Gate, t: Thread)
    requires Inv(g) && g.lock == Some(t)
    requires At(g, t) == WaitAdd || At(g, t) == WaitLoad || At(g, t) == WaitSub
    ensures Inv(Advance(g, t))
  {
    hide Counts, WakeUpComes, Exclusive;
    StepPlain(g, Advance(g, t), t, At(Advance(g, t), t));
  }

  /** The steps of wait_for_activities that take or give up the lock. */
  lemma AdvanceLocking(g: Gate, t: Thread)
    requires Inv(g) && (HoldsLock(At(g, t)) <==> g.lock == Some(t))
    requires At(g, t) == WaitLock || At(g, t) == WaitSleep || At(g, t) == Woken || At(g, t) == WaitUnlock
    ensures Inv(Advance(g, t))
  {
    hide Counts, WakeUpComes, Exclusive;
    if Advance(g, t) != g {
      StepPlain(g, Advance(g, t), t, At(Advance(g, t), t));
    }
  }

  lemma AdvanceLeaveWaiters(g: Gate, t: Thread)
    requires Inv(g) && At(g, t) == LeaveWaiters && g.lock != Some(t)
    ensures Inv(Advance(g, t))
  {
    hide Counts, WakeUpComes, Exclusive;
    if g.waiters == 0 {
      NoWaiters(g);
      assert forall x :: NeedsSignal(At(g, x)) ==> IsWaiting(At(g, x));
      StepGoto(g, Advance(g, t), t, Idle);
    } else {
      StepGoto(g, Advance(g, t), t, LeaveLock);
    }
  }

  lemma AdvanceKeeps(g: Gate, t: Thread)
    requires Inv(g)
    ensures Inv(Advance(g, t))
  {
    hide Counts, WakeUpComes;
    assert HoldsLock(At(g, t)) <==> g.lock == Some(t);
    if At(g, t) == LeaveBroadcast {
      BroadcastStep(g, t);
    } else if At(g, t) == LeaveWaiters {
      AdvanceLeaveWaiters(g, t);
    } else if At(g, t) == WaitAdd || At(g, t) == WaitLoad || At(g, t) == WaitSub {
      AdvanceCounting(g, t);
    } else if At(g, t) == WaitLock || At(g, t) == WaitSleep || At(g, t) == Woken || At(g, t) == WaitUnlock {
      AdvanceLocking(g, t);
    } else if At(g, t) == EnterAdd || At(g, t) == EnterCheck {
      NeverNegative(g);
      AdvanceEnter(g, t);
    } else if At(g, t) == LeaveSub || At(g, t) == LeaveClosed {
      AdvanceLeave(g, t);
    } else if At(g, t) == LeaveLock || At(g, t) == LeaveUnlock {
      AdvanceLeaveLock(g, t);
    }
  }

  /** A thread that holds no lock begins something else. */
  lemma BeginKeeps(g: Gate, t: Thread, pc: Pc)
    requires Inv(g) && !HoldsLock(At(g, t)) && !HoldsLock(pc) && !NeedsSignal(pc) && !OnItsWay(At(g, t))
    requires IsRunning(pc) == IsRunning(At(g, t)) && IsWaiting(pc) == IsWaiting(At(g, t))
    ensures Inv(Goto(g, t, pc))
  {
    hide Counts, WakeUpComes, Exclusive;
    IdleFree(g, t);
    StepPlain(g, Goto(g, t, pc), t, pc);
  }

  lemma StepKeeps(g: Gate, step: Step)
    requires Inv(g)
    ensures Inv(Next(g, step))
  {
    hide Inv, Advance;
    var g' := Next(g, step);
    match step
    case Enter(t) => if g' != g { BeginKeeps(g, t, EnterAdd); }
    case Drop(t) => if g' != g { BeginKeeps(g, t, LeaveSub); }
    case Wait(t) => if g' != g { BeginKeeps(g, t, WaitLock); }
    case Close => CloseKeeps(g);
    case Spurious(t) => if g' != g { BeginKeeps(g, t, Woken); }
    case Continue(t) => AdvanceKeeps(g, t);
  }

  lemma IdleFree(g: Gate, t: Thread)
    requires Exclusive(g)
    ensures !HoldsLock(At(g, t)) ==> g.lock != Some(t)
  {
  }

  lemma CloseKeeps(g: Gate)
    requires Inv(g)
    ensures Inv(g.(closed := true))
  {
    assert forall t :: At(g.(closed := true), t) == At(g, t);
  }

  /** The counters are exact, the lock has one holder, and no wake-up is lost, in every state of every
      run. */
  lemma {:induction false} EveryRun(steps: seq<Step>)
    ensures Inv(Run(INITIAL, steps))
  {
    if steps == [] {
      assert Those(INITIAL.pcs, IsRunning) == {} && Those(INITIAL.pcs, IsWaiting) == {};
    } else {
      EveryRun(steps[..|steps| - 1]);
      StepKeeps(Run(INITIAL, steps[..|steps| - 1]), steps[|steps| - 1]);
    }
  }

  /* ---- what the gate promises ---- */

  ghost predicate NoGuards(g: Gate) {
    g.closed && forall t :: At(g, t) != Guarded
  }

  lemma {:induction false} NoGuardsStays(g: Gate, more: seq<Step>)
    requires NoGuards(g)
    ensures NoGuards(Run(g, more))
  {
    if more != [] {
      NoGuardsStays(g, more[..|more| - 1]);
      var h, step := Run(g, more[..|more| - 1]), more[|more| - 1];
      forall t
        ensures At(Next(h, step), t) != Guarded
      {
        if At(Next(h, step), t) == Guarded {
          ClosedIssuesNothing(h, step, t);
        }
      }
    }
  }

  /** Once the gate is closed and `running` is zero, no guard is live, and none ever will be. */
  lemma ClosedAndDrained(steps: seq<Step>, more: seq<Step>)
    requires var g := Run(INITIAL, steps); g.closed && g.running == 0
    ensures NoGuards(Run(INITIAL, steps)) && NoGuards(Run(Run(INITIAL, steps), more))
  {
    EveryRun(steps);
    var g := Run(INITIAL, steps);
    assert forall t :: t !in Those(g.pcs, IsRunning);
    assert forall t :: At(g, t) == Guarded ==> t in Those(g.pcs, IsRunning);
    NoGuardsStays(g, more);
  }

  /** A closed gate issues no further guard: whoever is guarded after a step was guarded before it. */
  lemma ClosedIssuesNothing(g: Gate, step: Step, t: Thread)
    requires g.closed && At(Next(g, step), t) == Guarded
    ensures At(g, t) == Guarded
  {
  }

  lemma LeaverGoesOn(g: Gate, l: Thread, t: Thread)
    requires OnItsWay(At(g, l)) && At(g, t) == Sleeping && g.waiters != 0
    ensures At(g, l) == LeaveBroadcast ==> At(Advance(g, l), t) == Woken
    ensures At(g, l) != LeaveBroadcast ==> OnItsWay(At(Advance(g, l), l))
  {
  }

  lemma SleeperCounted(g: Gate, t: Thread)
    requires Counts(g) && At(g, t) == Sleeping
    ensures g.waiters != 0
  {
    assert t in Those(g.pcs, IsWaiting);
  }

  /** A step that leaves the thread asleep leaves the leaver on its way. */
  lemma LeaverStep(g: Gate, step: Step, l: Thread, t: Thread)
    requires OnItsWay(At(g, l)) && At(g, t) == Sleeping && At(Next(g, step), t) == Sleeping && g.waiters != 0
    ensures OnItsWay(At(Next(g, step), l))
  {
    hide Advance;
    if step == Continue(l) {
      LeaverGoesOn(g, l, t);
    } else if step.Continue? {
      OthersAdvance(g, step.t, l);
    }
  }

  /** A thread's step moves no other thread except by waking sleepers. */
  lemma OthersAdvance(g: Gate, t: Thread, x: Thread)
    requires x != t && At(g, x) != Sleeping
    ensures At(Advance(g, t), x) == At(g, x)
  {
  }

  ghost predicate AsleepThroughout(g: Gate, t: Thread, more: seq<Step>) {
    forall n :: 0 <= n <= |more| ==> At(Run(g, more[..n]), t) == Sleeping
  }

  lemma {:induction false} LeaverStays(g: Gate, l: Thread, t: Thread, more: seq<Step>)
    requires Inv(g) && OnItsWay(At(g, l)) && AsleepThroughout(g, t, more)
    ensures var v := Run(g, more); Inv(v) && At(v, t) == Sleeping && OnItsWay(At(v, l))
  {
    hide Inv, Next, OnItsWay;
    assert more[..|more|] == more;
    if more != [] {
      var init := more[..|more| - 1];
      assert forall n :: 0 <= n <= |init| ==> init[..n] == more[..n];
      LeaverStays(g, l, t, init);
      var v := Run(g, init);
      StepKeeps(v, more[|more| - 1]);
      InvCounts(v);
      SleeperCounted(v, t);
      LeaverStep(v, more[|more| - 1], l, t);
    }
  }

  lemma InvCounts(g: Gate)
    requires Inv(g)
    ensures Counts(g)
  {
  }

  /** While `t` sleeps on, whatever else happens, `l` is on its way, and its broadcast wakes `t`. */
  ghost predicate WillWake(g: Gate, l: Thread, t: Thread) {
    forall more :: AsleepThroughout(g, t, more) ==>
      var v := Run(g, more);
      OnItsWay(At(v, l)) && (At(v, l) == LeaveBroadcast ==> At(Advance(v, l), t) == Woken)
  }

  /** A thread asleep while nothing runs has a leaver on its way that, in every continuation, does not
      turn back before a broadcast wakes the thread. */
  lemma SleeperIsWoken(steps: seq<Step>, t: Thread)
    requires var g := Run(INITIAL, steps); At(g, t) == Sleeping && g.running == 0
    ensures exists l :: OnItsWay(At(Run(INITIAL, steps), l)) && WillWake(Run(INITIAL, steps), l, t)
  {
    hide Counts, Exclusive, Run;
    EveryRun(steps);
    var g := Run(INITIAL, steps);
    assert NeedsSignal(At(g, t));
    var l :| OnItsWay(At(g, l));
    forall more | AsleepThroughout(g, t, more)
      ensures var v := Run(g, more);
              OnItsWay(At(v, l)) && (At(v, l) == LeaveBroadcast ==> At(Advance(v, l), t) == Woken)
    {
      LeaverStays(g, l, t, more);
      var v := Run(g, more);
      InvCounts(v);
      SleeperCounted(v, t);
      LeaverGoesOn(v, l, t);
    }
    assert WillWake(g, l, t);
  }

  /** Who gets in: a closed gate turns a newcomer away at once; one that found it open gets its guard exactly
      when the gate is still open after it was counted. */
  lemma EnterIff(g: Gate, t: Thread)
    ensures At(g, t) == Idle ==> (At(Next(g, Enter(t)), t) == EnterAdd <==> !g.closed)
    ensures At(g, t) == EnterAdd ==> At(Next(g, Continue(t)), t) == EnterCheck
    ensures At(g, t) == EnterCheck ==>
              At(Next(g, Continue(t)), t) == if g.closed then LeaveSub else Guarded
  {
  }

  /* ---- what a return from the wait means ---- */

  /** Step m of the run begins the wait the thread is still in. */
  ghost predicate BeganAt(steps: seq<Step>, t: Thread, m: int) {
    && 0 <= m < |steps| && steps[m] == Wait(t) && At(Run(INITIAL, steps[..m]), t) == Idle
    && forall k :: m < k <= |steps| ==> At(Run(INITIAL, steps[..k]), t) != Idle
  }

  /** Nobody ran, and so no guard was live, after the first n steps. */
  ghost predicate QuietAt(steps: seq<Step>, n: int) {
    0 <= n <= |steps| &&
    var g := Run(INITIAL, steps[..n]);
    g.running == 0 && forall x :: At(g, x) != Guarded
  }

  /** In the wait: before the loop ended, or behind it. */
  predicate InWait(pc: Pc) {
    pc == WaitLock || pc == WaitAdd || pc == WaitLoad || pc == WaitSleep || pc == Sleeping || pc == Woken
  }

  predicate Leaving(pc: Pc) { pc == WaitSub || pc == WaitUnlock }

  /** The history of a thread that waits. */
  ghost predicate WaitHistory(steps: seq<Step>, t: Thread) {
    var pc := At(Run(INITIAL, steps), t);
    && (InWait(pc) ==> exists m :: BeganAt(steps, t, m))
    && (Leaving(pc) ==> exists m, n :: BeganAt(steps, t, m) && m < n && QuietAt(steps, n))
  }

  /** How a step moves a thread into and through its wait. */
  lemma WaitMoves(g: Gate, step: Step, t: Thread)
    ensures var before, after := At(g, t), At(Next(g, step), t);
            && (InWait(after) ==> InWait(before) || (before == Idle && step == Wait(t)))
            && (Leaving(after) ==> Leaving(before) || (before == WaitLoad && g.running == 0))
  {
    hide Advance;
    if step.Continue? {
      if step.t == t {
        OwnMoves(g, t);
      } else {
        OtherMoves(g, step.t, t);
      }
    }
  }

  lemma OwnMoves(g: Gate, t: Thread)
    ensures var before, after := At(g, t), At(Advance(g, t), t);
            && (InWait(after) ==> InWait(before))
            && (Leaving(after) ==> Leaving(before) || (before == WaitLoad && g.running == 0))
  {
  }

  lemma OtherMoves(g: Gate, x: Thread, t: Thread)
    requires x != t
    ensures At(Advance(g, x), t) == At(g, t) || (At(g, t) == Sleeping && At(Advance(g, x), t) == Woken)
  {
  }

  lemma NobodyGuarded(g: Gate)
    requires Counts(g) && g.running == 0
    ensures forall x :: At(g, x) != Guarded
  {
    assert forall x :: x !in Those(g.pcs, IsRunning);
    assert forall x :: At(g, x) == Guarded ==> x in Those(g.pcs, IsRunning);
  }

  lemma BeganStill(steps: seq<Step>, step: Step, t: Thread, m: int)
    requires BeganAt(steps, t, m) && At(Run(INITIAL, steps + [step]), t) != Idle
    ensures BeganAt(steps + [step], t, m)
  {
    hide Run;
    var steps' := steps + [step];
    assert steps'[m] == steps[m] && steps'[..m] == steps[..m] && steps'[..|steps'|] == steps';
    forall k | m < k <= |steps'|
      ensures At(Run(INITIAL, steps'[..k]), t) != Idle
    {
      if k <= |steps| {
        assert steps'[..k] == steps[..k];
      }
    }
  }

  lemma QuietStill(steps: seq<Step>, step: Step, n: int)
    requires QuietAt(steps, n)
    ensures QuietAt(steps + [step], n)
  {
    hide Run;
    assert (steps + [step])[..n] == steps[..n];
  }

  lemma WaitStep(steps: seq<Step>, step: Step, t: Thread)
    requires WaitHistory(steps, t)
    ensures WaitHistory(steps + [step], t)
  {
    hide Next, BeganAt, QuietAt;
    var g, steps' := Run(INITIAL, steps), steps + [step];
    assert steps'[..|steps|] == steps;
    var after := At(Run(INITIAL, steps'), t);
    WaitMoves(g, step, t);
    if InWait(after) {
      if InWait(At(g, t)) {
        var m :| BeganAt(steps, t, m);
        BeganStill(steps, step, t, m);
      } else {
        BeginsNow(steps, step, t);
      }
    } else if Leaving(after) {
      if Leaving(At(g, t)) {
        var m, n :| BeganAt(steps, t, m) && m < n && QuietAt(steps, n);
        BeganStill(steps, step, t, m);
        QuietStill(steps, step, n);
      } else {
        var m :| BeganAt(steps, t, m);
        BeganBefore(steps, t, m);
        BeganStill(steps, step, t, m);
        QuietNow(steps, step);
      }
    }
  }

  lemma BeganBefore(steps: seq<Step>, t: Thread, m: int)
    requires BeganAt(steps, t, m)
    ensures m < |steps|
  {
  }

  lemma BeginsNow(steps: seq<Step>, step: Step, t: Thread)
    requires At(Run(INITIAL, steps), t) == Idle && step == Wait(t) && At(Run(INITIAL, steps + [step]), t) != Idle
    ensures BeganAt(steps + [step], t, |steps|)
  {
    hide Run;
    var steps' := steps + [step];
    assert steps'[..|steps|] == steps && steps'[..|steps'|] == steps';
  }

  lemma QuietNow(steps: seq<Step>, step: Step)
    requires Run(INITIAL, steps).running == 0
    ensures QuietAt(steps + [step], |steps|)
  {
    hide Run;
    assert (steps + [step])[..|steps|] == steps;
    EveryRun(steps);
    NobodyGuarded(Run(INITIAL, steps));
  }

  lemma {:induction false} EveryWait(steps: seq<Step>, t: Thread)
    ensures WaitHistory(steps, t)
  {
    hide Next, BeganAt, QuietAt;
    if steps != [] {
      var init, last := steps[..|steps| - 1], steps[|steps| - 1];
      EveryWait(init, t);
      WaitStep(init, last, t);
      assert init + [last] == steps;
    }
  }

  lemma {:induction false} RunOn(g: Gate, a: seq<Step>, b: seq<Step>)
    ensures Run(g, a + b) == Run(Run(g, a), b)
    decreases |b|
  {
    if b == [] {
      assert a + b == a;
    } else {
      RunOn(g, a, b[..|b| - 1]);
      assert (a + b)[..|a + b| - 1] == a + b[..|b| - 1];
    }
  }

  /** The steps from n on, and then more, were quiet to begin with and closed: no guard is ever live. */
  ghost predicate QuietForGood(steps: seq<Step>, n: int) {
    0 <= n <= |steps| && forall more :: NoGuards(Run(INITIAL, steps + more))
  }

  /** A thread about to return from its wait: since it began to wait there was a moment in which no guard
      was live; and if the gate was closed then, no guard is live now or in any continuation. */
  lemma ReturnIsQuiet(steps: seq<Step>, t: Thread)
    requires At(Run(INITIAL, steps), t) == WaitUnlock
    ensures exists m, n :: BeganAt(steps, t, m) && m < n && QuietAt(steps, n) &&
              (Run(INITIAL, steps[..n]).closed ==> QuietForGood(steps, n))
  {
    hide Run, BeganAt;
    EveryWait(steps, t);
    var m, n :| BeganAt(steps, t, m) && m < n && QuietAt(steps, n);
    if Run(INITIAL, steps[..n]).closed {
      forall more: seq<Step>
        ensures NoGuards(Run(INITIAL, steps + more))
      {
        RunOn(INITIAL, steps[..n], steps[n..] + more);
        assert steps[..n] + (steps[n..] + more) == steps + more;
        NoGuardsStays(Run(INITIAL, steps[..n]), steps[n..] + more);
      }
    }
  }
}
