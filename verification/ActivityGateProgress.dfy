/** The gate never gets stuck: once nobody new comes and guards are dropped, the threads under way come to
    rest, whatever the order of their steps. */
module ActivityGateProgress {
  import opened Common
  import opened ActivityGate

  /** A thread goes on with what it has begun, or drops its guard. */
  predicate Settling(step: Step) { step.Continue? || step.Drop? }

  /** How far a thread is from having left. */
  function ToLeave(pc: Pc): nat {
    match pc
    case EnterAdd => 9
    case EnterCheck => 8
    case Guarded => 7
    case LeaveSub => 6
    case LeaveClosed => 5
    case LeaveWaiters => 4
    case LeaveLock => 3
    case LeaveBroadcast => 2
    case LeaveUnlock => 1
    case _ => 0
  }

  /** How far a thread is from the end of its wait, or from falling asleep in it. */
  function ToReturn(pc: Pc): nat {
    match pc
    case WaitLock => 8
    case WaitAdd => 7
    case Woken => 6
    case WaitLoad => 5
    case WaitSleep => 4
    case Sleeping => 3
    case WaitSub => 2
    case WaitUnlock => 1
    case _ => 0
  }

  function Total(g: Gate, ids: seq<Thread>, rank: Pc -> nat): nat {
    if ids == [] then 0 else rank(At(g, ids[0])) + Total(g, ids[1..], rank)
  }

  predicate Covers(g: Gate, ids: seq<Thread>) { forall t :: t in g.pcs ==> t in ids }

  /** The two totals, the first counting more. */
  predicate Descends(g: Gate, g': Gate, ids: seq<Thread>) {
    var l, l' := Total(g, ids, ToLeave), Total(g', ids, ToLeave);
    l' < l || (l' == l && Total(g', ids, ToReturn) < Total(g, ids, ToReturn))
  }

  lemma {:induction false} TotalFalls(g: Gate, g': Gate, ids: seq<Thread>, rank: Pc -> nat, t: Thread)
    requires forall x :: rank(At(g', x)) <= rank(At(g, x))
    ensures Total(g', ids, rank) <= Total(g, ids, rank)
    ensures t in ids && rank(At(g', t)) < rank(At(g, t)) ==> Total(g', ids, rank) < Total(g, ids, rank)
  {
    if ids != [] {
      TotalFalls(g, g', ids[1..], rank, t);
    }
  }

  lemma {:induction false} TotalSame(g: Gate, g': Gate, ids: seq<Thread>, rank: Pc -> nat)
    requires forall x :: rank(At(g', x)) == rank(At(g, x))
    ensures Total(g', ids, rank) == Total(g, ids, rank)
  {
    if ids != [] {
      TotalSame(g, g', ids[1..], rank);
    }
  }

  /** The thread that moves is closer to its end; a leaver may meanwhile wake sleepers. */
  lemma OwnRank(g: Gate, t: Thread)
    requires Advance(g, t) != g
    ensures var before, after := At(g, t), At(Advance(g, t), t);
            && t in g.pcs
            && ToLeave(after) <= ToLeave(before)
            && (ToLeave(after) == ToLeave(before) ==> ToReturn(after) < ToReturn(before))
            && (before == LeaveBroadcast ==> ToLeave(after) < ToLeave(before))
  {
  }

  lemma OthersStay(g: Gate, t: Thread, x: Thread)
    requires x != t
    ensures ToLeave(At(Advance(g, t), x)) == ToLeave(At(g, x))
    ensures At(g, t) != LeaveBroadcast ==> At(Advance(g, t), x) == At(g, x)
  {
    hide ToReturn;
  }

  /** Every step that changes anything brings the threads closer to rest. */
  lemma StepDescends(g: Gate, step: Step, ids: seq<Thread>)
    requires Settling(step) && Next(g, step) != g && Covers(g, ids)
    ensures Descends(g, Next(g, step), ids) && Covers(Next(g, step), ids)
  {
    hide Advance, ToLeave, ToReturn, Total;
    var g', t := Next(g, step), step.t;
    if step.Drop? {
      DropRank();
      assert forall x :: x != t ==> At(g', x) == At(g, x);
      TotalFalls(g, g', ids, ToLeave, t);
    } else {
      OwnRank(g, t);
      SameThreads(g, t);
      forall x | x != t
        ensures ToLeave(At(g', x)) == ToLeave(At(g, x)) && (At(g, t) != LeaveBroadcast ==> At(g', x) == At(g, x))
      {
        OthersStay(g, t, x);
      }
      if ToLeave(At(g', t)) < ToLeave(At(g, t)) {
        TotalFalls(g, g', ids, ToLeave, t);
      } else {
        TotalSame(g, g', ids, ToLeave);
        TotalFalls(g, g', ids, ToReturn, t);
      }
    }
  }

  lemma DropRank()
    ensures ToLeave(LeaveSub) < ToLeave(Guarded)
  {
  }

  lemma SameThreads(g: Gate, t: Thread)
    requires t in g.pcs
    ensures Advance(g, t).pcs.Keys == g.pcs.Keys
  {
  }

  /** A thread not asleep can move when the lock is free or its own. */
  lemma CanMove(g: Gate, t: Thread)
    requires At(g, t) != Idle && At(g, t) != Sleeping && At(g, t) != Guarded
    requires g.lock == None || HoldsLock(At(g, t)) || IsRunning(At(g, t))
    ensures At(Advance(g, t), t) != At(g, t)
  {
  }

  lemma NoneCounted(pcs: map<Thread, Pc>, p: Pc -> bool)
    requires forall x :: x in pcs ==> !p(pcs[x])
    ensures |Those(pcs, p)| == 0
  {
    assert forall x :: x !in Those(pcs, p);
  }

  lemma SomeoneRuns(g: Gate) returns (t: Thread)
    requires Counts(g) && g.running != 0
    ensures IsRunning(At(g, t))
  {
    if forall x :: x in g.pcs ==> !IsRunning(g.pcs[x]) {
      NoneCounted(g.pcs, IsRunning);
      assert false;
    }
    t :| t in g.pcs && IsRunning(g.pcs[t]);
  }

  lemma Moves(g: Gate, t: Thread) returns (step: Step)
    requires At(g, t) == Guarded || At(Advance(g, t), t) != At(g, t)
    ensures Settling(step) && Next(g, step) != g
  {
    hide Advance;
    if At(g, t) == Guarded {
      step := Drop(t);
      assert At(Next(g, step), t) == LeaveSub;
    } else {
      step := Continue(t);
    }
  }

  /** As long as a thread is under way, somebody can move: there is no deadlock. */
  lemma SomebodyMoves(g: Gate, t: Thread) returns (step: Step)
    requires Inv(g) && At(g, t) != Idle
    ensures Settling(step) && Next(g, step) != g
  {
    hide Advance, Those;
    if g.lock.Some? {
      CanMove(g, g.lock.value);
      step := Moves(g, g.lock.value);
    } else if At(g, t) != Sleeping {
      if At(g, t) != Guarded {
        CanMove(g, t);
      }
      step := Moves(g, t);
    } else if g.running != 0 {
      var r := SomeoneRuns(g);
      if At(g, r) != Guarded {
        CanMove(g, r);
      }
      step := Moves(g, r);
    } else {
      assert NeedsSignal(At(g, t));
      var l :| OnItsWay(At(g, l));
      CanMove(g, l);
      step := Moves(g, l);
    }
  }

  lemma {:induction false} RunFrom(g: Gate, step: Step, more: seq<Step>)
    ensures Run(g, [step] + more) == Run(Next(g, step), more)
    decreases |more|
  {
    hide Next;
    if more == [] {
      assert [step] + more == [step] && [step][..0] == [];
    } else {
      RunFrom(g, step, more[..|more| - 1]);
      assert ([step] + more)[..|more|] == [step] + more[..|more| - 1];
    }
  }

  lemma {:induction false} Listing(keys: set<Thread>) returns (ids: seq<Thread>)
    ensures forall t :: t in keys ==> t in ids
  {
    if forall t :: t !in keys {
      ids := [];
    } else {
      var t :| t in keys;
      var rest := Listing(keys - {t});
      ids := [t] + rest;
    }
  }

  ghost predicate AtRest(g: Gate) { forall t :: At(g, t) == Idle }

  lemma {:induction false} Settles(g: Gate, ids: seq<Thread>) returns (more: seq<Step>)
    requires Inv(g) && Covers(g, ids)
    ensures (forall step :: step in more ==> Settling(step)) && AtRest(Run(g, more))
    decreases Total(g, ids, ToLeave), Total(g, ids, ToReturn)
  {
    hide Inv, Next, Total, ToLeave, ToReturn, Covers;
    if AtRest(g) {
      more := [];
    } else {
      var t :| At(g, t) != Idle;
      var step := SomebodyMoves(g, t);
      StepDescends(g, step, ids);
      StepKeeps(g, step);
      var rest := Settles(Next(g, step), ids);
      more := [step] + rest;
      RunFrom(g, step, rest);
    }
  }

  /** From every reachable state: if no thread comes anew, some order of the remaining steps brings every
      thread to its end, every waiter included. By `StepDescends` every order does. */
  lemma ComesToRest(steps: seq<Step>) returns (more: seq<Step>)
    ensures forall step :: step in more ==> Settling(step)
    ensures var g := Run(Run(INITIAL, steps), more); AtRest(g) && g.running == 0 && g.waiters == 0
  {
    hide Run;
    EveryRun(steps);
    var g := Run(INITIAL, steps);
    var ids := Listing(g.pcs.Keys);
    more := Settles(g, ids);
    RunKeeps(g, more);
    NobodyCounted(Run(g, more));
  }

  lemma {:induction false} RunKeeps(g: Gate, more: seq<Step>)
    requires Inv(g)
    ensures Inv(Run(g, more))
  {
    hide Inv, Next;
    if more != [] {
      RunKeeps(g, more[..|more| - 1]);
      StepKeeps(Run(g, more[..|more| - 1]), more[|more| - 1]);
    }
  }

  lemma NobodyCounted(g: Gate)
    requires Counts(g) && AtRest(g)
    ensures g.running == 0 && g.waiters == 0
  {
    assert forall t :: t in g.pcs ==> At(g, t) == g.pcs[t];
    assert forall t :: t !in Those(g.pcs, IsRunning) && t !in Those(g.pcs, IsWaiting);
  }
}
