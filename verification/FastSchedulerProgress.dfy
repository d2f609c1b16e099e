/** From a schedule call to the callback: a producer's push reaches the list, the drain reaches the timer set,
    and a pass at or after the deadline calls the task. */
module FastSchedulerProgress {
  import opened Common
  import opened FastScheduler

  lemma {:induction false} RunThen(w: World, a: seq<Step>, b: seq<Step>)
    ensures Run(w, a + b) == Run(Run(w, a), b)
    decreases |b|
  {
    hide Next;
    if b == [] {
      assert a + b == a;
    } else {
      RunThen(w, a, b[..|b| - 1]);
      assert (a + b)[..|a + b| - 1] == a + b[..|b| - 1];
    }
  }

  lemma RunOne(w: World, step: Step)
    ensures Run(w, [step]) == Next(w, step)
  {
    assert [step][..0] == [];
    assert Run(w, []) == w;
  }

  /* ---- pushing ---- */

  function Push(t: Task, when: int): seq<Step> { [Schedule(t, when, true), Prepare(t), Swap(t, false)] }

  /** What a push leaves alone, and what it does. */
  predicate Pushed(w: World, v: World, t: Task, when: int) {
    && v.head == To(t) && t in v.armed && Time(v.deadline, t) == Quantize(when)
    && v.role == w.role && v.timers == w.timers && v.log == w.log
  }

  /** A push that nobody disturbs puts the task at the head of the list. */
  lemma PushReaches(w: World, l: Lists, tasks: set<Task>, t: Task, when: int)
    requires Inv(w, l, tasks) && t in w.free && !Stopped(w)
    ensures Pushed(w, Run(w, Push(t, when)), t, when)
    ensures Inv(Run(w, Push(t, when)), Lists([t] + l.pending, l.taken), tasks)
  {
    hide Quantize, Conserved, Prepared, Sorted, Punctual, Disarmed, Chain, Run;
    var a := Next(w, Schedule(t, when, true));
    var b := Next(a, Prepare(t));
    PushRuns(w, t, when);
    StepKeeps(w, l, tasks, Schedule(t, when, true));
    StepKeeps(a, l, tasks, Prepare(t));
    StepKeeps(b, l, tasks, Swap(t, false));
    assert w.head != StoppedMark;
  }

  lemma PushRuns(w: World, t: Task, when: int)
    ensures Run(w, Push(t, when)) == Next(Next(Next(w, Schedule(t, when, true)), Prepare(t)), Swap(t, false))
  {
    hide Next, Run;
    var s1, s2, s3 := [Schedule(t, when, true)], [Prepare(t)], [Swap(t, false)];
    assert Push(t, when) == s1 + s2 + s3;
    RunThen(w, s1 + s2, s3);
    RunThen(w, s1, s2);
    RunOne(w, s1[0]);
    RunOne(Next(w, s1[0]), s2[0]);
    RunOne(Next(Next(w, s1[0]), s2[0]), s3[0]);
  }

  /* ---- draining ---- */

  function Drains(n: nat): seq<Step> { if n == 0 then [] else [DrainOne] + Drains(n - 1) }

  /** Nothing but the link words and the timer set changed, and what was to come or there is there. */
  ghost predicate Drained(w: World, v: World, taken: seq<Task>) {
    && (forall t :: t in taken || t in w.timers ==> t in v.timers)
    && v == w.(link := v.link, timers := v.timers, role := v.role)
  }

  lemma DrainTakes(w: World, l: Lists, tasks: set<Task>)
    requires Inv(w, l, tasks) && w.role.Draining? && l.taken != []
    ensures var v := Next(w, DrainOne);
            && Inv(v, l.(taken := l.taken[1..]), tasks) && v.role.Draining? && Drained(w, v, [l.taken[0]])
  {
    hide Conserved, Prepared, Sorted, Punctual, Disarmed, Insert;
    StepKeeps(w, l, tasks, DrainOne);
    var t := l.taken[0];
    InsertAdds(w.timers, w.deadline, t);
    var timers := Insert(w.timers, w.deadline, t);
    forall x | x == t || x in w.timers
      ensures x in timers
    {
      assert x == t || x in multiset(w.timers);
      assert x in multiset(timers);
    }
  }

  lemma DrainEnds(w: World, l: Lists, tasks: set<Task>)
    requires Inv(w, l, tasks) && w.role.Draining? && l.taken == []
    ensures Next(w, DrainOne) == w.(role := Idle) && Inv(Next(w, DrainOne), l, tasks)
  {
    hide Conserved, Prepared, Sorted, Punctual, Disarmed, Insert;
    StepKeeps(w, l, tasks, DrainOne);
  }

  /** The drain ends after one turn for each task taken and one for the end of the list, and every one of
      them is then in the timer set. */
  lemma {:induction false} DrainReaches(w: World, l: Lists, tasks: set<Task>)
    requires Inv(w, l, tasks) && w.role.Draining?
    ensures var v := Run(w, Drains(|l.taken| + 1));
            v.role.Idle? && Drained(w, v, l.taken) && Inv(v, l.(taken := []), tasks)
    decreases |l.taken|
  {
    hide Inv, Next, Run;
    var n := |l.taken|;
    assert Drains(n + 1) == [DrainOne] + Drains(n);
    RunThen(w, [DrainOne], Drains(n));
    RunOne(w, DrainOne);
    if n == 0 {
      DrainEnds(w, l, tasks);
      assert Run(w.(role := Idle), []) == w.(role := Idle) by { RunNothing(w.(role := Idle)); }
    } else {
      DrainTakes(w, l, tasks);
      DrainReaches(Next(w, DrainOne), l.(taken := l.taken[1..]), tasks);
      assert forall t :: t in l.taken ==> t == l.taken[0] || t in l.taken[1..];
    }
  }

  lemma RunNothing(w: World)
    ensures Run(w, []) == w
  {
  }

  /** A whole drain of the list, from an idle worker. */
  lemma DrainAll(w: World, l: Lists, tasks: set<Task>)
    requires Inv(w, l, tasks) && w.role.Idle?
    ensures var v := Run(w, [BeginDrain] + Drains(|l.pending| + 1));
            && v.role.Idle? && v.head == Nil && v.deadline == w.deadline && v.armed == w.armed && v.log == w.log
            && forall t :: t in l.pending || t in w.timers ==> t in v.timers
  {
    hide Inv, Run;
    StepKeeps(w, l, tasks, BeginDrain);
    RunThen(w, [BeginDrain], Drains(|l.pending| + 1));
    RunOne(w, BeginDrain);
    DrainReaches(Next(w, BeginDrain), Lists([], l.pending), tasks);
  }

  /* ---- from the call to the callback ---- */

  /** The push, the worker's drain, and the start of its pass. */
  function UpToPass(t: Task, when: int, n: nat, now: int): seq<Step> {
    Push(t, when) + ([BeginDrain] + Drains(n)) + [BeginProcess(now)]
  }

  lemma ScheduledIsDue(w: World, l: Lists, tasks: set<Task>, t: Task, when: int, now: int)
    requires Inv(w, l, tasks) && w.role.Idle? && t in w.free && Quantize(when) <= now
    ensures var v := Run(w, UpToPass(t, when, |l.pending| + 2, now));
            v.role == Processing(now) && StillDue(v, t, now) && v.log == w.log
  {
    hide Inv, Run, Quantize;
    var a := Run(w, Push(t, when));
    PushReaches(w, l, tasks, t, when);
    var m := Lists([t] + l.pending, l.taken);
    var drain := [BeginDrain] + Drains(|l.pending| + 2);
    DrainAll(a, m, tasks);
    RunThen(w, Push(t, when) + drain, [BeginProcess(now)]);
    RunThen(w, Push(t, when), drain);
    RunOne(Run(a, drain), BeginProcess(now));
    assert t in m.pending;
  }

  /** In every reachable state with an idle worker: a task that is scheduled and drained is called by the first
      pass at or after its deadline, whatever producers and callbacks do during the pass. */
  lemma ScheduledIsCalled(tasks: set<Task>, steps: seq<Step>, t: Task, when: int, now: int, more: seq<Step>)
    requires var w := Run(Initial(tasks), steps); w.role.Idle? && t in w.free && Quantize(when) <= now
    requires var w := Run(Initial(tasks), steps);
             var n := |RunLists(Initial(tasks), steps).pending| + 2;
             var v := Run(w, UpToPass(t, when, n, now));
             PassOf(v, more, now) && Run(v, more).role.Idle?
    ensures var w := Run(Initial(tasks), steps);
            var n := |RunLists(Initial(tasks), steps).pending| + 2;
            CalledSince(Run(Run(w, UpToPass(t, when, n, now)), more), |w.log|, t, now)
  {
    hide Inv, Run, RunLists, Quantize, StillDue, PassOf, CalledSince, UpToPass;
    var w, l := Run(Initial(tasks), steps), RunLists(Initial(tasks), steps);
    var up := UpToPass(t, when, |l.pending| + 2, now);
    EveryRun(tasks, steps);
    ScheduledIsDue(w, l, tasks, t, when, now);
    RunThen(Initial(tasks), steps, up);
    DueIsCalled(tasks, steps + up, t, now, more);
  }
}
