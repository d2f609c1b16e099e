/** The ordered task window: tasks start in sequence, complete in any order, and a ring of flags lets
    `committed` advance over the completed prefix. Sequence numbers are unbounded here. */
module OrderedWindow {

  /** The shared state of a window. */
  datatype Window = Window(
    ring: seq<bool>,
    committed: nat,
    started: nat,
    inFlight: nat,
    sinceWait: nat,
    threshold: nat,
    failed: bool)

  function Slot(w: Window, q: nat): (i: nat)
    requires |w.ring| > 0
    ensures i < |w.ring|
  {
    q % |w.ring|
  }

  function Opened(first: nat, size: nat, wakePercent: nat): (w: Window)
    ensures |w.ring| > 0 && w.threshold > 0
  {
    var n := if size == 0 then 1 else size;
    var t := n * wakePercent / 100;
    Window(seq(n, i => false), first, first, 0, 0, if t > 1 then t else 1, false)
  }

  function SetSlots(ring: seq<bool>): nat {
    if ring == [] then 0 else (if ring[0] then 1 else 0) + SetSlots(ring[1..])
  }

  lemma {:induction false} ClearingShrinks(ring: seq<bool>, i: nat)
    requires i < |ring| && ring[i]
    ensures SetSlots(ring[i := false]) < SetSlots(ring)
  {
    if i > 0 {
      ClearingShrinks(ring[1..], i - 1);
      assert ring[i := false][1..] == ring[1..][i - 1 := false];
    } else {
      assert ring[0 := false][1..] == ring[1..];
    }
  }

  /** Clears set flags from the committed position on. */
  function Commit(w: Window): (r: Window)
    requires |w.ring| > 0
    ensures |r.ring| == |w.ring| && !r.ring[Slot(r, r.committed)]
    decreases SetSlots(w.ring)
  {
    var i := Slot(w, w.committed);
    if w.ring[i] then
      ClearingShrinks(w.ring, i);
      Commit(w.(ring := w.ring[i := false], committed := w.committed + 1))
    else w
  }

  lemma CommitTurn(w: Window)
    requires |w.ring| > 0
    ensures var i := Slot(w, w.committed);
            Commit(w) == if w.ring[i] then Commit(w.(ring := w.ring[i := false], committed := w.committed + 1)) else w
  {
  }

  function Start(w: Window, q: nat): Window {
    w.(started := if w.started > q + 1 then w.started else q + 1, inFlight := w.inFlight + 1)
  }

  /** A completion up to the counters: a success marks its slot and commits, a failure is recorded. */
  function Marked(w: Window, q: nat, ok: bool): (r: Window)
    requires |w.ring| > 0
    ensures |r.ring| == |w.ring|
  {
    if ok then Commit(w.(ring := w.ring[Slot(w, q) := true])) else w.(failed := true)
  }

  function Complete(w: Window, q: nat, ok: bool): (r: Window)
    requires |w.ring| > 0 && w.inFlight > 0
    ensures |r.ring| == |w.ring|
  {
    var m := Marked(w, q, ok);
    m.(sinceWait := m.sinceWait + 1, inFlight := w.inFlight - 1)
  }

  /** The notification test made after a completion; the threshold is compared for equality. */
  predicate Notifies(w: Window, ok: bool) {
    !ok || w.inFlight == 0 || w.sinceWait == w.threshold
  }

  predicate Full(w: Window) {
    w.started - w.committed >= |w.ring|
  }

  class TaskWindow {
    const completed: array<bool>
    const threshold: nat
    var committed: nat
    var started: nat
    var inFlight: nat
    var sinceWait: nat
    var failed: bool

    ghost function View(): Window
      reads this, completed
    {
      Window(completed[..], committed, started, inFlight, sinceWait, threshold, failed)
    }

    constructor (first: nat, size: nat, wakePercent: nat)
      ensures fresh(completed) && View() == Opened(first, size, wakePercent)
    {
      var n := if size == 0 then 1 else size;
      completed := new bool[n](i => false);
      var t := n * wakePercent / 100;
      threshold := if t > 1 then t else 1;
      committed, started, inFlight, sinceWait, failed := first, first, 0, 0, false;
      new;
      assert completed[..] == seq(n, i => false);
    }

    method StartTask(q: nat)
      modifies this
      ensures View() == Start(old(View()), q)
    {
      started := if started > q + 1 then started else q + 1;
      inFlight := inFlight + 1;
    }

    method AdvanceCommitted()
      requires completed.Length > 0
      modifies `committed, completed
      ensures View() == Commit(old(View()))
    {
      hide Commit, SetSlots;
      while completed[committed % completed.Length]
        invariant Commit(View()) == Commit(old(View()))
        decreases SetSlots(completed[..])
      {
        ghost var w, i := View(), committed % completed.Length;
        ClearingShrinks(w.ring, i);
        CommitTurn(w);
        completed[committed % completed.Length] := false;
        assert completed[..] == w.ring[i := false];
        committed := committed + 1;
        assert View() == w.(ring := w.ring[i := false], committed := w.committed + 1);
      }
      CommitTurn(View());
    }

    method CompleteTask(q: nat, ok: bool) returns (notify: bool)
      requires completed.Length > 0 && inFlight > 0
      modifies this, completed
      ensures View() == Complete(old(View()), q, ok)
      ensures notify == Notifies(View(), ok)
    {
      hide Commit;
      if !ok {
        failed := true;
      } else {
        completed[q % completed.Length] := true;
        assert completed[..] == old(completed[..])[q % completed.Length := true];
        AdvanceCommitted();
      }
      sinceWait := sinceWait + 1;
      inFlight := inFlight - 1;
      notify := !ok || inFlight == 0 || sinceWait == threshold;
    }

    method IsFull() returns (full: bool)
      ensures full == Full(View())
    {
      full := started - committed >= completed.Length;
    }
  }

  /* ---- runs ---- */

  datatype Status = Running | Succeeded | Failed

  /** What the one waiting thread waits for: progress, the rest after a failure, or the drain. */
  datatype Wait = ForProgress | ForRestAfterFailure | ForDrain

  datatype Waiter = Awake | Asleep(wait: Wait, notified: bool)

  datatype Sys = Sys(first: nat, window: Window, status: map<nat, Status>, waiter: Waiter)

  predicate Condition(w: Window, wait: Wait) {
    match wait
    case ForProgress => w.failed || w.inFlight == 0 || w.sinceWait >= w.threshold
    case ForRestAfterFailure => w.inFlight == 0
    case ForDrain => w.inFlight == 0
  }

  /** What becomes of a thread that tests a condition under the lock: it sleeps, goes on to the second
      wait after a failure, or returns. A returning progress wait resets the counter. */
  function Test(sys: Sys, wait: Wait): Sys {
    if !Condition(sys.window, wait) then sys.(waiter := Asleep(wait, false))
    else if wait.ForProgress? && sys.window.failed && sys.window.inFlight != 0 then
      sys.(waiter := Asleep(ForRestAfterFailure, false))
    else if wait.ForDrain? then sys.(waiter := Awake)
    else sys.(waiter := Awake, window := sys.window.(sinceWait := 0))
  }

  /** Tasks start at the next sequence and only while the window is not full. */
  datatype Step = StartNext | Finish(q: nat, ok: bool) | BeginWait(drain: bool) | WakeUp

  function Next(sys: Sys, step: Step): (r: (bool, Sys))
    requires |sys.window.ring| > 0
    ensures |r.1.window.ring| == |sys.window.ring|
  {
    match step
    case StartNext =>
      if Full(sys.window) then (false, sys)
      else
        var q := sys.window.started;
        (true, sys.(window := Start(sys.window, q), status := sys.status[q := Running]))
    case Finish(q, ok) =>
      if q !in sys.status || sys.status[q] != Running || sys.window.inFlight == 0 then (false, sys)
      else
        var w := Complete(sys.window, q, ok);
        (true, sys.(window := w, status := sys.status[q := if ok then Succeeded else Failed],
                    waiter := if sys.waiter.Asleep? && Notifies(w, ok) then sys.waiter.(notified := true)
                              else sys.waiter))
    case BeginWait(drain) =>
      if sys.waiter.Asleep? then (false, sys) else (true, Test(sys, if drain then ForDrain else ForProgress))
    case WakeUp =>
      if sys.waiter.Awake? then (false, sys) else (true, Test(sys, sys.waiter.wait))
  }

  function Run(first: nat, size: nat, wakePercent: nat, steps: seq<Step>): (sys: Sys)
    ensures |sys.window.ring| > 0
  {
    if steps == [] then Sys(first, Opened(first, size, wakePercent), map[], Awake)
    else Next(Run(first, size, wakePercent, steps[..|steps| - 1]), steps[|steps| - 1]).1
  }

  /* ---- invariants ---- */

  predicate HasSucceeded(status: map<nat, Status>, q: nat) {
    q in status && status[q] == Succeeded
  }

  ghost function RunningTasks(status: map<nat, Status>): set<nat> {
    set q | q in status && status[q] == Running
  }

  /** Flags and statuses agree over one full turn of the ring. */
  ghost predicate RingAgrees(ring: seq<bool>, committed: nat, status: map<nat, Status>)
    requires |ring| > 0
  {
    forall q :: committed <= q < committed + |ring| ==> (ring[q % |ring|] <==> HasSucceeded(status, q))
  }

  ghost predicate Ordered(first: nat, w: Window, status: map<nat, Status>) {
    && |w.ring| > 0
    && first <= w.committed <= w.started <= w.committed + |w.ring|
    && (forall q :: q in status <==> first <= q < w.started)
    && (forall q :: first <= q < w.committed ==> HasSucceeded(status, q))
    && RingAgrees(w.ring, w.committed, status)
  }

  ghost predicate Counted(w: Window, status: map<nat, Status>) {
    && w.inFlight == |RunningTasks(status)|
    && (w.failed <==> exists q :: q in status && status[q] == Failed)
  }

  /** `committed` is the first sequence that has not completed successfully. */
  ghost predicate CommitsPrefix(first: nat, w: Window, status: map<nat, Status>) {
    && (forall q :: first <= q < w.committed ==> HasSucceeded(status, q))
    && !HasSucceeded(status, w.committed)
  }

  /** A sleeper whose condition holds has been notified. */
  ghost predicate WakeUpPending(sys: Sys) {
    sys.waiter.Asleep? && Condition(sys.window, sys.waiter.wait) ==> sys.waiter.notified
  }

  ghost predicate Inv(sys: Sys) {
    && Ordered(sys.first, sys.window, sys.status) && Counted(sys.window, sys.status)
    && CommitsPrefix(sys.first, sys.window, sys.status)
    && WakeUpPending(sys) && sys.window.threshold > 0
    && (sys.waiter.Asleep? && sys.waiter.wait.ForRestAfterFailure? ==> sys.window.failed)
  }

  /** Two sequences less than one turn apart share a slot only when they are equal. */
  lemma SlotsDiffer(n: nat, a: nat, b: nat)
    requires n > 0 && a <= b < a + n && a % n == b % n
    ensures a == b
  {
    var d := b / n - a / n;
    assert b - a == n * d by {
      assert a == n * (a / n) + a % n && b == n * (b / n) + b % n;
      assert n * (b / n) - n * (a / n) == n * d;
    }
    if d != 0 {
      MultipleIsLarge(n, d);
      assert false;
    }
  }

  lemma MultipleIsLarge(n: nat, d: int)
    requires n > 0 && d != 0
    ensures n * d >= n || n * d <= 0 - n
  {
    if d >= 1 {
      assert n * d >= n * 1;
    } else {
      assert n * d <= n * -1;
    }
  }

  lemma SlotRepeats(n: nat, a: nat)
    requires n > 0
    ensures (a + n) % n == a % n
  {
    var x := a + n;
    var d := x / n - a / n - 1;
    assert a % n - x % n == n * d by {
      assert a == n * (a / n) + a % n && x == n * (x / n) + x % n;
      assert n * (x / n) - n * (a / n) - n == n * d;
    }
    if d != 0 {
      MultipleIsLarge(n, d);
      assert false;
    }
  }

  lemma {:induction false} CommitAdvances(first: nat, w: Window, status: map<nat, Status>)
    requires Ordered(first, w, status)
    ensures Ordered(first, Commit(w), status) && CommitsPrefix(first, Commit(w), status)
    ensures Commit(w) == w.(ring := Commit(w).ring, committed := Commit(w).committed)
    decreases SetSlots(w.ring)
  {
    var i := Slot(w, w.committed);
    if w.ring[i] {
      ClearingShrinks(w.ring, i);
      ClearKeepsOrder(first, w, status);
      CommitAdvances(first, w.(ring := w.ring[i := false], committed := w.committed + 1), status);
    }
  }

  /** Clearing the flag at `committed` moves the window on by one. */
  lemma ClearKeepsOrder(first: nat, w: Window, status: map<nat, Status>)
    requires Ordered(first, w, status) && w.ring[Slot(w, w.committed)]
    ensures Ordered(first, w.(ring := w.ring[Slot(w, w.committed) := false], committed := w.committed + 1), status)
  {
    var n := |w.ring|;
    var next := w.(ring := w.ring[Slot(w, w.committed) := false], committed := w.committed + 1);
    assert HasSucceeded(status, w.committed);
    forall q | next.committed <= q < next.committed + n
      ensures next.ring[q % n] <==> HasSucceeded(status, q)
    {
      if q == w.committed + n {
        SlotRepeats(n, w.committed);
      } else if q % n == w.committed % n {
        SlotsDiffer(n, w.committed, q);
      }
    }
  }

  lemma MarkKeepsOrder(first: nat, w: Window, status: map<nat, Status>, q: nat)
    requires Ordered(first, w, status) && q in status && status[q] == Running
    ensures Ordered(first, w.(ring := w.ring[Slot(w, q) := true]), status[q := Succeeded])
  {
    var n := |w.ring|;
    assert !HasSucceeded(status, q);
    assert w.committed <= q;
    var status' := status[q := Succeeded];
    forall x | first <= x < w.committed
      ensures HasSucceeded(status', x)
    {
      assert HasSucceeded(status, x);
    }
    forall x | w.committed <= x < w.committed + n
      ensures w.ring[Slot(w, q) := true][x % n] <==> HasSucceeded(status', x)
    {
      assert w.ring[x % n] <==> HasSucceeded(status, x);
      if x % n == q % n {
        if x <= q { SlotsDiffer(n, x, q); } else { SlotsDiffer(n, q, x); }
      }
    }
  }

  lemma FailureKeepsOrder(first: nat, w: Window, status: map<nat, Status>, q: nat)
    requires Ordered(first, w, status) && CommitsPrefix(first, w, status) && q in status && status[q] == Running
    ensures Ordered(first, w.(failed := true), status[q := Failed])
    ensures CommitsPrefix(first, w.(failed := true), status[q := Failed])
  {
    SameSuccesses(first, w, w.(failed := true), status, status[q := Failed]);
  }

  /** Changing only tasks that have not succeeded keeps flags and prefix. */
  lemma SameSuccesses(first: nat, w: Window, w': Window, status: map<nat, Status>, status': map<nat, Status>)
    requires Ordered(first, w, status) && CommitsPrefix(first, w, status)
    requires w'.ring == w.ring && w'.committed == w.committed && w.started <= w'.started <= w.committed + |w.ring|
    requires forall q: nat :: q in status' <==> first <= q < w'.started
    requires forall q: nat :: HasSucceeded(status', q) == HasSucceeded(status, q)
    ensures Ordered(first, w', status') && CommitsPrefix(first, w', status')
  {
    hide HasSucceeded;
    forall q | first <= q < w.committed
      ensures HasSucceeded(status', q)
    {
      assert HasSucceeded(status, q);
    }
    forall q: nat | w.committed <= q < w.committed + |w.ring|
      ensures w'.ring[q % |w'.ring|] <==> HasSucceeded(status', q)
    {
      assert w.ring[q % |w.ring|] <==> HasSucceeded(status, q);
    }
  }

  lemma StartKeepsOrder(first: nat, w: Window, status: map<nat, Status>)
    requires Ordered(first, w, status) && CommitsPrefix(first, w, status) && !Full(w)
    ensures Ordered(first, Start(w, w.started), status[w.started := Running])
    ensures CommitsPrefix(first, Start(w, w.started), status[w.started := Running])
  {
    SameSuccesses(first, w, Start(w, w.started), status, status[w.started := Running]);
  }

  lemma CountAfterFinish(status: map<nat, Status>, q: nat, s: Status)
    requires q in status && status[q] == Running && s != Running
    ensures |RunningTasks(status[q := s])| == |RunningTasks(status)| - 1
  {
    assert RunningTasks(status) == RunningTasks(status[q := s]) + {q};
  }

  lemma CountAfterStart(status: map<nat, Status>, q: nat)
    requires q !in status
    ensures |RunningTasks(status[q := Running])| == |RunningTasks(status)| + 1
  {
    assert RunningTasks(status[q := Running]) == RunningTasks(status) + {q};
  }

  lemma FinishKeeps(sys: Sys, q: nat, ok: bool)
    requires Inv(sys) && q in sys.status && sys.status[q] == Running && sys.window.inFlight > 0
    ensures Inv(Next(sys, Finish(q, ok)).1)
  {
    var w, status := sys.window, sys.status;
    var status' := status[q := if ok then Succeeded else Failed];
    CountAfterFinish(status, q, status'[q]);
    if ok {
      var marked := w.(ring := w.ring[Slot(w, q) := true]);
      MarkKeepsOrder(sys.first, w, status, q);
      CommitAdvances(sys.first, marked, status');
      assert forall x :: x in status && status[x] == Failed ==> x in status' && status'[x] == Failed;
      assert forall x :: x in status' && status'[x] == Failed ==> x in status && status[x] == Failed;
    } else {
      FailureKeepsOrder(sys.first, w, status, q);
      assert status'[q] == Failed;
    }
    hide Commit;
    SameOrder(sys.first, Marked(w, q, ok), Complete(w, q, ok), status');
  }

  /** The order invariants do not look at the counters. */
  lemma SameOrder(first: nat, a: Window, b: Window, status: map<nat, Status>)
    requires Ordered(first, a, status) && CommitsPrefix(first, a, status)
    requires b.ring == a.ring && b.committed == a.committed && b.started == a.started
    ensures Ordered(first, b, status) && CommitsPrefix(first, b, status)
  {
  }

  lemma StepKeeps(sys: Sys, step: Step)
    requires Inv(sys)
    ensures Inv(Next(sys, step).1)
  {
    match step
    case StartNext =>
      if !Full(sys.window) {
        var q := sys.window.started;
        StartKeepsOrder(sys.first, sys.window, sys.status);
        CountAfterStart(sys.status, q);
        var status' := sys.status[q := Running];
        assert forall x :: x in sys.status && sys.status[x] == Failed ==> x in status' && status'[x] == Failed;
        assert forall x :: x in status' && status'[x] == Failed ==> x in sys.status && sys.status[x] == Failed;
      }
    case Finish(q, ok) =>
      if Next(sys, step).0 {
        FinishKeeps(sys, q, ok);
      }
    case BeginWait(drain) => SameOrder(sys.first, sys.window, Next(sys, step).1.window, sys.status);
    case WakeUp => SameOrder(sys.first, sys.window, Next(sys, step).1.window, sys.status);
  }

  /** For every completion order: `committed` is the first sequence not yet successfully completed,
      flags and sequences in the window correspond one to one, and no wake-up is lost. */
  lemma {:induction false} EveryRun(first: nat, size: nat, wakePercent: nat, steps: seq<Step>)
    ensures Inv(Run(first, size, wakePercent, steps))
  {
    if steps == [] {
      assert RunningTasks(map[]) == {};
    } else {
      EveryRun(first, size, wakePercent, steps[..|steps| - 1]);
      StepKeeps(Run(first, size, wakePercent, steps[..|steps| - 1]), steps[|steps| - 1]);
    }
  }

  /** A failed sequence is never passed. */
  lemma FailureHolds(first: nat, size: nat, wakePercent: nat, steps: seq<Step>, q: nat)
    requires var sys := Run(first, size, wakePercent, steps); q in sys.status && sys.status[q] == Failed
    ensures Run(first, size, wakePercent, steps).window.committed <= q
  {
    EveryRun(first, size, wakePercent, steps);
    var sys := Run(first, size, wakePercent, steps);
    assert !HasSucceeded(sys.status, q);
  }

  /** With nothing in flight and no failure, everything started is committed. */
  lemma DrainedIsCommitted(first: nat, size: nat, wakePercent: nat, steps: seq<Step>)
    requires var w := Run(first, size, wakePercent, steps).window; w.inFlight == 0 && !w.failed
    ensures var w := Run(first, size, wakePercent, steps).window; w.committed == w.started
  {
    EveryRun(first, size, wakePercent, steps);
    var sys := Run(first, size, wakePercent, steps);
    var c := sys.window.committed;
    assert RunningTasks(sys.status) == {};
    assert c in sys.status ==> c in RunningTasks(sys.status) || HasSucceeded(sys.status, c) || sys.window.failed;
  }

  /** Every completion that makes the condition of a sleeping thread true notifies it. */
  lemma CompletionNotifies(first: nat, size: nat, wakePercent: nat, steps: seq<Step>, q: nat, ok: bool)
    requires var sys := Run(first, size, wakePercent, steps);
             && sys.waiter.Asleep? && !sys.waiter.notified && Next(sys, Finish(q, ok)).0
             && Condition(Next(sys, Finish(q, ok)).1.window, sys.waiter.wait)
    ensures var sys := Run(first, size, wakePercent, steps);
            Notifies(Next(sys, Finish(q, ok)).1.window, ok)
  {
    EveryRun(first, size, wakePercent, steps);
    var sys := Run(first, size, wakePercent, steps);
    StepKeeps(sys, Finish(q, ok));
  }

  /* ---- progress waits ---- */

  /** The step is one in which a progress wait returns. */
  predicate Returns(sys: Sys, step: Step)
    requires |sys.window.ring| > 0
  {
    && Next(sys, step).0 && Next(sys, step).1.waiter.Awake?
    && (step == BeginWait(false) || (step.WakeUp? && sys.waiter.Asleep? && !sys.waiter.wait.ForDrain?))
  }

  /** Completions since a progress wait last returned. */
  function SinceReturn(first: nat, size: nat, wakePercent: nat, steps: seq<Step>): nat {
    if steps == [] then 0
    else
      var before, last := steps[..|steps| - 1], steps[|steps| - 1];
      var sys := Run(first, size, wakePercent, before);
      if Returns(sys, last) then 0
      else SinceReturn(first, size, wakePercent, before) + if last.Finish? && Next(sys, last).0 then 1 else 0
  }

  /** The counter counts exactly those. */
  lemma {:induction false} CounterCounts(first: nat, size: nat, wakePercent: nat, steps: seq<Step>)
    ensures Run(first, size, wakePercent, steps).window.sinceWait == SinceReturn(first, size, wakePercent, steps)
  {
    if steps != [] {
      CounterCounts(first, size, wakePercent, steps[..|steps| - 1]);
      CounterStep(Run(first, size, wakePercent, steps[..|steps| - 1]), steps[|steps| - 1]);
    }
  }

  lemma CounterStep(sys: Sys, step: Step)
    requires |sys.window.ring| > 0
    ensures Next(sys, step).1.window.sinceWait ==
            if Returns(sys, step) then 0 else sys.window.sinceWait + if step.Finish? && Next(sys, step).0 then 1 else 0
  {
    hide Commit;
    if step.Finish? && Next(sys, step).0 {
      CommitKeepsCounter(sys.window, step.q, step.ok);
    }
  }

  lemma CommitKeepsCounter(w: Window, q: nat, ok: bool)
    requires |w.ring| > 0
    ensures Marked(w, q, ok).sinceWait == w.sinceWait
  {
    hide Commit;
    CommitOnlyCommits(w.(ring := w.ring[Slot(w, q) := true]));
  }

  lemma {:induction false} CommitOnlyCommits(w: Window)
    requires |w.ring| > 0
    ensures Commit(w) == w.(ring := Commit(w).ring, committed := Commit(w).committed)
    decreases SetSlots(w.ring)
  {
    var i := Slot(w, w.committed);
    if w.ring[i] {
      ClearingShrinks(w.ring, i);
      CommitOnlyCommits(w.(ring := w.ring[i := false], committed := w.committed + 1));
    }
  }

  lemma {:induction false} ThresholdStays(first: nat, size: nat, wakePercent: nat, steps: seq<Step>)
    ensures Run(first, size, wakePercent, steps).window.threshold == Opened(first, size, wakePercent).threshold
  {
    hide Opened;
    if steps != [] {
      ThresholdStays(first, size, wakePercent, steps[..|steps| - 1]);
      ThresholdStep(Run(first, size, wakePercent, steps[..|steps| - 1]), steps[|steps| - 1]);
    }
  }

  lemma ThresholdStep(sys: Sys, step: Step)
    requires |sys.window.ring| > 0
    ensures Next(sys, step).1.window.threshold == sys.window.threshold
  {
    hide Commit;
    if step.Finish? && Next(sys, step).0 {
      CommitOnlyCommits(sys.window.(ring := sys.window.ring[Slot(sys.window, step.q) := true]));
    }
  }

  /** A progress wait returns only with nothing in flight, or, without a failure, after the given percentage
      of the window, rounded down but at least one, has completed since the last return. After a failure it
      returns only with nothing in flight. */
  lemma ReturnMeansProgress(first: nat, size: nat, wakePercent: nat, steps: seq<Step>, step: Step)
    requires Returns(Run(first, size, wakePercent, steps), step)
    ensures var w := Run(first, size, wakePercent, steps).window;
            var n := if size == 0 then 1 else size;
            var since := SinceReturn(first, size, wakePercent, steps);
            || w.inFlight == 0
            || (!w.failed && since >= 1 && n * wakePercent < 100 * (since + 1))
  {
    hide Run, SinceReturn;
    CounterCounts(first, size, wakePercent, steps);
    ThresholdStays(first, size, wakePercent, steps);
    EveryRun(first, size, wakePercent, steps);
    ThresholdIs(first, size, wakePercent);
  }

  /** A drain returns only with nothing in flight. */
  lemma DrainMeansEmpty(sys: Sys, step: Step)
    requires |sys.window.ring| > 0 && Next(sys, step).0 && Next(sys, step).1.waiter.Awake?
    requires step == BeginWait(true) || (step.WakeUp? && sys.waiter == Asleep(ForDrain, sys.waiter.notified))
    ensures sys.window.inFlight == 0 && Next(sys, step).1.window == sys.window
  {
  }

  lemma ThresholdIs(first: nat, size: nat, wakePercent: nat)
    ensures var n := if size == 0 then 1 else size;
            var t := Opened(first, size, wakePercent).threshold;
            && |Opened(first, size, wakePercent).ring| == n
            && t >= 1 && n * wakePercent < 100 * (t + 1) && (t > 1 ==> 100 * t <= n * wakePercent)
  {
  }

  /** The commit loop never goes back and passes every set flag it meets. */
  lemma {:induction false} CommitGrows(w: Window)
    requires |w.ring| > 0
    ensures Commit(w).committed >= w.committed + if w.ring[Slot(w, w.committed)] then 1 else 0
    decreases SetSlots(w.ring)
  {
    var i := Slot(w, w.committed);
    if w.ring[i] {
      ClearingShrinks(w.ring, i);
      CommitGrows(w.(ring := w.ring[i := false], committed := w.committed + 1));
    }
  }

  /** The window after the next sequence is started and completes at once. */
  function StartedAndDone(w: Window): (r: Window)
    requires |w.ring| > 0
  {
    Complete(Start(w, w.started), w.started, true)
  }

  /** A full window: the slot of the next sequence is that of the first unfinished one, so completing
      the new task moves `committed` past a task that has not succeeded. */
  lemma FullBreaks(sys: Sys)
    requires Inv(sys) && Full(sys.window)
    ensures StartedAndDone(sys.window).committed > sys.window.committed
    ensures sys.window.committed < sys.window.started && !HasSucceeded(sys.status, sys.window.committed)
  {
    hide Commit;
    var w := sys.window;
    assert w.started == w.committed + |w.ring|;
    SlotRepeats(|w.ring|, w.committed);
    var started := Start(w, w.started);
    CommitGrows(started.(ring := started.ring[Slot(started, w.started) := true]));
  }

  /** In every reachable state, starting the next sequence is safe exactly when the window is not full:
      if it completes first, `committed` is then still the first sequence not successfully completed. */
  lemma StartIsSafeIff(first: nat, size: nat, wakePercent: nat, steps: seq<Step>)
    ensures var sys := Run(first, size, wakePercent, steps);
            var w := sys.window;
            CommitsPrefix(first, StartedAndDone(w), sys.status[w.started := Succeeded]) <==> !Full(w)
  {
    hide Commit, Run;
    EveryRun(first, size, wakePercent, steps);
    FirstStays(first, size, wakePercent, steps);
    var sys := Run(first, size, wakePercent, steps);
    var w := sys.window;
    var status' := sys.status[w.started := Succeeded];
    if Full(w) {
      FullBreaks(sys);
      assert !HasSucceeded(status', w.committed);
    } else {
      StartIsSafe(first, w, sys.status);
    }
  }

  lemma StartIsSafe(first: nat, w: Window, status: map<nat, Status>)
    requires Ordered(first, w, status) && CommitsPrefix(first, w, status) && !Full(w)
    ensures CommitsPrefix(first, StartedAndDone(w), status[w.started := Succeeded])
  {
    hide Commit;
    var started, running := Start(w, w.started), status[w.started := Running];
    StartKeepsOrder(first, w, status);
    MarkKeepsOrder(first, started, running, w.started);
    assert running[w.started := Succeeded] == status[w.started := Succeeded];
    var status' := status[w.started := Succeeded];
    CommitAdvances(first, started.(ring := started.ring[Slot(started, w.started) := true]), status');
    SameOrder(first, Marked(started, w.started, true), StartedAndDone(w), status');
  }

  lemma {:induction false} FirstStays(first: nat, size: nat, wakePercent: nat, steps: seq<Step>)
    ensures Run(first, size, wakePercent, steps).first == first
  {
    if steps != [] {
      FirstStays(first, size, wakePercent, steps[..|steps| - 1]);
    }
  }

  /** Starting a task in a full window breaks the order: with one slot, tasks 0 and 1 started and 1
      completed first, `committed` moves to 1 although 0 is still running. */
  lemma OverfullExample()
    ensures var w := Start(Start(Opened(0, 1, 10), 0), 1);
            Full(Start(Opened(0, 1, 10), 0)) && Complete(w, 1, true).committed == 1
  {
    var w := Start(Start(Opened(0, 1, 10), 0), 1);
    assert w.ring == [false];
    var marked := w.(ring := w.ring[Slot(w, 1) := true]);
    assert Slot(w, 1) == 0 && marked.ring == [true];
    var next := marked.(ring := [false], committed := 1);
    assert Commit(marked) == Commit(next);
    assert Commit(next) == next;
  }

  /** Looking again, a waiter returns exactly when nothing is in flight, or when it waits for progress, nothing
      has failed and enough has completed. */
  lemma ReturnIff(first: nat, size: nat, wakePercent: nat, steps: seq<Step>)
    requires Run(first, size, wakePercent, steps).waiter.Asleep?
    ensures var sys := Run(first, size, wakePercent, steps);
            var w := sys.window;
            && Next(sys, WakeUp).0
            && (Next(sys, WakeUp).1.waiter.Awake? <==>
                || w.inFlight == 0
                || (sys.waiter.wait.ForProgress? && !w.failed && w.sinceWait >= w.threshold))
  {
    hide Run;
  }
}
