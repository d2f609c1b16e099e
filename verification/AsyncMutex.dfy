/** The hand-off lock: a flag and a FIFO list of suspended awaiters under a mutex, plus blocking lockers
    on a condition variable. Each region under the mutex is one step; so is the notification, which
    comes after the mutex is released. */
module AsyncMutex {
  import opened Common

  /** An awaiter, or the guard obtained through it; identities are never reused. */
  type Id = int

  datatype Lock = Lock(locked: bool, queue: seq<Id>)

  /* ---- the regions under the mutex ---- */

  /** `try_lock_or_enqueue_`. */
  function TryLockOrEnqueue(l: Lock, w: Id): Lock {
    if !l.locked then l.(locked := true) else l.(queue := l.queue + [w])
  }

  function Kept(s: seq<Id>, dropped: set<Id>): (r: seq<Id>) {
    if s == [] then []
    else if s[|s| - 1] in dropped then Kept(s[..|s| - 1], dropped)
    else Kept(s[..|s| - 1], dropped) + [s[|s| - 1]]
  }

  /** `cancel_`. */
  function Cancel(l: Lock, w: Id): Lock {
    l.(queue := Kept(l.queue, {w}))
  }

  /** `unlock_`: hand over to the oldest awaiter, or let go. */
  function Unlock(l: Lock): Lock {
    if l.queue != [] then l.(queue := l.queue[1..]) else l.(locked := false)
  }

  lemma {:induction false} KeptAppend(a: seq<Id>, b: seq<Id>, dropped: set<Id>)
    ensures Kept(a + b, dropped) == Kept(a, dropped) + Kept(b, dropped)
  {
    if b == [] {
      assert a + b == a;
    } else {
      KeptAppend(a, b[..|b| - 1], dropped);
      assert (a + b)[..|a + b| - 1] == a + b[..|b| - 1];
    }
  }

  lemma {:induction false} KeptAll(s: seq<Id>, dropped: set<Id>)
    requires forall x :: x in s ==> x !in dropped
    ensures Kept(s, dropped) == s
  {
    if s != [] {
      KeptAll(s[..|s| - 1], dropped);
      var front, last := s[..|s| - 1], s[|s| - 1];
      assert last in s && last !in dropped;
      assert Kept(s, dropped) == Kept(front, dropped) + [last];
      assert s == front + [last];
    }
  }

  lemma {:induction false} KeptTwice(s: seq<Id>, c: set<Id>, d: set<Id>)
    ensures Kept(Kept(s, c), d) == Kept(s, c + d)
  {
    if s != [] {
      var front, last := s[..|s| - 1], s[|s| - 1];
      KeptTwice(front, c, d);
      if last !in c {
        KeptAppend(Kept(front, c), [last], d);
        assert Kept([last], d) == if last in d then [] else [last];
      }
    }
  }

  lemma {:induction false} KeptMembers(s: seq<Id>, c: set<Id>)
    ensures forall x :: x in Kept(s, c) <==> x in s && x !in c
  {
    if s != [] {
      KeptMembers(s[..|s| - 1], c);
      assert s == s[..|s| - 1] + [s[|s| - 1]];
    }
  }

  lemma {:induction false} KeptDistinct(s: seq<Id>, c: set<Id>)
    requires Distinct(s)
    ensures Distinct(Kept(s, c))
  {
    if s != [] {
      KeptDistinct(s[..|s| - 1], c);
      KeptMembers(s[..|s| - 1], c);
    }
  }

  /** Unlinking the one occurrence of an awaiter is filtering it out. */
  lemma RemoveIsKept(s: seq<Id>, i: nat)
    requires i < |s| && Distinct(s)
    ensures Kept(s, {s[i]}) == s[..i] + s[i + 1..]
  {
    hide Kept, Distinct;
    var front, x, rest := s[..i], s[i], s[i + 1..];
    OnlyOnce(s, i);
    CutAt(s, i);
    KeptAppend(front + [x], rest, {x});
    KeptAppend(front, [x], {x});
    KeptAll(front, {x});
    KeptAll(rest, {x});
    KeptOne(x);
    assert front + [] == front;
  }

  lemma CutAt(s: seq<Id>, i: nat)
    requires i < |s|
    ensures s == s[..i] + [s[i]] + s[i + 1..]
  {
  }

  lemma OnlyOnce(s: seq<Id>, i: nat)
    requires i < |s| && Distinct(s)
    ensures s[i] !in s[..i] && s[i] !in s[i + 1..]
  {
  }

  lemma KeptOne(x: Id)
    ensures Kept([x], {x}) == []
  {
  }

  /** The mutex object. */
  class HandOffLock {
    var locked: bool
    var waiters: seq<Id>

    function State(): Lock
      reads this
    {
      Lock(locked, waiters)
    }

    constructor ()
      ensures State() == Lock(false, [])
    {
      locked, waiters := false, [];
    }

    method TryLockOrSuspend(w: Id) returns (suspended: bool)
      modifies this
      ensures State() == TryLockOrEnqueue(old(State()), w)
      ensures suspended == old(locked)
    {
      if !locked {
        locked := true;
        return false;
      }
      waiters := waiters + [w];
      suspended := true;
    }

    /** Unlinks an awaiter that is being destroyed, if it is linked. */
    method CancelWaiter(w: Id)
      requires Distinct(waiters)
      modifies this
      ensures State() == Cancel(old(State()), w)
    {
      if w in waiters {
        var i :| 0 <= i < |waiters| && waiters[i] == w;
        RemoveIsKept(waiters, i);
        waiters := waiters[..i] + waiters[i + 1..];
      } else {
        KeptAll(waiters, {w});
      }
    }

    method Release() returns (next: seq<Id>)
      modifies this
      ensures State() == Unlock(old(State()))
      ensures next == if old(waiters) == [] then [] else [old(waiters)[0]]
    {
      next := [];
      if waiters != [] {
        next := [waiters[0]];
        waiters := waiters[1..];
      }
      if next == [] {
        locked := false;
      }
    }
  }

  /* ---- whole runs ---- */

  /** The lock among its users. `transit` holds the grants not yet turned into a guard; `arrived`,
      `granted` and `cancelled` record the history of the queue. */
  datatype World = World(
    lock: Lock,
    transit: set<Id>,
    guards: set<Id>,
    next: Id,
    sleepers: nat,
    woken: nat,
    notifiers: nat,
    arrived: seq<Id>,
    granted: seq<Id>,
    cancelled: set<Id>)

  const INITIAL := World(Lock(false, []), {}, {}, 0, 0, 0, 0, [], [], {})

  datatype Step =
    | Suspend           // a fresh awaiter is awaited
    | Resume(w: Id)     // a granted awaiter's coroutine is resumed
    | Destroy(w: Id)    // an awaiter's frame is destroyed
    | Drop(h: Id)       // a guard is destroyed
    | Block             // a thread calls the blocking lock
    | Notify            // an unlocker reaches its notification
    | Spurious          // a blocked thread wakes by itself
    | Recheck           // a woken thread evaluates its condition again

  /** The blocking lock's condition, evaluated under the mutex. */
  function TryBlocking(w: World): World {
    if !w.lock.locked && w.lock.queue == []
    then w.(lock := w.lock.(locked := true), guards := w.guards + {w.next}, next := w.next + 1)
    else w.(sleepers := w.sleepers + 1)
  }

  function DropGuard(w: World, h: Id): World {
    var v := w.(lock := Unlock(w.lock), guards := w.guards - {h});
    if w.lock.queue != []
    then v.(transit := w.transit + {w.lock.queue[0]}, granted := w.granted + [w.lock.queue[0]])
    else v.(notifiers := w.notifiers + 1)
  }

  function Next(w: World, step: Step): World {
    match step
    case Suspend =>
      var v := w.(lock := TryLockOrEnqueue(w.lock, w.next), next := w.next + 1);
      if w.lock.locked then v.(arrived := w.arrived + [w.next]) else v.(transit := w.transit + {w.next})
    case Resume(x) =>
      if x in w.transit then w.(transit := w.transit - {x}, guards := w.guards + {x}) else w
    case Destroy(x) =>
      w.(lock := Cancel(w.lock, x), transit := w.transit - {x},
         cancelled := if x in w.lock.queue then w.cancelled + {x} else w.cancelled)
    case Drop(h) => if h in w.guards then DropGuard(w, h) else w
    case Block => TryBlocking(w)
    case Notify =>
      if w.notifiers == 0 then w
      else if w.sleepers == 0 then w.(notifiers := w.notifiers - 1)
      else w.(notifiers := w.notifiers - 1, sleepers := w.sleepers - 1, woken := w.woken + 1)
    case Spurious => if w.sleepers == 0 then w else w.(sleepers := w.sleepers - 1, woken := w.woken + 1)
    case Recheck => if w.woken == 0 then w else TryBlocking(w.(woken := w.woken - 1))
  }

  function Run(w: World, steps: seq<Step>): World {
    if steps == [] then w else Next(Run(w, steps[..|steps| - 1]), steps[|steps| - 1])
  }

  /** No step of the run destroys an awaiter whose grant is in transit. */
  predicate GrantsResumed(w: World, steps: seq<Step>) {
    steps == [] || (
      var before := Run(w, steps[..|steps| - 1]);
      GrantsResumed(w, steps[..|steps| - 1]) &&
      (steps[|steps| - 1].Destroy? ==> steps[|steps| - 1].w !in before.transit))
  }

  /** Exactly one guard or one grant while locked, none while unlocked; no awaiter left behind. */
  predicate Exclusive(w: World) {
    |w.transit| + |w.guards| == (if w.lock.locked then 1 else 0) &&
    (!w.lock.locked ==> w.lock.queue == [])
  }

  /** The awaiters not cancelled leave in the order in which they came. */
  ghost predicate InOrder(w: World) {
    Kept(w.arrived, w.cancelled) == w.granted + w.lock.queue && Distinct(w.granted + w.lock.queue)
  }

  ghost predicate Fresh(w: World) {
    (forall x :: x in w.lock.queue || x in w.granted ==> x < w.next) &&
    (forall x :: x in w.transit || x in w.guards || x in w.cancelled ==> x < w.next) &&
    (forall x :: x in w.lock.queue ==> x !in w.transit && x !in w.guards)
  }

  /** A blocked thread and a free lock: a notification or a woken thread is on its way. */
  predicate NoLostWakeUp(w: World) {
    !w.lock.locked && w.sleepers > 0 ==> w.notifiers > 0 || w.woken > 0
  }

  ghost predicate Inv(w: World) { Exclusive(w) && InOrder(w) && Fresh(w) && NoLostWakeUp(w) }

  lemma ArriveInOrder(w: World, x: Id)
    requires InOrder(w) && x !in w.cancelled && x !in w.lock.queue && x !in w.granted
    ensures InOrder(w.(lock := w.lock.(queue := w.lock.queue + [x]), arrived := w.arrived + [x]))
  {
    assert (w.arrived + [x])[..|w.arrived|] == w.arrived;
    var all := w.granted + w.lock.queue;
    assert x !in all;
    assert w.granted + (w.lock.queue + [x]) == all + [x];
  }

  lemma SuspendKeeps(w: World)
    requires Inv(w)
    ensures Inv(Next(w, Suspend))
  {
    hide Kept, Distinct;
    if w.lock.locked {
      ArriveInOrder(w, w.next);
    }
  }

  lemma ResumeKeeps(w: World, x: Id)
    requires Inv(w)
    ensures Inv(Next(w, Resume(x)))
  {
    hide Kept;
    if x in w.transit {
      assert w.guards == {} by {
        assert |w.transit| >= 1;
      }
      assert |w.transit - {x}| == |w.transit| - 1;
    }
  }

  /** Destroying an awaiter keeps the invariant exactly when its grant is not in transit. */
  lemma DestroyKeepsIff(w: World, x: Id)
    requires Inv(w)
    ensures Inv(Next(w, Destroy(x))) <==> x !in w.transit
  {
    var v := Next(w, Destroy(x));
    if x in w.transit {
      assert |v.transit| < |w.transit|;
    } else {
      assert v.transit == w.transit;
      KeptMembers(w.lock.queue, {x});
      if x in w.lock.queue {
        QueueCancelled(w, x);
      } else {
        KeptAll(w.lock.queue, {x});
      }
    }
  }

  lemma QueueCancelled(w: World, x: Id)
    requires InOrder(w) && x in w.lock.queue
    ensures InOrder(w.(lock := Cancel(w.lock, x), cancelled := w.cancelled + {x}))
  {
    hide Kept, Distinct;
    KeptTwice(w.arrived, w.cancelled, {x});
    KeptAppend(w.granted, w.lock.queue, {x});
    QueuedNotGranted(w, x);
    KeptAll(w.granted, {x});
    KeptDistinct(w.granted + w.lock.queue, {x});
  }

  lemma QueuedNotGranted(w: World, x: Id)
    requires InOrder(w) && x in w.lock.queue
    ensures x !in w.granted
  {
    hide Kept;
    var i :| 0 <= i < |w.lock.queue| && w.lock.queue[i] == x;
    var all := w.granted + w.lock.queue;
    forall j | 0 <= j < |w.granted|
      ensures w.granted[j] != x
    {
      assert all[j] != all[|w.granted| + i];
    }
  }

  lemma DropKeeps(w: World, h: Id)
    requires Inv(w)
    ensures Inv(Next(w, Drop(h)))
  {
    hide Kept, Distinct;
    if h in w.guards {
      assert w.guards == {h} && w.transit == {} by {
        assert w.guards - {h} == {} by { assert |w.guards - {h}| == |w.guards| - 1; }
        assert |w.transit| == 0;
      }
      assert w.guards - {h} == {};
      if w.lock.queue != [] {
        HandOver(w);
        var first, rest := w.lock.queue[0], w.lock.queue[1..];
        assert forall x :: x in rest ==> x in w.lock.queue && x != first;
        assert forall x :: x in w.granted + [first] ==> x in w.granted || x == first;
        assert first in w.lock.queue;
        var v := Next(w, Drop(h));
        assert v.transit == {first} && v.guards == {};
        assert v.granted + v.lock.queue == w.granted + w.lock.queue;
        assert Fresh(v);
      }
    }
  }

  lemma HandOver(w: World)
    requires InOrder(w) && Fresh(w) && w.lock.queue != []
    ensures var first, rest := w.lock.queue[0], w.lock.queue[1..];
            w.granted + [first] + rest == w.granted + w.lock.queue && first !in rest
  {
    var all := w.granted + w.lock.queue;
    forall j | 1 <= j < |w.lock.queue|
      ensures w.lock.queue[j] != w.lock.queue[0]
    {
      assert all[|w.granted| + j] == w.lock.queue[j] && all[|w.granted|] == w.lock.queue[0];
    }
  }

  /** The blocking lock takes a free lock, whose queue is empty, or goes to sleep. */
  lemma BlockingKeeps(w: World)
    requires Exclusive(w) && InOrder(w) && Fresh(w)
    ensures Inv(TryBlocking(w))
  {
    hide Kept, Distinct;
    if !w.lock.locked {
      assert |w.guards| == 0;
      assert w.guards + {w.next} == {w.next};
    }
  }

  lemma WakingKeeps(w: World, step: Step)
    requires Inv(w) && (step.Notify? || step.Spurious?)
    ensures Inv(Next(w, step))
  {
    hide Kept, Distinct;
  }

  lemma StepKeeps(w: World, step: Step)
    requires Inv(w) && (step.Destroy? ==> step.w !in w.transit)
    ensures Inv(Next(w, step))
  {
    hide Exclusive, InOrder, Fresh, NoLostWakeUp, Kept;
    match step
    case Suspend => SuspendKeeps(w);
    case Resume(x) => ResumeKeeps(w, x);
    case Destroy(x) => DestroyKeepsIff(w, x);
    case Drop(h) => DropKeeps(w, h);
    case Block => BlockingKeeps(w);
    case Recheck => if w.woken > 0 { OneLessWoken(w); BlockingKeeps(w.(woken := w.woken - 1)); }
    case _ => WakingKeeps(w, step);
  }

  /** A woken thread about to look again: all but the wake-up promise, which it is about to meet. */
  lemma OneLessWoken(w: World)
    requires Inv(w) && w.woken > 0
    ensures var v := w.(woken := w.woken - 1); Exclusive(v) && InOrder(v) && Fresh(v)
  {
    hide Kept, Distinct;
  }

  /** Every state of every run in which granted awaiters are resumed. */
  lemma {:induction false} EveryRun(steps: seq<Step>)
    requires GrantsResumed(INITIAL, steps)
    ensures Inv(Run(INITIAL, steps))
  {
    if steps != [] {
      EveryRun(steps[..|steps| - 1]);
      StepKeeps(Run(INITIAL, steps[..|steps| - 1]), steps[|steps| - 1]);
    }
  }

  /** The invariant holds in every state of a run exactly when no step of it destroys an awaiter whose
      grant is in transit. */
  lemma {:induction false} ThroughoutIff(steps: seq<Step>)
    ensures (forall n :: 0 <= n <= |steps| ==> Inv(Run(INITIAL, steps[..n]))) <==> GrantsResumed(INITIAL, steps)
  {
    hide Inv, Next;
    assert steps[..|steps|] == steps;
    EveryRun([]);
    if steps != [] {
      var init, last := steps[..|steps| - 1], steps[|steps| - 1];
      ThroughoutIff(init);
      assert forall n :: 0 <= n <= |init| ==> init[..n] == steps[..n];
      assert forall n :: 0 <= n <= |init| ==> (Inv(Run(INITIAL, init[..n])) <==> Inv(Run(INITIAL, steps[..n])));
      assert init[..|init|] == init;
      var before := Run(INITIAL, init);
      assert Run(INITIAL, steps[..|steps|]) == Next(before, last);
      if GrantsResumed(INITIAL, init) {
        assert Inv(Run(INITIAL, init[..|init|]));
        if last.Destroy? {
          DestroyKeepsIff(before, last.w);
        } else {
          StepKeeps(before, last);
        }
      }
    }
  }

  /** Mutual exclusion: two live guards are the same guard, and no grant is then in transit. */
  lemma OneHolder(steps: seq<Step>, g: Id, h: Id)
    requires GrantsResumed(INITIAL, steps)
    requires var w := Run(INITIAL, steps); g in w.guards && h in w.guards + w.transit
    ensures var w := Run(INITIAL, steps); g == h && w.lock.locked && w.transit == {}
  {
    EveryRun(steps);
    var w := Run(INITIAL, steps);
    assert |w.guards - {g}| == |w.guards| - 1;
    assert |w.transit| == 0;
    assert w.guards - {g} == {};
  }

  /** The lock never rests with an awaiter queued: somebody holds it, or holds a grant. */
  lemma QueuedHasHolder(steps: seq<Step>, x: Id)
    requires GrantsResumed(INITIAL, steps) && x in Run(INITIAL, steps).lock.queue
    ensures var w := Run(INITIAL, steps); w.guards + w.transit != {}
  {
    hide Run, InOrder, Fresh, NoLostWakeUp, GrantsResumed;
    EveryRun(steps);
    var w := Run(INITIAL, steps);
    assert |w.guards + w.transit| == 1 by {
      if |w.guards| == 0 {
        assert w.guards + w.transit == w.transit;
      } else {
        assert w.guards + w.transit == w.guards;
      }
    }
  }

  /** Two awaiters granted from the queue were granted in order of arrival. */
  lemma GrantedInArrivalOrder(steps: seq<Step>, i: nat, j: nat)
    requires GrantsResumed(INITIAL, steps)
    requires i < j < |Run(INITIAL, steps).granted|
    ensures var w := Run(INITIAL, steps);
            exists a, b :: 0 <= a < b < |w.arrived| && w.arrived[a] == w.granted[i] && w.arrived[b] == w.granted[j]
  {
    EveryRun(steps);
    var w := Run(INITIAL, steps);
    var a, b := KeptPositions(w.arrived, w.cancelled, i, j);
  }

  lemma {:induction false} KeptPositions(s: seq<Id>, c: set<Id>, i: nat, j: nat) returns (a: nat, b: nat)
    requires i < j < |Kept(s, c)|
    ensures a < b < |s| && s[a] == Kept(s, c)[i] && s[b] == Kept(s, c)[j]
  {
    var front := s[..|s| - 1];
    if j < |Kept(front, c)| {
      a, b := KeptPositions(front, c, i, j);
    } else {
      a := KeptPosition(front, c, i);
      b := |s| - 1;
    }
  }

  lemma {:induction false} KeptPosition(s: seq<Id>, c: set<Id>, i: nat) returns (a: nat)
    requires i < |Kept(s, c)|
    ensures a < |s| && s[a] == Kept(s, c)[i]
  {
    var front := s[..|s| - 1];
    if i < |Kept(front, c)| {
      a := KeptPosition(front, c, i);
    } else {
      a := |s| - 1;
    }
  }

  lemma RunOne(w: World, steps: seq<Step>, step: Step)
    ensures Run(w, steps + [step]) == Next(Run(w, steps), step)
  {
    assert (steps + [step])[..|steps|] == steps;
  }

  /** The first awaiter holds the lock, a second queues behind it, and the guard hands the lock over. */
  lemma HandedOver()
    ensures Run(INITIAL, [Suspend, Resume(0), Suspend, Drop(0)])
         == World(Lock(true, []), {1}, {}, 2, 0, 0, 0, [1], [1], {})
  {
    hide Run;
    var s1: seq<Step> := [Suspend];
    var s2, s3 := s1 + [Resume(0)], s1 + [Resume(0)] + [Suspend];
    RunNothing(INITIAL);
    RunOne(INITIAL, [], Suspend);
    RunOne(INITIAL, s1, Resume(0));
    RunOne(INITIAL, s2, Suspend);
    RunOne(INITIAL, s3, Drop(0));
    assert [] + [Suspend] == s1 && s3 + [Drop(0)] == [Suspend, Resume(0), Suspend, Drop(0)];
    assert Run(INITIAL, s1) == World(Lock(true, []), {0}, {}, 1, 0, 0, 0, [], [], {});
    assert Run(INITIAL, s2) == World(Lock(true, []), {}, {0}, 1, 0, 0, 0, [], [], {});
    assert Run(INITIAL, s3) == World(Lock(true, [1]), {}, {0}, 2, 0, 0, 0, [1], [], {});
  }

  lemma RunNothing(w: World)
    ensures Run(w, []) == w
  {
  }

  /** Why a grant must be resumed: an awaiter that was handed the lock and is destroyed before it is
      resumed leaves the lock taken for good, with nobody to release it and the next awaiter queued. */
  lemma LostGrantExample()
    ensures var w := Run(INITIAL, [Suspend, Resume(0), Suspend, Drop(0), Destroy(1), Suspend]);
            w.lock.locked && w.lock.queue == [2] && w.guards == {} && w.transit == {}
  {
    hide Run;
    HandedOver();
    var s4 := [Suspend, Resume(0), Suspend, Drop(0)];
    RunOne(INITIAL, s4, Destroy(1));
    RunOne(INITIAL, s4 + [Destroy(1)], Suspend);
    assert s4 + [Destroy(1)] + [Suspend] == [Suspend, Resume(0), Suspend, Drop(0), Destroy(1), Suspend];
    var w := Run(INITIAL, s4 + [Destroy(1)]);
    assert w.lock == Lock(true, []) && w.transit == {} && w.guards == {};
  }

  /* ---- the lock is passed on ---- */

  lemma {:induction false} RunThen(w: World, a: seq<Step>, b: seq<Step>)
    ensures Run(w, a + b) == Run(Run(w, a), b)
    decreases |b|
  {
    if b == [] {
      assert a + b == a;
    } else {
      RunThen(w, a, b[..|b| - 1]);
      assert (a + b)[..|a + b| - 1] == a + b[..|b| - 1];
    }
  }

  /** The holder drops its guard and the oldest awaiter is resumed, until nobody is queued. */
  function Turns(h: Id, queue: seq<Id>): seq<Step>
    decreases |queue|
  {
    if queue == [] then [Drop(h)] else [Drop(h), Resume(queue[0])] + Turns(queue[0], queue[1..])
  }

  lemma OnlyHolder(w: World, h: Id)
    requires Exclusive(w) && h in w.guards
    ensures w.guards == {h} && w.transit == {} && w.lock.locked
  {
    assert |w.guards - {h}| == |w.guards| - 1;
    assert |w.transit| == 0;
    assert w.guards - {h} == {};
  }

  lemma OneTurn(w: World, h: Id)
    requires Inv(w) && h in w.guards && w.lock.queue != []
    ensures var x, v := w.lock.queue[0], Run(w, [Drop(h), Resume(w.lock.queue[0])]);
            && Inv(v) && x in v.guards && v.lock.queue == w.lock.queue[1..] && v.granted == w.granted + [x]
  {
    hide InOrder, Fresh, NoLostWakeUp, Run;
    var x := w.lock.queue[0];
    OnlyHolder(w, h);
    DropKeeps(w, h);
    ResumeKeeps(Next(w, Drop(h)), x);
    RunNothing(w);
    RunOne(w, [], Drop(h));
    RunOne(w, [Drop(h)], Resume(x));
    assert [] + [Drop(h)] == [Drop(h)] && [Drop(h)] + [Resume(x)] == [Drop(h), Resume(x)];
  }

  /** If every holder drops its guard and is followed by the one it hands over to, then everyone queued is
      granted the lock, in order, and the lock comes free. */
  lemma {:induction false} EveryoneIsServed(w: World, h: Id)
    requires Inv(w) && h in w.guards
    ensures var v := Run(w, Turns(h, w.lock.queue));
            && Inv(v) && v.granted == w.granted + w.lock.queue
            && v.lock == Lock(false, []) && v.guards == {} && v.transit == {}
    decreases |w.lock.queue|
  {
    hide InOrder, Fresh, NoLostWakeUp, Run;
    OnlyHolder(w, h);
    if w.lock.queue == [] {
      DropKeeps(w, h);
      RunNothing(w);
      RunOne(w, [], Drop(h));
      assert [] + [Drop(h)] == [Drop(h)];
      assert w.guards - {h} == {};
    } else {
      var x, rest := w.lock.queue[0], w.lock.queue[1..];
      OneTurn(w, h);
      RunThen(w, [Drop(h), Resume(x)], Turns(x, rest));
      EveryoneIsServed(Run(w, [Drop(h), Resume(x)]), x);
      assert w.granted + [x] + rest == w.granted + w.lock.queue;
    }
  }

  /** While the lock is free a blocked thread gets it by one or two of the steps that are due: a woken
      thread looks again, after a notification if none is awake. */
  lemma BlockedGetsLock(w: World)
    requires Inv(w) && !w.lock.locked && w.sleepers > 0
    ensures var v := Run(w, if w.woken > 0 then [Recheck] else [Notify, Recheck]);
            && v.lock.locked && v.guards == {w.next} && v.sleepers + v.woken == w.sleepers + w.woken - 1
  {
    hide Run;
    assert w.guards == {} by { assert |w.guards| == 0; }
    RunNothing(w);
    RunOne(w, [], Recheck);
    RunOne(w, [], Notify);
    RunOne(w, [Notify], Recheck);
    assert [] + [Recheck] == [Recheck] && [] + [Notify] == [Notify] && [Notify] + [Recheck] == [Notify, Recheck];
    assert w.guards + {w.next} == {w.next};
  }
}
