/** One scheduler worker: producers push tasks onto a lock-free list, the worker moves them into its
    timer set, fires them and, at the end, clears everything. Atomics are sequentially consistent;
    every atomic access and every worker loop turn is one step. */
module FastScheduler {
  import opened Common

  /** A task object; also its address, which breaks ties between deadlines. */
  type Task = int

  datatype Ptr = Nil | StoppedMark | To(task: Task)

  /* ---- deadlines in microseconds ---- */

  /** Integer division as C++ has it, toward zero. */
  function Truncated(a: int, b: int): int
    requires b > 0
  {
    if a >= 0 then a / b else -(-a / b)
  }

  /** `quantize_`. */
  function Quantize(deadline: int): int {
    Truncated(deadline + 1000 - 1, 1000) * 1000
  }

  /** A quantised deadline is a whole millisecond and never earlier than the one asked for. It is less
      than a millisecond later exactly when no negative value was rounded away from it. */
  lemma QuantizeBounds(deadline: int)
    ensures deadline <= Quantize(deadline) && Quantize(deadline) % 1000 == 0
    ensures Quantize(deadline) < deadline + 1000 <==> deadline >= -999 || (deadline + 999) % 1000 == 0
    ensures Quantize(deadline) <= deadline + 1998
  {
  }

  /* ---- the worker's state ---- */

  /** A producer between its first load of the list head and its exit. */
  datatype Stage =
    | Loaded(seen: Ptr)
    | Linked(seen: Ptr)

  datatype Role =
    | Idle
    | Draining(cur: Ptr)
    | Processing(now: int)
    | Firing(task: Task, now: int)
    | Clearing(cur: Ptr)
    | ClearingTimers
    | Done

  datatype Fired = Fired(task: Task, requested: int, now: int)

  datatype World = World(
    head: Ptr,
    link: map<Task, Ptr>,
    timers: seq<Task>,
    deadline: map<Task, int>,
    requested: map<Task, int>,
    armed: set<Task>,
    free: set<Task>,
    producers: map<Task, Stage>,
    role: Role,
    log: seq<Fired>)

  function Link(link: map<Task, Ptr>, t: Task): Ptr { if t in link then link[t] else Nil }

  function Time(times: map<Task, int>, t: Task): int { if t in times then times[t] else 0 }

  /** The timer set's order: deadline, then address. */
  predicate Before(deadline: map<Task, int>, a: Task, b: Task) {
    Time(deadline, a) < Time(deadline, b) || (Time(deadline, a) == Time(deadline, b) && a <= b)
  }

  function Insert(timers: seq<Task>, deadline: map<Task, int>, t: Task): seq<Task> {
    if timers == [] || Before(deadline, t, timers[0]) then [t] + timers
    else [timers[0]] + Insert(timers[1..], deadline, t)
  }

  /** `release_task_`. */
  function Release(w: World, t: Task): World {
    w.(link := w.link[t := Nil], armed := w.armed - {t}, free := w.free + {t})
  }

  function Initial(tasks: set<Task>): World {
    World(Nil, map[], [], map[], map[], {}, tasks, map[], Idle, [])
  }

  datatype Step =
    | Schedule(t: Task, when: int, live: bool)   // fill the task in and load the head
    | Prepare(t: Task)                           // stopped: release; else write the task's link
    | Swap(t: Task, spurious: bool)              // compare-exchange the head
    | BeginDrain
    | DrainOne
    | BeginProcess(now: int)
    | Fire
    | Return(next: Option<int>)                  // the callback's answer, or none without a callback
    | BeginClear
    | ClearOne

  function DrainTurn(w: World): World
    requires w.role.Draining?
  {
    match w.role.cur
    case To(t) =>
      w.(link := w.link[t := Nil], timers := Insert(w.timers, w.deadline, t),
         role := Draining(Link(w.link, t)))
    case _ => w.(role := Idle)
  }

  function FireTurn(w: World): World
    requires w.role.Processing?
  {
    if w.timers == [] || Time(w.deadline, w.timers[0]) > w.role.now then w.(role := Idle)
    else
      var t := w.timers[0];
      w.(timers := w.timers[1..], role := Firing(t, w.role.now),
         log := if t in w.armed then w.log + [Fired(t, Time(w.requested, t), w.role.now)] else w.log)
  }

  function ReturnTurn(w: World, next: Option<int>): World
    requires w.role.Firing?
  {
    var t, v := w.role.task, w.(role := Processing(w.role.now));
    if next.Some? && t in w.armed then
      var deadline := w.deadline[t := Quantize(next.value)];
      v.(requested := w.requested[t := next.value], deadline := deadline,
         timers := Insert(w.timers, deadline, t))
    else Release(v, t)
  }

  function ClearTurn(w: World): World
    requires w.role.Clearing? || w.role.ClearingTimers?
  {
    if w.role.Clearing? then
      match w.role.cur
      case To(t) => Release(w, t).(role := Clearing(Link(w.link, t)))
      case _ => w.(role := ClearingTimers)
    else if w.timers == [] then w.(role := Done)
    else Release(w.(timers := w.timers[1..]), w.timers[0])
  }

  function ScheduleTurn(w: World, t: Task, when: int, live: bool): World {
    w.(free := w.free - {t}, producers := w.producers[t := Loaded(w.head)],
       deadline := w.deadline[t := Quantize(when)], requested := w.requested[t := when],
       armed := if live then w.armed + {t} else w.armed - {t})
  }

  function LinkTurn(w: World, t: Task): World
    requires t in w.producers
  {
    var seen := w.producers[t].seen;
    if seen == StoppedMark then Release(w.(producers := w.producers - {t}), t)
    else w.(link := w.link[t := seen], producers := w.producers[t := Linked(seen)])
  }

  function SwapTurn(w: World, t: Task, spurious: bool): World
    requires t in w.producers
  {
    if w.head == w.producers[t].seen && !spurious
    then w.(head := To(t), producers := w.producers - {t})
    else w.(producers := w.producers[t := Loaded(w.head)])
  }

  /** One step; a step that is not enabled changes nothing. A task is scheduled only while free. */
  function Next(w: World, step: Step): World {
    match step
    case Schedule(t, when, live) => if t in w.free then ScheduleTurn(w, t, when, live) else w
    case Prepare(t) => if t in w.producers && w.producers[t].Loaded? then LinkTurn(w, t) else w
    case Swap(t, spurious) => if t in w.producers && w.producers[t].Linked? then SwapTurn(w, t, spurious) else w
    case BeginDrain => if w.role.Idle? then w.(head := Nil, role := Draining(w.head)) else w
    case DrainOne => if w.role.Draining? then DrainTurn(w) else w
    case BeginProcess(now) => if w.role.Idle? then w.(role := Processing(now)) else w
    case Fire => if w.role.Processing? then FireTurn(w) else w
    case Return(next) => if w.role.Firing? then ReturnTurn(w, next) else w
    case BeginClear => if w.role.Idle? then w.(head := StoppedMark, role := Clearing(w.head)) else w
    case ClearOne => if w.role.Clearing? || w.role.ClearingTimers? then ClearTurn(w) else w
  }

  function Run(w: World, steps: seq<Step>): World {
    if steps == [] then w else Next(Run(w, steps[..|steps| - 1]), steps[|steps| - 1])
  }

  /* ---- linked lists ---- */

  /** Following the links from `from` visits `list` and ends at null. */
  predicate Chain(link: map<Task, Ptr>, from: Ptr, list: seq<Task>)
    decreases |list|
  {
    if list == [] then from == Nil
    else from == To(list[0]) && Chain(link, Link(link, list[0]), list[1..])
  }

  /** Writing the link of a task outside the list leaves the list alone. */
  lemma {:induction false} ChainFrame(link: map<Task, Ptr>, from: Ptr, list: seq<Task>, t: Task, p: Ptr)
    requires Chain(link, from, list) && t !in list
    ensures Chain(link[t := p], from, list)
    decreases |list|
  {
    if list != [] {
      ChainFrame(link, Link(link, list[0]), list[1..], t, p);
    }
  }

  /* ---- the invariant ---- */

  function Bit(b: bool): nat { if b then 1 else 0 }

  function Times(s: seq<Task>, t: Task): nat { multiset(s)[t] }

  /** The lists of tasks reachable from the head and from the worker's cursor. */
  datatype Lists = Lists(pending: seq<Task>, taken: seq<Task>)

  /** In how many places a task is. */
  function Places(w: World, l: Lists, t: Task): nat {
    Bit(t in w.free) + Bit(t in w.producers) + Bit(w.role.Firing? && w.role.task == t)
    + Times(l.pending, t) + Times(l.taken, t) + Times(w.timers, t)
  }

  ghost predicate Conserved(w: World, l: Lists, tasks: set<Task>) {
    forall t :: Places(w, l, t) == Bit(t in tasks)
  }

  predicate Stopped(w: World) { w.role.Clearing? || w.role.ClearingTimers? || w.role.Done? }

  predicate Linkage(w: World, l: Lists) {
    (w.head == StoppedMark <==> Stopped(w)) &&
    (if Stopped(w) then l.pending == [] else Chain(w.link, w.head, l.pending)) &&
    (if w.role.Draining? || w.role.Clearing? then Chain(w.link, w.role.cur, l.taken) else l.taken == []) &&
    (w.role.Done? ==> w.timers == [])
  }

  /** A producer about to swap has written the head it saw into the task. */
  ghost predicate Prepared(w: World) {
    forall t :: t in w.producers && w.producers[t].Linked?
      ==> w.producers[t].seen != StoppedMark && Link(w.link, t) == w.producers[t].seen
  }

  predicate Sorted(timers: seq<Task>, deadline: map<Task, int>) {
    forall i, j :: 0 <= i < j < |timers| ==> Before(deadline, timers[i], timers[j])
  }

  ghost predicate Punctual(w: World) {
    (forall t :: Time(w.deadline, t) == Quantize(Time(w.requested, t))) &&
    (forall i :: 0 <= i < |w.log| ==> w.log[i].requested <= w.log[i].now)
  }

  /** A free task holds neither callback nor owner. */
  ghost predicate Disarmed(w: World) { forall t :: t in w.free ==> t !in w.armed }

  ghost predicate Inv(w: World, l: Lists, tasks: set<Task>) {
    Conserved(w, l, tasks) && Linkage(w, l) && Prepared(w) && Sorted(w.timers, w.deadline) && Punctual(w) && Disarmed(w)
  }

  lemma {:induction false} InsertAdds(timers: seq<Task>, deadline: map<Task, int>, t: Task)
    ensures multiset(Insert(timers, deadline, t)) == multiset(timers) + multiset{t}
  {
    if timers != [] && !Before(deadline, t, timers[0]) {
      InsertAdds(timers[1..], deadline, t);
      assert timers == [timers[0]] + timers[1..];
    }
  }

  lemma SortedCons(first: Task, rest: seq<Task>, deadline: map<Task, int>)
    requires Sorted(rest, deadline) && forall x :: x in rest ==> Before(deadline, first, x)
    ensures Sorted([first] + rest, deadline)
  {
  }

  lemma {:induction false} InsertSorts(timers: seq<Task>, deadline: map<Task, int>, t: Task)
    requires Sorted(timers, deadline)
    ensures Sorted(Insert(timers, deadline, t), deadline)
  {
    if timers == [] {
    } else if Before(deadline, t, timers[0]) {
      SortedCons(t, timers, deadline);
    } else {
      InsertSorts(timers[1..], deadline, t);
      InsertAdds(timers[1..], deadline, t);
      var rest := Insert(timers[1..], deadline, t);
      forall x | x in rest
        ensures Before(deadline, timers[0], x)
      {
        assert x in multiset(rest);
        assert x == t || x in timers[1..];
      }
      SortedCons(timers[0], rest, deadline);
    }
  }

  /** A deadline outside the timer set can change freely. */
  lemma SortedFrame(timers: seq<Task>, deadline: map<Task, int>, t: Task, d: int)
    requires Sorted(timers, deadline) && t !in timers
    ensures Sorted(timers, deadline[t := d])
  {
    var changed := deadline[t := d];
    assert forall i :: 0 <= i < |timers| ==> Time(changed, timers[i]) == Time(deadline, timers[i]);
  }

  lemma TimesMember(s: seq<Task>, t: Task)
    ensures Times(s, t) == 0 <==> t !in s
  {
    assert t in s <==> t in multiset(s);
  }

  lemma TimesTail(s: seq<Task>, t: Task)
    requires s != []
    ensures Times(s, t) == Times(s[1..], t) + Bit(t == s[0])
  {
    assert s == [s[0]] + s[1..];
    assert multiset(s) == multiset{s[0]} + multiset(s[1..]);
  }

  /* ---- one step ---- */

  function NextLists(w: World, l: Lists, step: Step): Lists {
    match step
    case Swap(t, spurious) =>
      if t in w.producers && w.producers[t].Linked? && w.head == w.producers[t].seen && !spurious
      then l.(pending := [t] + l.pending) else l
    case BeginDrain => if w.role.Idle? then Lists([], l.pending) else l
    case BeginClear => if w.role.Idle? then Lists([], l.pending) else l
    case DrainOne => if w.role.Draining? && l.taken != [] then l.(taken := l.taken[1..]) else l
    case ClearOne => if w.role.Clearing? && l.taken != [] then l.(taken := l.taken[1..]) else l
    case _ => l
  }

  /** A task in one place is in no other. */
  lemma Elsewhere(w: World, l: Lists, tasks: set<Task>, t: Task)
    requires Conserved(w, l, tasks)
    requires t in w.free || t in w.producers || (w.role.Firing? && w.role.task == t)
    ensures t in tasks && t !in l.pending && t !in l.taken && t !in w.timers
    ensures Bit(t in w.free) + Bit(t in w.producers) + Bit(w.role.Firing? && w.role.task == t) == 1
  {
    hide Times;
    assert Places(w, l, t) == Bit(t in tasks);
    TimesMember(l.pending, t);
    TimesMember(l.taken, t);
    TimesMember(w.timers, t);
  }

  lemma RequestKeepsPunctual(w: World, t: Task, when: int)
    requires Punctual(w)
    ensures Punctual(w.(requested := w.requested[t := when], deadline := w.deadline[t := Quantize(when)]))
  {
    hide Quantize;
    QuantizeBounds(when);
    var v := w.(requested := w.requested[t := when], deadline := w.deadline[t := Quantize(when)]);
    assert forall x :: x != t ==> Time(v.requested, x) == Time(w.requested, x);
  }

  lemma ScheduleKeeps(w: World, l: Lists, tasks: set<Task>, t: Task, when: int, live: bool)
    requires Inv(w, l, tasks) && t in w.free
    ensures Inv(ScheduleTurn(w, t, when, live), l, tasks)
  {
    hide Times, Chain, Sorted, Quantize;
    var v := ScheduleTurn(w, t, when, live);
    Elsewhere(w, l, tasks, t);
    assert Conserved(v, l, tasks) by {
      assert forall x :: Places(v, l, x) == Places(w, l, x);
    }
    SortedFrame(w.timers, w.deadline, t, Quantize(when));
    RequestKeepsPunctual(w, t, when);
  }

  lemma LinkKeeps(w: World, l: Lists, tasks: set<Task>, t: Task)
    requires Inv(w, l, tasks) && t in w.producers && w.producers[t].Loaded?
    ensures Inv(LinkTurn(w, t), l, tasks)
  {
    hide Times, Chain, Sorted;
    var v := LinkTurn(w, t);
    Elsewhere(w, l, tasks, t);
    assert Conserved(v, l, tasks) by {
      assert forall x :: Places(v, l, x) == Places(w, l, x);
    }
    var p := Link(v.link, t);
    if !Stopped(w) {
      ChainFrame(w.link, w.head, l.pending, t, p);
    }
    if w.role.Draining? || w.role.Clearing? {
      ChainFrame(w.link, w.role.cur, l.taken, t, p);
    }
  }

  lemma SwapKeeps(w: World, l: Lists, tasks: set<Task>, t: Task, spurious: bool)
    requires Inv(w, l, tasks) && t in w.producers && w.producers[t].Linked?
    ensures Inv(SwapTurn(w, t, spurious), NextLists(w, l, Swap(t, spurious)), tasks)
  {
    hide Times, Sorted;
    var v, m := SwapTurn(w, t, spurious), NextLists(w, l, Swap(t, spurious));
    assert Conserved(v, m, tasks) by {
      if m != l {
        forall x
          ensures Times(m.pending, x) == Times(l.pending, x) + Bit(x == t)
        {
          TimesTail(m.pending, x);
        }
      }
      assert forall x :: Places(v, m, x) == Places(w, l, x);
    }
  }

  lemma TakeKeeps(w: World, l: Lists, tasks: set<Task>, clear: bool)
    requires Inv(w, l, tasks) && w.role.Idle?
    ensures Inv(if clear then w.(head := StoppedMark, role := Clearing(w.head))
                else w.(head := Nil, role := Draining(w.head)), Lists([], l.pending), tasks)
  {
    hide Sorted;
    var v := if clear then w.(head := StoppedMark, role := Clearing(w.head))
             else w.(head := Nil, role := Draining(w.head));
    assert forall x :: Places(v, Lists([], l.pending), x) == Places(w, l, x);
  }

  lemma DrainPlaces(w: World, l: Lists, t: Task, x: Task)
    requires w.role == Draining(To(t)) && l.taken != [] && l.taken[0] == t
    ensures Places(DrainTurn(w), l.(taken := l.taken[1..]), x) == Places(w, l, x)
  {
    hide Insert;
    InsertAdds(w.timers, w.deadline, t);
    TimesTail(l.taken, x);
  }

  lemma DrainKeeps(w: World, l: Lists, tasks: set<Task>)
    requires Inv(w, l, tasks) && w.role.Draining?
    ensures Inv(DrainTurn(w), NextLists(w, l, DrainOne), tasks)
  {
    hide Sorted, Insert, Places;
    var v, m := DrainTurn(w), NextLists(w, l, DrainOne);
    if w.role.cur.To? {
      var t := w.role.cur.task;
      TakenFirst(w, l, tasks, t);
      InsertSorts(w.timers, w.deadline, t);
      ChainFrame(w.link, w.head, l.pending, t, Nil);
      ChainFrame(w.link, Link(w.link, t), l.taken[1..], t, Nil);
      forall x
        ensures Places(v, m, x) == Places(w, l, x)
      {
        DrainPlaces(w, l, t, x);
      }
    } else {
      forall x
        ensures Places(v, m, x) == Places(w, l, x)
      {
        SamePlaces(w, v, l, x);
      }
    }
  }

  /** A change of the worker's role alone moves no task. */
  lemma SamePlaces(w: World, v: World, l: Lists, x: Task)
    requires v == w.(role := v.role) && !w.role.Firing? && !v.role.Firing?
    ensures Places(v, l, x) == Places(w, l, x)
  {
  }

  /** The task at the head of the taken list is nowhere else. */
  lemma TakenFirst(w: World, l: Lists, tasks: set<Task>, t: Task)
    requires Conserved(w, l, tasks) && l.taken != [] && l.taken[0] == t
    ensures t in tasks && t !in l.pending && t !in l.taken[1..] && t !in w.timers && t !in w.producers && t !in w.free
    ensures !(w.role.Firing? && w.role.task == t)
  {
    hide Times;
    assert Places(w, l, t) == Bit(t in tasks);
    TimesTail(l.taken, t);
    TimesMember(l.pending, t);
    TimesMember(l.taken[1..], t);
    TimesMember(w.timers, t);
  }

  lemma TimerFirst(w: World, l: Lists, tasks: set<Task>, t: Task)
    requires Conserved(w, l, tasks) && w.timers != [] && w.timers[0] == t
    ensures t in tasks && t !in l.pending && t !in l.taken && t !in w.timers[1..] && t !in w.producers && t !in w.free
    ensures !(w.role.Firing? && w.role.task == t)
  {
    hide Times;
    assert Places(w, l, t) == Bit(t in tasks);
    TimesTail(w.timers, t);
    TimesMember(l.pending, t);
    TimesMember(l.taken, t);
    TimesMember(w.timers[1..], t);
  }

  lemma FireKeeps(w: World, l: Lists, tasks: set<Task>)
    requires Inv(w, l, tasks) && w.role.Processing?
    ensures Inv(FireTurn(w), l, tasks)
  {
    hide Times, Chain;
    var v := FireTurn(w);
    if v.role.Firing? {
      TimerFirst(w, l, tasks, v.role.task);
      forall x
        ensures Places(v, l, x) == Places(w, l, x)
      {
        TimesTail(w.timers, x);
      }
    }
    assert Conserved(v, l, tasks) by {
      assert forall x :: Places(v, l, x) == Places(w, l, x);
    }
  }

  lemma ReturnPlaces(w: World, l: Lists, next: Option<int>, x: Task)
    requires w.role.Firing? && w.role.task !in w.free
    ensures Places(ReturnTurn(w, next), l, x) == Places(w, l, x)
  {
    hide Insert, Quantize;
    var t := w.role.task;
    if next.Some? && t in w.armed {
      InsertAdds(w.timers, w.deadline[t := Quantize(next.value)], t);
    }
  }

  lemma ReturnKeeps(w: World, l: Lists, tasks: set<Task>, next: Option<int>)
    requires Inv(w, l, tasks) && w.role.Firing?
    ensures Inv(ReturnTurn(w, next), l, tasks)
  {
    hide Chain, Sorted, Insert, Quantize, Places;
    var v, t := ReturnTurn(w, next), w.role.task;
    Elsewhere(w, l, tasks, t);
    if next.Some? && t in w.armed {
      var d := Quantize(next.value);
      SortedFrame(w.timers, w.deadline, t, d);
      InsertSorts(w.timers, w.deadline[t := d], t);
      RequestKeepsPunctual(w, t, next.value);
    } else {
      ChainFrame(w.link, w.head, l.pending, t, Nil);
    }
    forall x
      ensures Places(v, l, x) == Places(w, l, x)
    {
      ReturnPlaces(w, l, next, x);
    }
  }

  lemma ClearPlaces(w: World, l: Lists, t: Task, x: Task)
    requires t !in w.free && (w.role.Clearing? || w.role.ClearingTimers?)
    requires if w.role.Clearing? then w.role.cur == To(t) && l.taken != [] && l.taken[0] == t
             else w.timers != [] && w.timers[0] == t
    ensures Places(ClearTurn(w), NextLists(w, l, ClearOne), x) == Places(w, l, x)
  {
    hide Times;
    if w.role.Clearing? {
      TimesTail(l.taken, x);
    } else {
      TimesTail(w.timers, x);
    }
  }

  lemma ClearListKeeps(w: World, l: Lists, tasks: set<Task>)
    requires Inv(w, l, tasks) && w.role.Clearing?
    ensures Inv(ClearTurn(w), NextLists(w, l, ClearOne), tasks)
  {
    hide Places, Sorted;
    var v, m := ClearTurn(w), NextLists(w, l, ClearOne);
    if w.role.cur.To? {
      var t := w.role.cur.task;
      TakenFirst(w, l, tasks, t);
      ChainFrame(w.link, Link(w.link, t), l.taken[1..], t, Nil);
      forall x
        ensures Places(v, m, x) == Places(w, l, x)
      {
        ClearPlaces(w, l, t, x);
      }
    } else {
      forall x
        ensures Places(v, m, x) == Places(w, l, x)
      {
        SamePlaces(w, v, l, x);
      }
    }
  }

  lemma ClearTimersKeeps(w: World, l: Lists, tasks: set<Task>)
    requires Inv(w, l, tasks) && w.role.ClearingTimers?
    ensures Inv(ClearTurn(w), l, tasks)
  {
    hide Places, Chain;
    var v := ClearTurn(w);
    if w.timers != [] {
      TimerFirst(w, l, tasks, w.timers[0]);
    }
    forall x
      ensures Places(v, l, x) == Places(w, l, x)
    {
      if w.timers == [] {
        SamePlaces(w, v, l, x);
      } else {
        ClearPlaces(w, l, w.timers[0], x);
      }
    }
  }

  lemma StepKeeps(w: World, l: Lists, tasks: set<Task>, step: Step)
    requires Inv(w, l, tasks)
    ensures Inv(Next(w, step), NextLists(w, l, step), tasks)
  {
    hide Conserved, Linkage, Prepared, Sorted, Punctual, Disarmed;
    if Next(w, step) != w || NextLists(w, l, step) != l {
      match step
      case Schedule(t, when, live) => ScheduleKeeps(w, l, tasks, t, when, live);
      case Prepare(t) => LinkKeeps(w, l, tasks, t);
      case Swap(t, spurious) => SwapKeeps(w, l, tasks, t, spurious);
      case BeginDrain => TakeKeeps(w, l, tasks, false);
      case DrainOne => DrainKeeps(w, l, tasks);
      case BeginProcess(now) => ProcessKeeps(w, l, tasks, now);
      case Fire => FireKeeps(w, l, tasks);
      case Return(next) => ReturnKeeps(w, l, tasks, next);
      case BeginClear => TakeKeeps(w, l, tasks, true);
      case ClearOne => if w.role.Clearing? { ClearListKeeps(w, l, tasks); } else { ClearTimersKeeps(w, l, tasks); }
    }
  }

  lemma ProcessKeeps(w: World, l: Lists, tasks: set<Task>, now: int)
    requires Inv(w, l, tasks) && w.role.Idle?
    ensures Inv(w.(role := Processing(now)), l, tasks)
  {
    hide Times, Chain, Sorted;
    var v := w.(role := Processing(now));
    assert forall x :: Places(v, l, x) == Places(w, l, x);
  }

  /* ---- whole runs ---- */

  function RunLists(w: World, steps: seq<Step>): Lists {
    if steps == [] then Lists([], [])
    else NextLists(Run(w, steps[..|steps| - 1]), RunLists(w, steps[..|steps| - 1]), steps[|steps| - 1])
  }

  /** Every task is in exactly one place in every state of every run, the lists are well linked, the
      timer set is ordered, and no callback has been called before its requested deadline. */
  lemma {:induction false} EveryRun(tasks: set<Task>, steps: seq<Step>)
    ensures Inv(Run(Initial(tasks), steps), RunLists(Initial(tasks), steps), tasks)
  {
    var w := Initial(tasks);
    if steps == [] {
      assert forall x :: Places(w, Lists([], []), x) == Bit(x in tasks);
    } else {
      EveryRun(tasks, steps[..|steps| - 1]);
      StepKeeps(Run(w, steps[..|steps| - 1]), RunLists(w, steps[..|steps| - 1]), tasks, steps[|steps| - 1]);
    }
  }

  lemma NoEarlyFiring(tasks: set<Task>, steps: seq<Step>, i: nat)
    requires i < |Run(Initial(tasks), steps).log|
    ensures var f := Run(Initial(tasks), steps).log[i]; f.requested <= f.now
  {
    hide Run, Conserved, Linkage, Prepared, Sorted, Disarmed;
    EveryRun(tasks, steps);
  }

  /** What fires is due, and nothing left in the timer set is due earlier. */
  lemma EarliestFires(tasks: set<Task>, steps: seq<Step>, x: Task)
    requires var w := Run(Initial(tasks), steps);
             w.role.Processing? && FireTurn(w).role.Firing? && x in FireTurn(w).timers
    ensures var w := Run(Initial(tasks), steps);
            var t := FireTurn(w).role.task;
            Time(w.deadline, t) <= w.role.now && Time(w.deadline, t) <= Time(w.deadline, x)
  {
    hide Run, RunLists, Conserved, Linkage, Prepared, Punctual, Disarmed;
    EveryRun(tasks, steps);
    var w := Run(Initial(tasks), steps);
    assert Sorted(w.timers, w.deadline);
    var i :| 0 <= i < |w.timers[1..]| && w.timers[1..][i] == x;
    assert w.timers[i + 1] == x;
  }

  /** After the worker has cleared, every task is free and disarmed except those a producer is still
      carrying. */
  lemma ClearedReleasesAll(tasks: set<Task>, steps: seq<Step>, t: Task)
    requires Run(Initial(tasks), steps).role.Done? && t in tasks
    ensures var w := Run(Initial(tasks), steps);
            t in w.producers || (t in w.free && t !in w.armed)
  {
    hide Run, RunLists;
    EveryRun(tasks, steps);
    var w, l := Run(Initial(tasks), steps), RunLists(Initial(tasks), steps);
    assert Places(w, l, t) == 1;
  }

  /** The worker has finished; a producer about to swap did not see the stop mark. */
  ghost predicate Over(w: World) {
    w.role.Done? && w.head == StoppedMark && w.timers == [] &&
    forall t :: t in w.producers && w.producers[t].Linked? ==> w.producers[t].seen != StoppedMark
  }

  /** The end is final: nothing enters the list or the timer set again, and nothing fires. */
  lemma DoneForGood(tasks: set<Task>, steps: seq<Step>, more: seq<Step>)
    requires Run(Initial(tasks), steps).role.Done?
    ensures var w := Run(Initial(tasks), steps);
            Over(Run(w, more)) && Run(w, more).log == w.log
  {
    hide Run, RunLists;
    EveryRun(tasks, steps);
    OverRun(Run(Initial(tasks), steps), more);
  }

  lemma {:induction false} OverRun(w: World, more: seq<Step>)
    requires Over(w)
    ensures Over(Run(w, more)) && Run(w, more).log == w.log
  {
    if more != [] {
      OverRun(w, more[..|more| - 1]);
      OverStep(Run(w, more[..|more| - 1]), more[|more| - 1]);
    }
  }

  lemma OverStep(v: World, step: Step)
    requires Over(v)
    ensures Over(Next(v, step)) && Next(v, step).log == v.log
  {
  }

  /** How many of its own steps a producer still needs to release its task on a finished worker. */
  function Owes(w: World, t: Task): nat {
    if t !in w.producers then 0
    else if w.producers[t].Linked? then 2
    else if w.producers[t].seen == StoppedMark then 1
    else 3
  }

  /** The step is one the producer of `t` takes. */
  predicate IsOwn(w: World, t: Task, step: Step) {
    t in w.producers &&
    if w.producers[t].Loaded? then step == Prepare(t) else step.Swap? && step.t == t
  }

  /** The step is a new schedule call for `t`. */
  predicate IsCall(w: World, t: Task, step: Step) { step.Schedule? && step.t == t && t in w.free }

  function Taken(w: World, t: Task, more: seq<Step>): nat {
    if more == [] then 0
    else Taken(w, t, more[..|more| - 1]) + Bit(IsOwn(Run(w, more[..|more| - 1]), t, more[|more| - 1]))
  }

  function Calls(w: World, t: Task, more: seq<Step>): nat {
    if more == [] then 0
    else Calls(w, t, more[..|more| - 1]) + Bit(IsCall(Run(w, more[..|more| - 1]), t, more[|more| - 1]))
  }

  predicate Released(w: World, t: Task) { t in w.free && t !in w.armed }

  /** The task is carried by a producer or released, and not both. */
  predicate CarriedOrReleased(w: World, t: Task) {
    if t in w.producers then t !in w.free else Released(w, t)
  }

  lemma OwesStep(w: World, t: Task, step: Step)
    requires Over(w) && CarriedOrReleased(w, t)
    ensures Owes(Next(w, step), t) + Bit(IsOwn(w, t, step)) == Owes(w, t) + Bit(IsCall(w, t, step))
    ensures CarriedOrReleased(Next(w, step), t)
  {
    hide Quantize;
    match step
    case Schedule(x, when, live) =>
    case Prepare(x) =>
    case Swap(x, spurious) =>
    case _ => assert Next(w, step) == w;
  }

  lemma {:induction false} OwesRun(w: World, t: Task, more: seq<Step>)
    requires Over(w) && CarriedOrReleased(w, t)
    ensures Owes(Run(w, more), t) + Taken(w, t, more) == Owes(w, t) + Calls(w, t, more)
    ensures CarriedOrReleased(Run(w, more), t)
  {
    hide Over, Next, Owes, IsOwn, IsCall, CarriedOrReleased;
    if more != [] {
      OwesRun(w, t, more[..|more| - 1]);
      OverRun(w, more[..|more| - 1]);
      OwesStep(Run(w, more[..|more| - 1]), t, more[|more| - 1]);
    }
  }

  /** On a finished worker every task is carried by a producer or released. */
  lemma DoneIsOver(tasks: set<Task>, steps: seq<Step>, t: Task)
    requires Run(Initial(tasks), steps).role.Done? && t in tasks
    ensures var w := Run(Initial(tasks), steps); Over(w) && CarriedOrReleased(w, t)
  {
    hide Run, RunLists;
    EveryRun(tasks, steps);
    var w, l := Run(Initial(tasks), steps), RunLists(Initial(tasks), steps);
    assert Places(w, l, t) == 1;
  }

  /** A task carried when the worker has finished, in every interleaving with other producers: as long as
      it is not scheduled again, each step of its producer counts down, and the task is released exactly
      when the count, at most three, has run out. */
  lemma CarriedIsReleased(tasks: set<Task>, steps: seq<Step>, t: Task, more: seq<Step>)
    requires Run(Initial(tasks), steps).role.Done? && t in tasks
    requires Calls(Run(Initial(tasks), steps), t, more) == 0
    ensures var w := Run(Initial(tasks), steps);
            var v := Run(w, more);
            Owes(w, t) <= 3 && Taken(w, t, more) <= Owes(w, t) &&
            if Taken(w, t, more) == Owes(w, t) then Released(v, t) else t in v.producers
  {
    hide Run, Taken, Calls;
    DoneIsOver(tasks, steps, t);
    OwesRun(Run(Initial(tasks), steps), t, more);
  }

  /** Scheduling on a cleared worker, in every interleaving: the producer's first own step releases the
      task. */
  lemma ScheduleAfterClear(tasks: set<Task>, steps: seq<Step>, t: Task, when: int, live: bool, more: seq<Step>)
    requires Run(Initial(tasks), steps).role.Done? && t in tasks && t in Run(Initial(tasks), steps).free
    requires Calls(Next(Run(Initial(tasks), steps), Schedule(t, when, live)), t, more) == 0
    ensures var w := Next(Run(Initial(tasks), steps), Schedule(t, when, live));
            var v := Run(w, more);
            Taken(w, t, more) <= 1 && if Taken(w, t, more) == 1 then Released(v, t) else t in v.producers
  {
    hide Run, Taken, Calls, Quantize;
    DoneIsOver(tasks, steps, t);
    var before := Run(Initial(tasks), steps);
    OwesStep(before, t, Schedule(t, when, live));
    OverStep(before, Schedule(t, when, live));
    OwesRun(Next(before, Schedule(t, when, live)), t, more);
  }

  /** Rounding a deadline of one and a half milliseconds before zero adds one and a half. */
  lemma NegativeDeadlineExample()
    ensures Quantize(-1500) == 0 && !(Quantize(-1500) < -1500 + 1000)
  {
  }

  /* ---- what is due is fired ---- */

  /** A pass over the timer set that ends leaves only tasks with a later deadline. */
  lemma PassLeavesNothingDue(tasks: set<Task>, steps: seq<Step>, x: Task)
    requires var w := Run(Initial(tasks), steps);
             w.role.Processing? && Next(w, Fire).role.Idle? && x in Next(w, Fire).timers
    ensures var w := Run(Initial(tasks), steps);
            w.role.now < Time(w.deadline, x) && w.timers == Next(w, Fire).timers
  {
    hide Run, RunLists, Conserved, Linkage, Prepared, Punctual, Disarmed;
    EveryRun(tasks, steps);
    LaterThanFirst(Run(Initial(tasks), steps), x);
  }

  lemma LaterThanFirst(w: World, x: Task)
    requires Sorted(w.timers, w.deadline) && x in w.timers
    ensures Time(w.deadline, w.timers[0]) <= Time(w.deadline, x)
  {
    var i :| 0 <= i < |w.timers| && w.timers[i] == x;
    assert i > 0 ==> Before(w.deadline, w.timers[0], w.timers[i]);
  }

  /** A task taken from the timer set is logged exactly when it has a callback and an owner, with the
      deadline asked for and the time of the pass. */
  lemma TakenIsLogged(tasks: set<Task>, steps: seq<Step>)
    requires var w := Run(Initial(tasks), steps); w.role.Processing? && Next(w, Fire).role.Firing?
    ensures var w := Run(Initial(tasks), steps);
            var v := Next(w, Fire);
            var t := v.role.task;
            && t in w.timers && t !in v.timers
            && v.log == if t in w.armed then w.log + [Fired(t, Time(w.requested, t), w.role.now)] else w.log
  {
    hide Run, RunLists, Linkage, Prepared, Punctual, Disarmed, Sorted, Places;
    EveryRun(tasks, steps);
    var w, l := Run(Initial(tasks), steps), RunLists(Initial(tasks), steps);
    TimerFirst(w, l, tasks, w.timers[0]);
  }

  /** The callback's answer: the task is back in the timer set, still armed, with a deadline no earlier than
      the answer; without an answer or without a callback it is released. */
  lemma AnswerReschedules(tasks: set<Task>, steps: seq<Step>, next: Option<int>)
    requires Run(Initial(tasks), steps).role.Firing?
    ensures var w := Run(Initial(tasks), steps);
            var v, t := Next(w, Return(next)), w.role.task;
            if next.Some? && t in w.armed then
              t in v.timers && t in v.armed && t !in v.free && next.value <= Time(v.deadline, t) &&
              Time(v.requested, t) == next.value
            else t !in v.timers && Released(v, t)
  {
    hide Run, RunLists, Linkage, Prepared, Punctual, Disarmed, Sorted, Places, Insert, Quantize;
    EveryRun(tasks, steps);
    var w, l := Run(Initial(tasks), steps), RunLists(Initial(tasks), steps);
    Elsewhere(w, l, tasks, w.role.task);
    if next.Some? {
      QuantizeBounds(next.value);
      var d := w.deadline[w.role.task := Quantize(next.value)];
      InsertAdds(w.timers, d, w.role.task);
      assert w.role.task in multiset(Insert(w.timers, d, w.role.task));
    }
  }

  /** A schedule call fills the task in: the deadline asked for, rounded, and callback and owner if given. */
  lemma ScheduleFills(w: World, t: Task, when: int, live: bool)
    requires t in w.free
    ensures var v := Next(w, Schedule(t, when, live));
            && t in v.producers && t !in v.free && Time(v.requested, t) == when
            && when <= Time(v.deadline, t) <= when + 1998 && (when >= 0 ==> Time(v.deadline, t) < when + 1000)
            && (t in v.armed <==> live)
  {
    hide Quantize;
    QuantizeBounds(when);
  }

  /** A task becomes free only by a callback without an answer or a task without a callback, by the
      clearing at the end, or by a producer that finds the worker stopped. */
  lemma ReleasedOnly(w: World, step: Step, t: Task)
    requires t !in w.free && t in Next(w, step).free
    ensures || (step.Return? && w.role.Firing? && w.role.task == t && (step.next.None? || t !in w.armed))
            || (step.ClearOne? && Stopped(w))
            || (step == Prepare(t) && t in w.producers && w.producers[t] == Loaded(StoppedMark))
  {
    hide Insert, Quantize;
  }

  predicate InPass(role: Role, now: int) {
    (role.Processing? || role.Firing?) && role.now == now
  }

  /** The worker stays in the pass through all of `more` but its last step. */
  ghost predicate PassOf(w: World, more: seq<Step>, now: int) {
    forall k :: 0 <= k < |more| ==> InPass(Run(w, more[..k]).role, now)
  }

  /** The task has been called in this pass. */
  ghost predicate CalledSince(v: World, from: nat, t: Task, now: int) {
    exists i :: from <= i < |v.log| && v.log[i].task == t && v.log[i].now == now
  }

  /** The task still waits, as it did. */
  predicate StillDue(v: World, t: Task, now: int) {
    t in v.timers && t in v.armed && Time(v.deadline, t) <= now
  }

  /** During a pass a due task waits until it is called. */
  lemma DueStep(w: World, l: Lists, tasks: set<Task>, step: Step, t: Task, now: int)
    requires Inv(w, l, tasks) && InPass(w.role, now) && StillDue(w, t, now)
    ensures var v := Next(w, step); |w.log| <= |v.log| && v.log[..|w.log|] == w.log
    ensures var v := Next(w, step); StillDue(v, t, now) || CalledSince(v, |w.log|, t, now)
  {
    hide Linkage, Prepared, Punctual, Disarmed, Sorted, Places, Insert, Quantize, Inv;
    TimerOnly(w, l, tasks, t);
    match step
    case Fire => DueFire(w, t, now);
    case Return(next) => DueReturn(w, next, t, now);
    case _ => assert Next(w, step).log == w.log;
  }

  lemma TimerOnly(w: World, l: Lists, tasks: set<Task>, t: Task)
    requires Inv(w, l, tasks) && t in w.timers
    ensures t !in w.free && t !in w.producers && !(w.role.Firing? && w.role.task == t)
  {
    hide Linkage, Prepared, Punctual, Disarmed, Sorted, Times;
    assert Places(w, l, t) == Bit(t in tasks);
    TimesMember(w.timers, t);
  }

  lemma DueFire(w: World, t: Task, now: int)
    requires InPass(w.role, now) && StillDue(w, t, now)
    ensures var v := Next(w, Fire); |w.log| <= |v.log| && v.log[..|w.log|] == w.log
    ensures var v := Next(w, Fire); StillDue(v, t, now) || CalledSince(v, |w.log|, t, now)
  {
    var v := Next(w, Fire);
    if v.role.Firing? && w.role.Processing? {
      if v.role.task == t {
        assert v.log[|w.log|] == Fired(t, Time(w.requested, t), now);
      } else {
        assert w.timers == [w.timers[0]] + w.timers[1..];
      }
    }
  }

  lemma DueReturn(w: World, next: Option<int>, t: Task, now: int)
    requires InPass(w.role, now) && StillDue(w, t, now) && !(w.role.Firing? && w.role.task == t)
    ensures var v := Next(w, Return(next)); v.log == w.log && StillDue(v, t, now)
  {
    hide Insert, Quantize;
    if w.role.Firing? && next.Some? && w.role.task in w.armed {
      var d := w.deadline[w.role.task := Quantize(next.value)];
      InsertAdds(w.timers, d, w.role.task);
      assert t in multiset(w.timers);
      assert t in multiset(Insert(w.timers, d, w.role.task));
    }
  }

  lemma {:induction false} DueUntilCalled(w: World, l: Lists, tasks: set<Task>, t: Task, now: int, more: seq<Step>)
      returns (l': Lists)
    requires Inv(w, l, tasks) && PassOf(w, more, now) && StillDue(w, t, now)
    ensures Inv(Run(w, more), l', tasks) && |w.log| <= |Run(w, more).log|
    ensures StillDue(Run(w, more), t, now) || CalledSince(Run(w, more), |w.log|, t, now)
    decreases |more|
  {
    hide Inv, Next, StillDue;
    if more == [] {
      l' := l;
    } else {
      var init, last := more[..|more| - 1], more[|more| - 1];
      assert forall k :: 0 <= k < |init| ==> init[..k] == more[..k];
      var m := DueUntilCalled(w, l, tasks, t, now, init);
      var v := Run(w, init);
      assert InPass(Run(w, more[..|init|]).role, now);
      StepKeeps(v, m, tasks, last);
      l' := NextLists(v, m, last);
      LogGrows(v, last);
      if StillDue(v, t, now) {
        DueStep(v, m, tasks, last, t, now);
        CalledLater(v, Next(v, last), |v.log|, |w.log|, t, now);
      } else {
        CalledLonger(v, Next(v, last), |w.log|, t, now);
      }
    }
  }

  lemma OnlyFireLogs(w: World, step: Step)
    requires !step.Fire?
    ensures Next(w, step).log == w.log
  {
    hide Insert, Quantize, FireTurn;
  }

  lemma FireGrows(w: World)
    requires w.role.Processing?
    ensures |w.log| <= |FireTurn(w).log| && FireTurn(w).log[..|w.log|] == w.log
  {
  }

  lemma LogGrows(w: World, step: Step)
    ensures |w.log| <= |Next(w, step).log| && Next(w, step).log[..|w.log|] == w.log
  {
    hide FireTurn, DrainTurn, ReturnTurn, ClearTurn, ScheduleTurn, LinkTurn, SwapTurn;
    if !step.Fire? {
      OnlyFireLogs(w, step);
    } else if w.role.Processing? {
      FireGrows(w);
    }
  }

  lemma CalledLater(w: World, v: World, from: nat, earlier: nat, t: Task, now: int)
    requires earlier <= from
    ensures CalledSince(v, from, t, now) ==> CalledSince(v, earlier, t, now)
  {
  }

  lemma CalledLonger(w: World, v: World, from: nat, t: Task, now: int)
    requires CalledSince(w, from, t, now) && |w.log| <= |v.log| && v.log[..|w.log|] == w.log
    ensures CalledSince(v, from, t, now)
  {
    var i :| from <= i < |w.log| && w.log[i].task == t && w.log[i].now == now;
    assert v.log[i] == v.log[..|w.log|][i];
  }

  /** Every armed task that is due when a pass begins has been called when the pass ends, whatever producers
      and callbacks do meanwhile. */
  lemma DueIsCalled(tasks: set<Task>, steps: seq<Step>, t: Task, now: int, more: seq<Step>)
    requires var w := Run(Initial(tasks), steps);
             w.role == Processing(now) && StillDue(w, t, now) && PassOf(w, more, now) && Run(w, more).role.Idle?
    ensures var w := Run(Initial(tasks), steps); CalledSince(Run(w, more), |w.log|, t, now)
  {
    hide RunLists, Inv, Next, StillDue;
    EveryRun(tasks, steps);
    var w := Run(Initial(tasks), steps);
    assert more != [];
    var init, last := more[..|more| - 1], more[|more| - 1];
    assert forall k :: 0 <= k < |init| ==> init[..k] == more[..k];
    var m := DueUntilCalled(w, RunLists(Initial(tasks), steps), tasks, t, now, init);
    var v := Run(w, init);
    assert InPass(Run(w, more[..|init|]).role, now);
    LogGrows(v, last);
    if StillDue(v, t, now) {
      PassEnds(v, m, tasks, last, t, now);
    } else {
      CalledLonger(v, Next(v, last), |w.log|, t, now);
    }
  }

  /** A pass cannot end while a due task waits. */
  lemma PassEnds(w: World, l: Lists, tasks: set<Task>, step: Step, t: Task, now: int)
    requires Inv(w, l, tasks) && InPass(w.role, now) && StillDue(w, t, now)
    ensures !Next(w, step).role.Idle?
  {
    hide Conserved, Linkage, Prepared, Punctual, Disarmed, Sorted, Insert, Quantize;
    LaterThanFirst(w, t);
  }

  /* ---- the worker's private loops ---- */

  /** One turn along a list: unlinking its current task leaves the rest well linked. */
  lemma ChainTurn(link: map<Task, Ptr>, from: Ptr, list: seq<Task>, i: nat)
    requires i <= |list| && from.To? && Distinct(list) && Chain(link, from, list[i..])
    ensures i < |list| && list[i] == from.task && list[..i + 1] == list[..i] + [from.task]
    ensures Chain(link[from.task := Nil], Link(link, from.task), list[i + 1..])
  {
    assert list[i..][1..] == list[i + 1..];
    ChainFrame(link, Link(link, from.task), list[i + 1..], from.task, Nil);
  }

  /** The links of the tasks in `done` are null and all others are as before. */
  ghost predicate Unlinked(link: map<Task, Ptr>, before: map<Task, Ptr>, done: seq<Task>) {
    forall t :: Link(link, t) == if t in done then Nil else Link(before, t)
  }

  lemma NothingUnlinked(link: map<Task, Ptr>)
    ensures Unlinked(link, link, [])
  {
  }

  lemma UnlinkedTurn(link: map<Task, Ptr>, before: map<Task, Ptr>, done: seq<Task>, t: Task)
    requires Unlinked(link, before, done)
    ensures Unlinked(link[t := Nil], before, done + [t])
  {
    var after := link[t := Nil];
    assert forall x :: x != t ==> Link(after, x) == Link(link, x);
  }

  function Members(s: seq<Task>): set<Task> { set t | t in s }

  lemma NoMembers(armed: set<Task>)
    ensures armed - Members([]) == armed
  {
  }

  lemma OneMemberMore(done: seq<Task>, t: Task)
    ensures Members(done + [t]) == Members(done) + {t}
  {
  }

  /** The worker's own part: after the exchange the taken list and the timer set are private to it. */
  class Worker {
    var head: Ptr
    var link: map<Task, Ptr>
    var timers: seq<Task>
    var deadline: map<Task, int>
    var armed: set<Task>

    constructor ()
      ensures head == Nil && timers == [] && armed == {}
    {
      head, link, timers, deadline, armed := Nil, map[], [], map[], {};
    }

    /** `drain_pending_`: exactly the listed tasks move to the timer set, which stays ordered. */
    method DrainPending(ghost list: seq<Task>)
      requires Chain(link, head, list) && Distinct(list) && Sorted(timers, deadline)
      modifies this
      ensures head == Nil && deadline == old(deadline) && armed == old(armed)
      ensures Sorted(timers, deadline)
      ensures multiset(timers) == old(multiset(timers)) + multiset(list)
      ensures Unlinked(link, old(link), list)
    {
      hide Sorted, Insert, Unlinked, Link, Distinct;
      assert list[..0] == [] && list[0..] == list;
      NothingUnlinked(link);
      var task := head;
      head := Nil;
      ghost var i: nat := 0;
      while task.To?
        invariant i <= |list| && Chain(link, task, list[i..])
        invariant head == Nil && deadline == old(deadline) && armed == old(armed)
        invariant Sorted(timers, deadline)
        invariant multiset(timers) == old(multiset(timers)) + multiset(list[..i])
        invariant Unlinked(link, old(link), list[..i])
        decreases |list| - i
      {
        var t := task.task;
        var next := Link(link, t);
        ChainTurn(link, task, list, i);
        UnlinkedTurn(link, old(link), list[..i], t);
        InsertSorts(timers, deadline, t);
        InsertAdds(timers, deadline, t);
        link := link[t := Nil];
        timers := Insert(timers, deadline, t);
        task := next;
        i := i + 1;
      }
      assert list[..i] == list;
    }

    /** `clear_`: the list and the timer set are emptied, and every task in them is disarmed and unlinked. */
    method Clear(ghost list: seq<Task>)
      requires Chain(link, head, list) && Distinct(list)
      modifies this
      ensures head == StoppedMark && timers == [] && deadline == old(deadline)
      ensures Unlinked(link, old(link), list + old(timers))
      ensures armed == old(armed) - Members(list + old(timers))
    {
      hide Unlinked, Link, Distinct, Members;
      assert list[..0] == [] && list[0..] == list;
      NothingUnlinked(link);
      NoMembers(armed);
      var task := head;
      head := StoppedMark;
      ghost var i: nat := 0;
      while task.To?
        invariant i <= |list| && Chain(link, task, list[i..])
        invariant head == StoppedMark && deadline == old(deadline) && timers == old(timers)
        invariant Unlinked(link, old(link), list[..i]) && armed == old(armed) - Members(list[..i])
        decreases |list| - i
      {
        var t := task.task;
        var next := Link(link, t);
        ChainTurn(link, task, list, i);
        UnlinkedTurn(link, old(link), list[..i], t);
        OneMemberMore(list[..i], t);
        link, armed := link[t := Nil], armed - {t};
        task := next;
        i := i + 1;
      }
      assert list[..i] == list;
      ghost var k: nat := 0;
      assert list + old(timers)[..0] == list;
      while timers != []
        invariant k <= |old(timers)| && timers == old(timers)[k..]
        invariant head == StoppedMark && deadline == old(deadline)
        invariant Unlinked(link, old(link), list + old(timers)[..k])
        invariant armed == old(armed) - Members(list + old(timers)[..k])
        decreases |timers|
      {
        var t := timers[0];
        ghost var done := list + old(timers)[..k];
        assert list + old(timers)[..k + 1] == done + [t];
        UnlinkedTurn(link, old(link), done, t);
        OneMemberMore(done, t);
        timers := timers[1..];
        link, armed := link[t := Nil], armed - {t};
        k := k + 1;
      }
      assert old(timers)[..k] == old(timers);
    }
  }
}
