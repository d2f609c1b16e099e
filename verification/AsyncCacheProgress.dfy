/** No callback is ever stuck: from every reachable state of the cache, a few steps of the calls and loads
    under way deliver it. */
module AsyncCacheProgress {
  import opened Common
  import opened AsyncCache
  import opened AsyncCacheProtocol

  /** A bound on the steps between a callback and its delivery. */
  ghost function Distance<K, V>(sys: Sys<K, V>, cb: Callback): nat {
    if cb in sys.calls then
      match sys.calls[cb]
      case Looking(_, _, _) => 5
      case LookingAgain(_, _, _) => 4
      case Queueing(_, _, _) => 3
      case Fetching(_) => 2
      case Answering(_) => 1
    else if Parked(cb, sys.cache.pending) then 2
    else if InList(cb, sys.delivering) then 1
    else 0
  }

  /** The step brings the callback closer. */
  ghost predicate Closer<K, V>(cfg: Config, sys: Sys<K, V>, step: Step<K, V>, cb: Callback) {
    && !step.Start? && Next(cfg, sys, step).Some?
    && Distance(Next(cfg, sys, step).value, cb) < Distance(sys, cb)
  }

  lemma LookingMoves<K(!new), V>(cfg: Config, sys: Sys<K, V>, cb: Callback) returns (step: Step<K, V>)
    requires cb in sys.calls && (sys.calls[cb].Looking? || sys.calls[cb].LookingAgain?)
    ensures Closer(cfg, sys, step, cb)
  {
    hide Touch, Erase, Parked, InList;
    step := if sys.calls[cb].Looking? then LookShared(cb) else LookUnique(cb);
  }

  lemma QueueingMoves<K(!new), V>(cfg: Config, sys: Sys<K, V>, cb: Callback)
    requires cb in sys.calls && sys.calls[cb].Queueing?
    ensures Closer(cfg, sys, Enqueue(cb), cb)
  {
    hide Touch, Base, Parked, InList;
  }

  lemma FetchingMoves<K(!new), V>(cfg: Config, sys: Sys<K, V>, cb: Callback)
    requires cb in sys.calls && sys.calls[cb].Fetching?
    ensures Closer(cfg, sys, FetchDone(cb, None), cb)
  {
    hide Insert, Parked, InList;
  }

  lemma AnsweringMoves<K(!new), V>(cfg: Config, sys: Sys<K, V>, cb: Callback)
    requires Conserved(sys) && cb in sys.calls && sys.calls[cb].Answering?
    ensures Closer(cfg, sys, Reply(cb), cb)
  {
    hide Parked, InList;
  }

  lemma ParkedMoves<K(!new), V>(cfg: Config, sys: Sys<K, V>, cb: Callback, k: K)
    requires Conserved(sys) && SingleFlight(sys) && k in sys.cache.pending && cb in sys.cache.pending[k]
    ensures Closer(cfg, sys, LoadDone(k, None), cb)
  {
    hide Insert;
    var sys' := Next(cfg, sys, LoadDone(k, None)).value;
    assert Parked(cb, sys.cache.pending) && cb !in sys.calls;
    assert !Parked(cb, sys'.cache.pending);
  }

  lemma DeliveringMoves<K(!new), V>(cfg: Config, sys: Sys<K, V>, cb: Callback, i: nat)
    requires Conserved(sys) && i < |sys.delivering| && sys.delivering[i].cb == cb
    ensures Closer(cfg, sys, Deliver(i), cb)
  {
    var sys' := Next(cfg, sys, Deliver(i)).value;
    assert InList(cb, sys.delivering);
    hide Parked;
    forall j | 0 <= j < |sys'.delivering|
      ensures sys'.delivering[j].cb != cb
    {
      assert sys'.delivering[j] == sys.delivering[if j < i then j else j + 1];
    }
  }

  /** Somebody can always take the next step for a callback that was not delivered. */
  lemma SomebodyMoves<K(!new), V>(cfg: Config, sys: Sys<K, V>, cb: Callback) returns (step: Step<K, V>)
    requires Inv(cfg, sys) && cb in sys.issued && !InList(cb, sys.log)
    ensures Closer(cfg, sys, step, cb)
  {
    hide FreshHits, RefreshMatches, Closer;
    if cb in sys.calls {
      var c := sys.calls[cb];
      if c.Looking? || c.LookingAgain? {
        step := LookingMoves(cfg, sys, cb);
      } else if c.Queueing? {
        step := Enqueue(cb);
        QueueingMoves(cfg, sys, cb);
      } else if c.Fetching? {
        step := FetchDone(cb, None);
        FetchingMoves(cfg, sys, cb);
      } else {
        step := Reply(cb);
        AnsweringMoves(cfg, sys, cb);
      }
    } else if Parked(cb, sys.cache.pending) {
      var k :| k in sys.cache.pending && cb in sys.cache.pending[k];
      step := LoadDone(k, None);
      ParkedMoves(cfg, sys, cb, k);
    } else {
      var i :| 0 <= i < |sys.delivering| && sys.delivering[i].cb == cb;
      step := Deliver(i);
      DeliveringMoves(cfg, sys, cb, i);
    }
  }

  lemma IssuedStays<K(!new), V>(cfg: Config, sys: Sys<K, V>, step: Step<K, V>, cb: Callback)
    requires cb in sys.issued && Next(cfg, sys, step).Some?
    ensures cb in Next(cfg, sys, step).value.issued
  {
    hide Insert, SharedLookup, UniqueLookup, EnqueueLoad, CompleteLoad, CompleteRefresh, AfterLookup, IsNew, Known;
  }

  /** In every reachable state, every callback handed in has been delivered or is at most five steps of the
      calls, loads and deliveries under way from it. */
  lemma {:induction false} EveryCallbackCanBeAnswered<K(!new), V>(cfg: Config, steps: seq<Step<K, V>>, cb: Callback)
      returns (more: seq<Step<K, V>>)
    requires Run(cfg, steps).Some? && cb in Run(cfg, steps).value.issued
    ensures |more| <= 5 && forall step :: step in more ==> !step.Start?
    ensures Run(cfg, steps + more).Some? && InList(cb, Run(cfg, steps + more).value.log)
    ensures |more| <= Distance(Run(cfg, steps).value, cb)
    decreases Distance(Run(cfg, steps).value, cb)
  {
    hide Next, Inv, InList, Distance;
    EveryRun(cfg, steps);
    DistanceBound(Run(cfg, steps).value, cb);
    if InList(cb, Run(cfg, steps).value.log) {
      more := [];
      assert steps + more == steps;
    } else {
      var step := SomebodyMoves(cfg, Run(cfg, steps).value, cb);
      assert (steps + [step])[..|steps|] == steps;
      IssuedStays(cfg, Run(cfg, steps).value, step, cb);
      var rest := EveryCallbackCanBeAnswered(cfg, steps + [step], cb);
      more := [step] + rest;
      assert steps + more == steps + [step] + rest;
    }
  }

  lemma DistanceBound<K, V>(sys: Sys<K, V>, cb: Callback)
    ensures Distance(sys, cb) <= 5
  {
  }
}
