/** Which value a caller gets: over every run of the cache, each answer delivered is the result of the load
    the caller waited for, or the holder its key had when it looked. */
module AsyncCacheAnswers {
  import opened Common
  import opened AsyncCache
  import opened AsyncCacheProtocol

  /** The run contains the call's start, for this key. */
  ghost predicate StartedWith<K, V>(steps: seq<Step<K, V>>, cb: Callback, key: K) {
    exists m :: 0 <= m < |steps| && steps[m].Start? && steps[m].cb == cb && steps[m].key == key
  }

  /** The step at n of the run is where the answer comes from. */
  ghost predicate JustifiedAt<K, V>(cfg: Config, steps: seq<Step<K, V>>, n: int, cb: Callback, key: K, a: Answer<V>) {
    && 0 <= n < |steps| && Run(cfg, steps[..n]).Some?
    && GivesAnswer(Run(cfg, steps[..n]).value, steps[n], cb, key, a)
  }

  /** A load's result comes from the completion of the load of that key while the caller was parked behind
      it, or from the caller's own fetch; a cached answer is the holder in the entry of that key when the
      caller looked. */
  ghost predicate GivesAnswer<K, V>(sys: Sys<K, V>, step: Step<K, V>, cb: Callback, key: K, a: Answer<V>) {
    match a
    case FromLoad(h) =>
      || (step == LoadDone(key, h) && key in sys.cache.pending && cb in sys.cache.pending[key])
      || (step == FetchDone(cb, h) && cb in sys.calls && sys.calls[cb] == Fetching(key))
    case FromCache(h, now) =>
      && (step == LookShared(cb) || step == LookUnique(cb) || step == Enqueue(cb))
      && cb in sys.calls && LooksFor(sys.calls[cb], key, now)
      && key in sys.cache.entries && sys.cache.entries[key].holder == h
  }

  predicate LooksFor<K(==), V>(c: Call<K, V>, key: K, now: int) {
    (c.Looking? || c.LookingAgain? || c.Queueing?) && c.key == key && c.now == now
  }

  ghost predicate Justified<K, V>(cfg: Config, steps: seq<Step<K, V>>, cb: Callback, key: K, a: Answer<V>) {
    exists n :: JustifiedAt(cfg, steps, n, cb, key, a)
  }

  /** The answer is right for the key the call started with. */
  ghost predicate Sourced<K(!new), V>(cfg: Config, steps: seq<Step<K, V>>, cb: Callback, a: Answer<V>) {
    exists key :: StartedWith(steps, cb, key) && Justified(cfg, steps, cb, key, a)
  }

  /* ---- the invariant ---- */

  ghost predicate CallSourced<K(!new), V>(cfg: Config, steps: seq<Step<K, V>>, cb: Callback, c: Call<K, V>) {
    if c.Answering? then Sourced(cfg, steps, cb, c.answer) else StartedWith(steps, cb, c.key)
  }

  ghost predicate CallsSourced<K(!new), V>(cfg: Config, steps: seq<Step<K, V>>, calls: map<Callback, Call<K, V>>) {
    forall cb :: cb in calls ==> CallSourced(cfg, steps, cb, calls[cb])
  }

  ghost predicate ParkedStarted<K(!new), V>(steps: seq<Step<K, V>>, pending: map<K, seq<Callback>>) {
    forall k, cb :: k in pending && cb in pending[k] ==> StartedWith(steps, cb, k)
  }

  ghost predicate ListSourced<K(!new), V>(cfg: Config, steps: seq<Step<K, V>>, ds: seq<Delivery<V>>) {
    forall i :: 0 <= i < |ds| ==> Sourced(cfg, steps, ds[i].cb, ds[i].answer)
  }

  ghost predicate AllSourced<K(!new), V>(cfg: Config, steps: seq<Step<K, V>>, sys: Sys<K, V>) {
    && CallsSourced(cfg, steps, sys.calls) && ParkedStarted(steps, sys.cache.pending)
    && ListSourced(cfg, steps, sys.delivering) && ListSourced(cfg, steps, sys.log)
  }

  /* ---- a longer run justifies no less ---- */

  lemma StartedLater<K, V>(steps: seq<Step<K, V>>, step: Step<K, V>, cb: Callback, key: K)
    requires StartedWith(steps, cb, key)
    ensures StartedWith(steps + [step], cb, key)
  {
    var m :| 0 <= m < |steps| && steps[m].Start? && steps[m].cb == cb && steps[m].key == key;
    assert (steps + [step])[m] == steps[m];
  }

  lemma SourcedLater<K(!new), V>(cfg: Config, steps: seq<Step<K, V>>, step: Step<K, V>, cb: Callback, a: Answer<V>)
    requires Sourced(cfg, steps, cb, a)
    ensures Sourced(cfg, steps + [step], cb, a)
  {
    hide Run, GivesAnswer;
    var key :| StartedWith(steps, cb, key) && Justified(cfg, steps, cb, key, a);
    StartedLater(steps, step, cb, key);
    var n :| JustifiedAt(cfg, steps, n, cb, key, a);
    assert (steps + [step])[..n] == steps[..n] && (steps + [step])[n] == steps[n];
    assert JustifiedAt(cfg, steps + [step], n, cb, key, a);
  }

  /** The last step of a run gives the answer. */
  lemma SourcedNow<K(!new), V>(cfg: Config, steps: seq<Step<K, V>>, step: Step<K, V>, cb: Callback, key: K,
                               a: Answer<V>)
    requires Run(cfg, steps).Some? && StartedWith(steps, cb, key)
    requires GivesAnswer(Run(cfg, steps).value, step, cb, key, a)
    ensures Sourced(cfg, steps + [step], cb, a)
  {
    hide Run, GivesAnswer;
    StartedLater(steps, step, cb, key);
    assert (steps + [step])[..|steps|] == steps && (steps + [step])[|steps|] == step;
    assert JustifiedAt(cfg, steps + [step], |steps|, cb, key, a);
  }

  lemma AllLater<K(!new), V>(cfg: Config, steps: seq<Step<K, V>>, step: Step<K, V>, sys: Sys<K, V>)
    requires AllSourced(cfg, steps, sys)
    ensures AllSourced(cfg, steps + [step], sys)
  {
    hide Sourced, StartedWith;
    var steps' := steps + [step];
    forall cb | cb in sys.calls
      ensures CallSourced(cfg, steps', cb, sys.calls[cb])
    {
      if sys.calls[cb].Answering? {
        SourcedLater(cfg, steps, step, cb, sys.calls[cb].answer);
      } else {
        StartedLater(steps, step, cb, sys.calls[cb].key);
      }
    }
    forall k, cb | k in sys.cache.pending && cb in sys.cache.pending[k]
      ensures StartedWith(steps', cb, k)
    {
      StartedLater(steps, step, cb, k);
    }
    ListLater(cfg, steps, step, sys.delivering);
    ListLater(cfg, steps, step, sys.log);
  }

  lemma ListLater<K(!new), V>(cfg: Config, steps: seq<Step<K, V>>, step: Step<K, V>, ds: seq<Delivery<V>>)
    requires ListSourced(cfg, steps, ds)
    ensures ListSourced(cfg, steps + [step], ds)
  {
    hide Sourced;
    forall i | 0 <= i < |ds|
      ensures Sourced(cfg, steps + [step], ds[i].cb, ds[i].answer)
    {
      SourcedLater(cfg, steps, step, ds[i].cb, ds[i].answer);
    }
  }

  /* ---- one step ---- */

  /** A step that gives one call another state. */
  lemma SetSourced<K(!new), V>(cfg: Config, steps: seq<Step<K, V>>, sys: Sys<K, V>, sys': Sys<K, V>, cb: Callback,
                               c: Call<K, V>)
    requires AllSourced(cfg, steps, sys) && CallSourced(cfg, steps, cb, c) && sys'.calls == sys.calls[cb := c]
    requires sys'.cache.pending == sys.cache.pending && sys'.delivering == sys.delivering && sys'.log == sys.log
    ensures AllSourced(cfg, steps, sys')
  {
    hide CallSourced, ListSourced, ParkedStarted;
  }

  /** What a lookup or an enqueueing answers is in the entry it looked at. */
  lemma LookupAnswers<K(!new), V>(cfg: Config, st: State<K, V>, k: K, now: int, stale: Option<Holder<V>>, cb: Callback)
    ensures var f := SharedLookup(cfg, st, k, now).0; f.Hit? ==> k in st.entries && f.holder == st.entries[k].holder
    ensures var f := UniqueLookup(cfg, st, k, now).0; f.Hit? ==> k in st.entries && f.holder == st.entries[k].holder
    ensures var q := EnqueueLoad(cfg, st, k, now, stale, cb).0;
            q.Ready? ==> k in st.entries && q.holder == st.entries[k].holder
  {
  }

  lemma StartSourced<K(!new), V>(cfg: Config, steps: seq<Step<K, V>>, step: Step<K, V>)
    requires Run(cfg, steps).Some? && Next(cfg, Run(cfg, steps).value, step).Some? && step.Start?
    requires AllSourced(cfg, steps, Run(cfg, steps).value)
    ensures AllSourced(cfg, steps + [step], Next(cfg, Run(cfg, steps).value, step).value)
  {
    hide Run, ListSourced, ParkedStarted;
    var sys, steps' := Run(cfg, steps).value, steps + [step];
    AllLater(cfg, steps, step, sys);
    assert steps'[|steps|] == step;
    assert StartedWith(steps', step.cb, step.key);
    var sys' := Next(cfg, sys, step).value;
    SetSourced(cfg, steps', sys, sys', step.cb, sys'.calls[step.cb]);
  }

  lemma LookSourced<K(!new), V>(cfg: Config, steps: seq<Step<K, V>>, step: Step<K, V>)
    requires Run(cfg, steps).Some? && Next(cfg, Run(cfg, steps).value, step).Some?
    requires step.LookShared? || step.LookUnique?
    requires AllSourced(cfg, steps, Run(cfg, steps).value)
    ensures AllSourced(cfg, steps + [step], Next(cfg, Run(cfg, steps).value, step).value)
  {
    hide Run, SharedLookup, UniqueLookup, AllSourced, Sourced, StartedWith;
    var sys, cb := Run(cfg, steps).value, step.cb;
    var sys', c := Next(cfg, sys, step).value, sys.calls[cb];
    CallIsSourced(cfg, steps, sys, cb);
    AllLater(cfg, steps, step, sys);
    StartedLater(steps, step, cb, c.key);
    PendingFrame(cfg, sys.cache, c.key, c.now, None, cb, None, 0);
    LookupAnswers(cfg, sys.cache, c.key, c.now, None, cb);
    if sys'.calls[cb].Answering? {
      SourcedNow(cfg, steps, step, cb, c.key, sys'.calls[cb].answer);
    }
    SetSourced(cfg, steps + [step], sys, sys', cb, sys'.calls[cb]);
  }

  lemma CallIsSourced<K(!new), V>(cfg: Config, steps: seq<Step<K, V>>, sys: Sys<K, V>, cb: Callback)
    requires AllSourced(cfg, steps, sys) && cb in sys.calls
    ensures CallSourced(cfg, steps, cb, sys.calls[cb])
  {
    hide CallSourced;
  }

  lemma EnqueueSourced<K(!new), V>(cfg: Config, steps: seq<Step<K, V>>, step: Step<K, V>)
    requires Run(cfg, steps).Some? && Next(cfg, Run(cfg, steps).value, step).Some? && step.Enqueue?
    requires AllSourced(cfg, steps, Run(cfg, steps).value)
    ensures AllSourced(cfg, steps + [step], Next(cfg, Run(cfg, steps).value, step).value)
  {
    hide Run, EnqueueLoad, AllSourced, Sourced, StartedWith, Park;
    var sys, cb := Run(cfg, steps).value, step.cb;
    var sys', c := Next(cfg, sys, step).value, sys.calls[cb];
    CallIsSourced(cfg, steps, sys, cb);
    AllLater(cfg, steps, step, sys);
    StartedLater(steps, step, cb, c.key);
    PendingFrame(cfg, sys.cache, c.key, c.now, c.stale, cb, None, 0);
    LookupAnswers(cfg, sys.cache, c.key, c.now, c.stale, cb);
    if EnqueueLoad(cfg, sys.cache, c.key, c.now, c.stale, cb).0.Ready? {
      SourcedNow(cfg, steps, step, cb, c.key, sys'.calls[cb].answer);
      SetSourced(cfg, steps + [step], sys, sys', cb, sys'.calls[cb]);
    } else {
      ParkSourced(cfg, steps + [step], sys, sys', cb, c.key);
    }
  }

  lemma ParkSourced<K(!new), V>(cfg: Config, steps: seq<Step<K, V>>, sys: Sys<K, V>, sys': Sys<K, V>, cb: Callback,
                                k: K)
    requires AllSourced(cfg, steps, sys) && StartedWith(steps, cb, k) && sys'.calls == sys.calls - {cb}
    requires sys'.cache.pending == Park(sys.cache, k, cb).pending
    requires sys'.delivering == sys.delivering && sys'.log == sys.log
    ensures AllSourced(cfg, steps, sys')
  {
    hide CallSourced, StartedWith, ListSourced;
  }

  lemma FetchSourced<K(!new), V>(cfg: Config, steps: seq<Step<K, V>>, step: Step<K, V>)
    requires Run(cfg, steps).Some? && Next(cfg, Run(cfg, steps).value, step).Some? && step.FetchDone?
    requires AllSourced(cfg, steps, Run(cfg, steps).value)
    ensures AllSourced(cfg, steps + [step], Next(cfg, Run(cfg, steps).value, step).value)
  {
    hide Run, Insert, AllSourced, Sourced, StartedWith;
    var sys, cb, h := Run(cfg, steps).value, step.cb, step.fetched;
    var sys', key := Next(cfg, sys, step).value, sys.calls[cb].key;
    CallIsSourced(cfg, steps, sys, cb);
    AllLater(cfg, steps, step, sys);
    PendingFrame(cfg, sys.cache, key, 0, None, cb, h, 0);
    SourcedNow(cfg, steps, step, cb, key, FromLoad(h));
    SetSourced(cfg, steps + [step], sys, sys', cb, sys'.calls[cb]);
  }

  lemma LoadSourced<K(!new), V>(cfg: Config, steps: seq<Step<K, V>>, step: Step<K, V>)
    requires Run(cfg, steps).Some? && Next(cfg, Run(cfg, steps).value, step).Some? && step.LoadDone?
    requires AllSourced(cfg, steps, Run(cfg, steps).value)
    ensures AllSourced(cfg, steps + [step], Next(cfg, Run(cfg, steps).value, step).value)
  {
    hide Run, CompleteLoad, AllSourced, Sourced, StartedWith;
    var sys, key, h := Run(cfg, steps).value, step.key, step.loaded;
    var sys' := Next(cfg, sys, step).value;
    PendingFrame(cfg, sys.cache, key, 0, None, 0, h, 0);
    var cbs := if key in sys.cache.pending then sys.cache.pending[key] else [];
    forall cb | cb in cbs
      ensures Sourced(cfg, steps + [step], cb, FromLoad(h))
    {
      ParkedIsStarted(cfg, steps, sys, key, cb);
      SourcedNow(cfg, steps, step, cb, key, FromLoad(h));
    }
    AllLater(cfg, steps, step, sys);
    BatchSourced(cfg, steps + [step], sys, sys', key, cbs, FromLoad(h));
  }

  lemma ParkedIsStarted<K(!new), V>(cfg: Config, steps: seq<Step<K, V>>, sys: Sys<K, V>, k: K, cb: Callback)
    requires AllSourced(cfg, steps, sys) && k in sys.cache.pending && cb in sys.cache.pending[k]
    ensures StartedWith(steps, cb, k)
  {
    hide StartedWith;
  }

  lemma BatchSourced<K(!new), V>(cfg: Config, steps: seq<Step<K, V>>, sys: Sys<K, V>, sys': Sys<K, V>, k: K,
                                 cbs: seq<Callback>, a: Answer<V>)
    requires AllSourced(cfg, steps, sys) && forall cb :: cb in cbs ==> Sourced(cfg, steps, cb, a)
    requires sys'.cache.pending == sys.cache.pending - {k} && sys'.calls == sys.calls && sys'.log == sys.log
    requires sys'.delivering == sys.delivering + Batch(cbs, a)
    ensures AllSourced(cfg, steps, sys')
  {
    hide CallSourced, Sourced, StartedWith;
    forall i | 0 <= i < |sys'.delivering|
      ensures Sourced(cfg, steps, sys'.delivering[i].cb, sys'.delivering[i].answer)
    {
      if i < |sys.delivering| {
        assert sys'.delivering[i] == sys.delivering[i];
      } else {
        assert sys'.delivering[i] == Delivery(cbs[i - |sys.delivering|], a);
      }
    }
  }

  lemma HandOverSourced<K(!new), V>(cfg: Config, steps: seq<Step<K, V>>, step: Step<K, V>)
    requires Run(cfg, steps).Some? && Next(cfg, Run(cfg, steps).value, step).Some?
    requires step.Reply? || step.Deliver? || step.RefreshDone?
    requires AllSourced(cfg, steps, Run(cfg, steps).value)
    ensures AllSourced(cfg, steps + [step], Next(cfg, Run(cfg, steps).value, step).value)
  {
    hide Run, CompleteRefresh, AllSourced, Sourced, StartedWith;
    var sys := Run(cfg, steps).value;
    AllLater(cfg, steps, step, sys);
    if step.Reply? {
      CallIsSourced(cfg, steps + [step], sys, step.cb);
      LoggedSourced(cfg, steps + [step], sys, Next(cfg, sys, step).value);
    } else if step.Deliver? {
      DeliverySourced(cfg, steps + [step], sys, step.i);
      LoggedSourced(cfg, steps + [step], sys, Next(cfg, sys, step).value);
    } else {
      PendingFrame(cfg, sys.cache, step.key, 0, None, 0, step.renewed, step.oldId);
      SamePlaces(cfg, steps + [step], sys, Next(cfg, sys, step).value);
    }
  }

  lemma DeliverySourced<K(!new), V>(cfg: Config, steps: seq<Step<K, V>>, sys: Sys<K, V>, i: nat)
    requires AllSourced(cfg, steps, sys) && i < |sys.delivering|
    ensures Sourced(cfg, steps, sys.delivering[i].cb, sys.delivering[i].answer)
  {
    hide Sourced;
  }

  /** Places may lose calls and deliveries; the log gains one that is sourced. */
  lemma LoggedSourced<K(!new), V>(cfg: Config, steps: seq<Step<K, V>>, sys: Sys<K, V>, sys': Sys<K, V>)
    requires AllSourced(cfg, steps, sys) && sys'.cache.pending == sys.cache.pending
    requires forall cb :: cb in sys'.calls ==> cb in sys.calls && sys'.calls[cb] == sys.calls[cb]
    requires forall i :: 0 <= i < |sys'.delivering| ==> sys'.delivering[i] in sys.delivering
    requires sys'.log != [] && sys'.log[..|sys'.log| - 1] == sys.log
    requires var d := sys'.log[|sys'.log| - 1]; Sourced(cfg, steps, d.cb, d.answer)
    ensures AllSourced(cfg, steps, sys')
  {
    hide CallSourced, Sourced, StartedWith;
    assert forall i :: 0 <= i < |sys.log| ==> sys'.log[i] == sys.log[i];
  }

  lemma SamePlaces<K(!new), V>(cfg: Config, steps: seq<Step<K, V>>, sys: Sys<K, V>, sys': Sys<K, V>)
    requires AllSourced(cfg, steps, sys) && sys'.cache.pending == sys.cache.pending && sys'.calls == sys.calls
    requires sys'.delivering == sys.delivering && sys'.log == sys.log
    ensures AllSourced(cfg, steps, sys')
  {
  }

  lemma StepSourced<K(!new), V>(cfg: Config, steps: seq<Step<K, V>>, step: Step<K, V>)
    requires Run(cfg, steps).Some? && Next(cfg, Run(cfg, steps).value, step).Some?
    requires AllSourced(cfg, steps, Run(cfg, steps).value)
    ensures AllSourced(cfg, steps + [step], Next(cfg, Run(cfg, steps).value, step).value)
  {
    hide Run, Next, AllSourced;
    match step
    case Start(_, _, _, _) => StartSourced(cfg, steps, step);
    case LookShared(_) => LookSourced(cfg, steps, step);
    case LookUnique(_) => LookSourced(cfg, steps, step);
    case Enqueue(_) => EnqueueSourced(cfg, steps, step);
    case FetchDone(_, _) => FetchSourced(cfg, steps, step);
    case LoadDone(_, _) => LoadSourced(cfg, steps, step);
    case _ => HandOverSourced(cfg, steps, step);
  }

  /* ---- every run ---- */

  lemma {:induction false} EveryAnswerIsSourced<K(!new), V>(cfg: Config, steps: seq<Step<K, V>>)
    requires Run(cfg, steps).Some?
    ensures AllSourced(cfg, steps, Run(cfg, steps).value)
  {
    hide Next, Sourced, StartedWith;
    if steps != [] {
      var init, last := steps[..|steps| - 1], steps[|steps| - 1];
      EveryAnswerIsSourced(cfg, init);
      StepSourced(cfg, init, last);
      assert init + [last] == steps;
    }
  }

  /** Every answer that reached a callback is right for the key that callback started with. */
  lemma DeliveredIsRight<K(!new), V>(cfg: Config, steps: seq<Step<K, V>>, i: nat)
    requires Run(cfg, steps).Some? && i < |Run(cfg, steps).value.log|
    ensures var d := Run(cfg, steps).value.log[i]; Sourced(cfg, steps, d.cb, d.answer)
  {
    hide Run, Sourced;
    EveryAnswerIsSourced(cfg, steps);
  }

  /** A callback starts at most once, so its key is the one it started with. */
  lemma {:induction false} StartedOnce<K(!new), V>(cfg: Config, steps: seq<Step<K, V>>, i: nat, j: nat)
    requires Run(cfg, steps).Some? && i < j < |steps|
    requires steps[i].Start? && steps[j].Start?
    ensures steps[i].cb != steps[j].cb
    decreases |steps|
  {
    hide Next;
    var init := steps[..|steps| - 1];
    if j < |init| {
      StartedOnce(cfg, init, i, j);
    } else {
      StartedIsIssued(cfg, init, i);
      StartNeedsNew(cfg, Run(cfg, init).value, steps[j]);
    }
  }

  lemma StartNeedsNew<K(!new), V>(cfg: Config, sys: Sys<K, V>, step: Step<K, V>)
    requires step.Start? && Next(cfg, sys, step).Some?
    ensures step.cb !in sys.issued
  {
  }

  lemma {:induction false} StartedIsIssued<K(!new), V>(cfg: Config, steps: seq<Step<K, V>>, i: nat)
    requires Run(cfg, steps).Some? && i < |steps| && steps[i].Start?
    ensures steps[i].cb in Run(cfg, steps).value.issued
    decreases |steps|
  {
    hide Next;
    var init, last := steps[..|steps| - 1], steps[|steps| - 1];
    IssuedGrows(cfg, Run(cfg, init).value, last);
    if i < |init| {
      StartedIsIssued(cfg, init, i);
    }
  }

  lemma IssuedGrows<K(!new), V>(cfg: Config, sys: Sys<K, V>, step: Step<K, V>)
    requires Next(cfg, sys, step).Some?
    ensures sys.issued <= Next(cfg, sys, step).value.issued
    ensures step.Start? ==> step.cb in Next(cfg, sys, step).value.issued
  {
  }
}
