/** Every interleaving of the cache's lock regions: calls in progress, foreground loads, background
    refreshes and callback deliveries, as a state machine whose steps are the lock regions. The
    supplied update functions answer once, do not throw, and return new holders. */
module AsyncCacheProtocol {
  import opened Common
  import opened AsyncCache

  /** Where the value given to a callback came from. */
  datatype Answer<V> = FromCache(holder: Holder<V>, now: int) | FromLoad(loaded: Option<Holder<V>>)

  /** A `get_async` or `get_sync` call between two lock regions. */
  datatype Call<K, V> =
    | Looking(key: K, now: int, sync: bool)
    | LookingAgain(key: K, now: int, sync: bool)
    | Queueing(key: K, now: int, stale: Option<Holder<V>>)
    | Fetching(key: K)
    | Answering(answer: Answer<V>)

  datatype Delivery<V> = Delivery(cb: Callback, answer: Answer<V>)

  datatype Sys<!K(==), V> = Sys(
    cache: State<K, V>,
    calls: map<Callback, Call<K, V>>,
    loads: multiset<K>,
    refreshes: multiset<(K, nat)>,
    delivering: seq<Delivery<V>>,
    log: seq<Delivery<V>>,
    issued: set<Callback>,
    holders: set<nat>)

  datatype Step<K, V> =
    | Start(cb: Callback, key: K, now: int, sync: bool)
    | LookShared(cb: Callback)
    | LookUnique(cb: Callback)
    | Enqueue(cb: Callback)
    | FetchDone(cb: Callback, fetched: Option<Holder<V>>)
    | Reply(cb: Callback)
    | LoadDone(key: K, loaded: Option<Holder<V>>)
    | Deliver(i: nat)
    | RefreshDone(key: K, oldId: nat, renewed: Option<Holder<V>>)

  function Initial<K, V>(): Sys<K, V> {
    Sys(State(map[], map[], [], 0), map[], multiset{}, multiset{}, [], [], {}, {})
  }

  /** Holders come with a new identity. */
  predicate IsNew<K, V>(sys: Sys<K, V>, h: Option<Holder<V>>) {
    h.Some? ==> h.value.id !in sys.holders
  }

  function Known(holders: set<nat>, h: Option<Holder>): set<nat> {
    if h.Some? then holders + {h.value.id} else holders
  }

  function AfterLookup<K, V>(found: Found<V>, key: K, now: int, sync: bool): Call<K, V> {
    match found
    case Hit(h, _) => Answering(FromCache(h, now))
    case LookAgain => LookingAgain(key, now, sync)
    case Miss(stale) => if sync then Fetching(key) else Queueing(key, now, stale)
  }

  function Batch<V>(cbs: seq<Callback>, a: Answer<V>): (r: seq<Delivery<V>>)
    ensures |r| == |cbs| && forall i :: 0 <= i < |r| ==> r[i] == Delivery(cbs[i], a)
  {
    seq(|cbs|, i requires 0 <= i < |cbs| => Delivery(cbs[i], a))
  }

  /** One step; `None` when it is not enabled. */
  function Next<K(==), V>(cfg: Config, sys: Sys<K, V>, step: Step<K, V>): Option<Sys<K, V>> {
    match step
    case Start(cb, key, now, sync) =>
      if cb in sys.issued then None
      else Some(sys.(calls := sys.calls[cb := Looking(key, now, sync)], issued := sys.issued + {cb}))
    case LookShared(cb) =>
      if cb !in sys.calls || !sys.calls[cb].Looking? then None else
      var c := sys.calls[cb];
      var (found, cache) := SharedLookup(cfg, sys.cache, c.key, c.now);
      Some(sys.(cache := cache, calls := sys.calls[cb := AfterLookup(found, c.key, c.now, c.sync)]))
    case LookUnique(cb) =>
      if cb !in sys.calls || !sys.calls[cb].LookingAgain? then None else
      var c := sys.calls[cb];
      var (found, cache) := UniqueLookup(cfg, sys.cache, c.key, c.now);
      Some(sys.(cache := cache, calls := sys.calls[cb := AfterLookup(found, c.key, c.now, c.sync)],
                refreshes := if found.Hit? && found.refresh then sys.refreshes + multiset{(c.key, found.holder.id)}
                             else sys.refreshes))
    case Enqueue(cb) =>
      if cb !in sys.calls || !sys.calls[cb].Queueing? then None else
      var c := sys.calls[cb];
      var (queued, cache) := EnqueueLoad(cfg, sys.cache, c.key, c.now, c.stale, cb);
      Some(match queued
           case Ready(h) => sys.(cache := cache, calls := sys.calls[cb := Answering(FromCache(h, c.now))])
           case Waiting(start, _) =>
             sys.(cache := cache, calls := sys.calls - {cb},
                  loads := if start then sys.loads + multiset{c.key} else sys.loads))
    case FetchDone(cb, h) =>
      if cb !in sys.calls || !sys.calls[cb].Fetching? || !IsNew(sys, h) then None else
      Some(sys.(cache := if h.Some? then Insert(cfg, sys.cache, sys.calls[cb].key, h.value) else sys.cache,
                calls := sys.calls[cb := Answering(FromLoad(h))], holders := Known(sys.holders, h)))
    case Reply(cb) =>
      if cb !in sys.calls || !sys.calls[cb].Answering? then None else
      Some(sys.(calls := sys.calls - {cb}, log := sys.log + [Delivery(cb, sys.calls[cb].answer)]))
    case LoadDone(key, h) =>
      if key !in sys.loads || !IsNew(sys, h) then None else
      var (cbs, cache) := CompleteLoad(cfg, sys.cache, key, h);
      Some(sys.(cache := cache, loads := sys.loads - multiset{key},
                delivering := sys.delivering + Batch(cbs, FromLoad(h)), holders := Known(sys.holders, h)))
    case Deliver(i) =>
      if i >= |sys.delivering| then None else
      Some(sys.(delivering := sys.delivering[..i] + sys.delivering[i + 1..], log := sys.log + [sys.delivering[i]]))
    case RefreshDone(key, oldId, h) =>
      if (key, oldId) !in sys.refreshes || !IsNew(sys, h) then None else
      Some(sys.(cache := CompleteRefresh(cfg, sys.cache, key, oldId, h),
                refreshes := sys.refreshes - multiset{(key, oldId)}, holders := Known(sys.holders, h)))
  }

  function Run<K(==), V>(cfg: Config, steps: seq<Step<K, V>>): Option<Sys<K, V>> {
    if steps == [] then Some(Initial())
    else
      var sys := Run(cfg, steps[..|steps| - 1]);
      if sys.None? then None else Next(cfg, sys.value, steps[|steps| - 1])
  }

  /* ---- what every state satisfies ---- */

  /** A pending record exists exactly while one load of its key is outstanding. */
  ghost predicate SingleFlight<K(!new), V>(sys: Sys<K, V>) {
    forall k: K :: sys.loads[k] == if k in sys.cache.pending then 1 else 0
  }

  /** An entry is marked as being updated exactly when one refresh of its holder is in flight. */
  ghost predicate RefreshMatches<K(!new), V>(sys: Sys<K, V>) {
    && (forall k :: k in sys.cache.entries ==> sys.cache.entries[k].holder.id in sys.holders)
    && (forall k, id :: (k, id) in sys.refreshes ==> id in sys.holders && sys.refreshes[(k, id)] == 1)
    && (forall k :: k in sys.cache.entries ==>
          (sys.cache.entries[k].updating <==> (k, sys.cache.entries[k].holder.id) in sys.refreshes))
  }

  predicate FreshAnswer<V>(cfg: Config, a: Answer<V>) {
    a.FromCache? ==> a.now < a.holder.checkTime + cfg.maxKeep
  }

  /** No hit hands out an expired holder. */
  ghost predicate FreshHits<K, V>(cfg: Config, sys: Sys<K, V>) {
    && (forall cb :: cb in sys.calls && sys.calls[cb].Answering? ==> FreshAnswer(cfg, sys.calls[cb].answer))
    && (forall i :: 0 <= i < |sys.delivering| ==> FreshAnswer(cfg, sys.delivering[i].answer))
    && (forall i :: 0 <= i < |sys.log| ==> FreshAnswer(cfg, sys.log[i].answer))
  }

  ghost predicate InList<V>(cb: Callback, ds: seq<Delivery<V>>) {
    exists i :: 0 <= i < |ds| && ds[i].cb == cb
  }

  ghost predicate Parked<K>(cb: Callback, pending: map<K, seq<Callback>>) {
    exists k :: k in pending && cb in pending[k]
  }

  ghost predicate OnceEach<V>(ds: seq<Delivery<V>>) {
    forall i, j :: 0 <= i < j < |ds| ==> ds[i].cb != ds[j].cb
  }

  /** No callback is parked twice. */
  ghost predicate ParkedOnce<K>(pending: map<K, seq<Callback>>) {
    && (forall k :: k in pending ==> Distinct(pending[k]))
    && (forall k, k', cb :: k in pending && k' in pending && cb in pending[k] && cb in pending[k'] ==> k == k')
  }

  /** Every callback handed to the cache is in exactly one place: with a running call, parked behind
      one load, on its way out, or delivered. */
  ghost predicate Conserved<K, V>(sys: Sys<K, V>) {
    && ParkedOnce(sys.cache.pending) && OnceEach(sys.delivering) && OnceEach(sys.log)
    && (forall cb :: cb in sys.issued <==>
          cb in sys.calls || Parked(cb, sys.cache.pending) || InList(cb, sys.delivering) || InList(cb, sys.log))
    && (forall cb :: cb in sys.calls ==>
          !Parked(cb, sys.cache.pending) && !InList(cb, sys.delivering) && !InList(cb, sys.log))
    && (forall cb :: Parked(cb, sys.cache.pending) ==> !InList(cb, sys.delivering) && !InList(cb, sys.log))
    && (forall cb :: InList(cb, sys.delivering) ==> !InList(cb, sys.log))
  }

  ghost predicate Inv<K(!new), V>(cfg: Config, sys: Sys<K, V>) {
    SingleFlight(sys) && RefreshMatches(sys) && FreshHits(cfg, sys) && Conserved(sys)
  }

  /** Storing the holder, if there is one, does not wrap the size counter of a bounded cache. */
  predicate Fits<K(==), V>(cfg: Config, st: State<K, V>, k: K, h: Option<Holder<V>>) {
    h.Some? && cfg.Bounded() ==> Base(cfg, st, k).size + h.value.size < SIZE_MOD
  }

  /** The step stores nothing or stores without wrapping the size counter. */
  predicate NoWrap<K(==), V>(cfg: Config, sys: Sys<K, V>, step: Step<K, V>) {
    match step
    case FetchDone(cb, h) => cb in sys.calls && sys.calls[cb].Fetching? ==> Fits(cfg, sys.cache, sys.calls[cb].key, h)
    case LoadDone(key, h) => key in sys.cache.pending ==> Fits(cfg, sys.cache, key, h)
    case RefreshDone(key, oldId, h) =>
      key in sys.cache.entries && sys.cache.entries[key].holder.id == oldId ==> Fits(cfg, sys.cache, key, h)
    case _ => true
  }

  predicate NeverWraps<K(==), V>(cfg: Config, steps: seq<Step<K, V>>) {
    steps == [] || (
      var before := Run(cfg, steps[..|steps| - 1]);
      NeverWraps(cfg, steps[..|steps| - 1]) && before.Some? && NoWrap(cfg, before.value, steps[|steps| - 1]))
  }

  /* ---- frames of the lock regions ---- */

  lemma {:induction false} EvictFrame<K, V>(st: State<K, V>, need: Size, max: Size)
    ensures Evict(st, need, max).pending == st.pending
    ensures forall k :: k in Evict(st, need, max).entries ==>
              k in st.entries && Evict(st, need, max).entries[k] == st.entries[k]
    decreases |st.lru|
  {
    if Wrap(st.size + need) > max && st.lru != [] {
      var oldest := st.lru[0];
      if oldest !in st.entries {
        EvictFrame(st.(lru := st.lru[1..]), need, max);
      } else {
        EvictFrame(State(st.entries - {oldest}, st.pending, st.lru[1..],
                         Wrap(st.size - st.entries[oldest].holder.size)), need, max);
      }
    }
  }

  /** Insertion leaves pending loads alone; every entry is the new one, unmarked, or an old one. */
  lemma InsertFrame<K, V>(cfg: Config, st: State<K, V>, k: K, h: Holder<V>)
    ensures Insert(cfg, st, k, h).pending == st.pending
    ensures forall x :: x in Insert(cfg, st, k, h).entries ==>
              if x == k then Insert(cfg, st, k, h).entries[x] == Entry(h, false)
              else x in st.entries && Insert(cfg, st, k, h).entries[x] == st.entries[x]
  {
    var base := Base(cfg, st, k);
    EvictFrame(base, h.size, cfg.maxSize);
  }

  lemma InsertAccountedIff<K, V>(cfg: Config, st: State<K, V>, k: K, h: Option<Holder<V>>)
    requires Accounted(cfg, st) && h.Some?
    ensures Accounted(cfg, Insert(cfg, st, k, h.value)) <==> Fits(cfg, st, k, h)
  {
    hide Evict;
    BaseKeeps(cfg, st, k);
    if cfg.Bounded() {
      InsertKeepsAccountsIff(cfg, st, k, h.value);
    }
  }

  /* ---- the parts of the invariant, step by step ---- */

  /** The accounts survive a step exactly when it does not wrap the size counter. */
  lemma AccountingStepIff<K(!new), V>(cfg: Config, sys: Sys<K, V>, step: Step<K, V>)
    requires Accounted(cfg, sys.cache) && Next(cfg, sys, step).Some?
    ensures Accounted(cfg, Next(cfg, sys, step).value.cache) <==> NoWrap(cfg, sys, step)
  {
    hide Insert, Erase, Touch, Accounted, Base;
    var st := sys.cache;
    match step
    case Start(_, _, _, _) =>
    case LookShared(cb) =>
      if sys.calls[cb].key in st.entries { TouchKeeps(cfg, st, sys.calls[cb].key); }
    case LookUnique(cb) => UniqueLookupKeeps(cfg, st, sys.calls[cb].key, sys.calls[cb].now);
    case Enqueue(cb) => EnqueueKeeps(cfg, st, sys.calls[cb].key, sys.calls[cb].now, sys.calls[cb].stale, cb);
    case FetchDone(cb, h) => if h.Some? { InsertAccountedIff(cfg, st, sys.calls[cb].key, h); }
    case Reply(_) =>
    case LoadDone(key, h) => if key in st.pending { SettledIff(cfg, st, key, h); }
    case Deliver(_) =>
    case RefreshDone(key, oldId, h) => RefreshKeepsIff(cfg, st, key, oldId, h);
  }

  lemma SettledIff<K, V>(cfg: Config, st: State<K, V>, k: K, h: Option<Holder<V>>)
    requires Accounted(cfg, st) && k in st.pending
    ensures Accounted(cfg, CompleteLoad(cfg, st, k, h).1) <==> Fits(cfg, st, k, h)
  {
    hide Insert, Accounted;
    var settled := st.(pending := st.pending - {k});
    PendingIsFree(cfg, st, settled.pending);
    if h.Some? {
      InsertAccountedIff(cfg, settled, k, h);
      assert Base(cfg, settled, k).size == Base(cfg, st, k).size;
    }
  }

  lemma PendingIsFree<K, V>(cfg: Config, st: State<K, V>, pending: map<K, seq<Callback>>)
    requires Accounted(cfg, st)
    ensures Accounted(cfg, st.(pending := pending))
  {
  }

  lemma UniqueLookupKeeps<K, V>(cfg: Config, st: State<K, V>, k: K, now: int)
    requires Accounted(cfg, st)
    ensures Accounted(cfg, UniqueLookup(cfg, st, k, now).1)
  {
    hide Accounted, Erase, Touch;
    if k in st.entries {
      EraseKeeps(cfg, st, k);
      TouchKeeps(cfg, st, k);
      var marked := st.(entries := st.entries[k := st.entries[k].(updating := true)]);
      SameSizes(cfg, st, marked);
      TouchKeeps(cfg, marked, k);
    }
  }

  lemma EnqueueKeeps<K, V>(cfg: Config, st: State<K, V>, k: K, now: int, stale: Option<Holder<V>>, cb: Callback)
    requires Accounted(cfg, st)
    ensures Accounted(cfg, EnqueueLoad(cfg, st, k, now, stale, cb).1)
  {
    hide Accounted, Base, Touch;
    if k in st.entries {
      TouchKeeps(cfg, st, k);
    }
    BaseKeeps(cfg, st, k);
    PendingIsFree(cfg, Base(cfg, st, k), Park(Base(cfg, st, k), k, cb).pending);
  }

  lemma RefreshKeepsIff<K, V>(cfg: Config, st: State<K, V>, k: K, oldId: nat, h: Option<Holder<V>>)
    requires Accounted(cfg, st)
    ensures Accounted(cfg, CompleteRefresh(cfg, st, k, oldId, h)) <==>
              (k in st.entries && st.entries[k].holder.id == oldId ==> Fits(cfg, st, k, h))
  {
    hide Accounted, Insert;
    if k in st.entries {
      if h.None? {
        SameSizes(cfg, st, st.(entries := st.entries[k := st.entries[k].(updating := false)]));
      } else {
        EraseKeeps(cfg, st, k);
        InsertAccountedIff(cfg, Erase(cfg, st, k), k, h);
        assert Base(cfg, Erase(cfg, st, k), k) == Base(cfg, st, k);
      }
    }
  }

  /** Which regions touch the pending loads, and how. */
  lemma PendingFrame<K, V>(cfg: Config, st: State<K, V>, k: K, now: int, stale: Option<Holder<V>>, cb: Callback,
                           h: Option<Holder<V>>, oldId: nat)
    ensures SharedLookup(cfg, st, k, now).1.pending == st.pending
    ensures UniqueLookup(cfg, st, k, now).1.pending == st.pending
    ensures CompleteRefresh(cfg, st, k, oldId, h).pending == st.pending
    ensures h.Some? ==> Insert(cfg, st, k, h.value).pending == st.pending
    ensures var (cbs, st') := CompleteLoad(cfg, st, k, h);
            st'.pending == st.pending - {k} && cbs == if k in st.pending then st.pending[k] else []
    ensures var (q, st') := EnqueueLoad(cfg, st, k, now, stale, cb);
            match q
            case Ready(_) => st'.pending == st.pending
            case Waiting(start, _) => start == (k !in st.pending) && st'.pending == Park(st, k, cb).pending
  {
    hide Insert;
    if h.Some? {
      InsertFrame(cfg, st, k, h.value);
      InsertFrame(cfg, st.(pending := st.pending - {k}), k, h.value);
      if k in st.entries {
        InsertFrame(cfg, Erase(cfg, st, k), k, h.value);
      }
    }
  }

  /** Which regions touch the entries, and how. */
  lemma EntriesFrame<K, V>(cfg: Config, st: State<K, V>, k: K, now: int, stale: Option<Holder<V>>, cb: Callback)
    ensures SharedLookup(cfg, st, k, now).1.entries == st.entries
    ensures EnqueueLoad(cfg, st, k, now, stale, cb).1.entries in {st.entries, st.entries - {k}}
    ensures var (found, st') := UniqueLookup(cfg, st, k, now);
            if found.Hit? && found.refresh then
              && k in st.entries && !st.entries[k].updating && found.holder == st.entries[k].holder
              && st'.entries == st.entries[k := st.entries[k].(updating := true)]
            else st'.entries in {st.entries, st.entries - {k}}
  {
  }

  lemma FlightUntouched<K(!new), V>(sys: Sys<K, V>, sys': Sys<K, V>)
    requires SingleFlight(sys) && sys'.cache.pending == sys.cache.pending && sys'.loads == sys.loads
    ensures SingleFlight(sys')
  {
  }

  lemma FlightQueued<K(!new), V>(sys: Sys<K, V>, sys': Sys<K, V>, k: K, cb: Callback)
    requires SingleFlight(sys) && sys'.cache.pending == Park(sys.cache, k, cb).pending
    requires sys'.loads == if k in sys.cache.pending then sys.loads else sys.loads + multiset{k}
    ensures SingleFlight(sys')
  {
  }

  lemma FlightEnds<K(!new), V>(sys: Sys<K, V>, sys': Sys<K, V>, k: K)
    requires SingleFlight(sys) && sys'.cache.pending == sys.cache.pending - {k} && k in sys.loads
    requires sys'.loads == sys.loads - multiset{k}
    ensures SingleFlight(sys')
  {
  }

  lemma SingleFlightStep<K(!new), V>(cfg: Config, sys: Sys<K, V>, step: Step<K, V>)
    requires SingleFlight(sys) && Next(cfg, sys, step).Some?
    ensures SingleFlight(Next(cfg, sys, step).value)
  {
    hide Insert, SharedLookup, UniqueLookup, EnqueueLoad, CompleteLoad, CompleteRefresh, AfterLookup, Batch, IsNew,
      SingleFlight, Known, Park;
    var st, sys' := sys.cache, Next(cfg, sys, step).value;
    match step
    case Start(_, _, _, _) => FlightUntouched(sys, sys');
    case LookShared(cb) =>
      PendingFrame(cfg, st, sys.calls[cb].key, sys.calls[cb].now, None, cb, None, 0);
      FlightUntouched(sys, sys');
    case LookUnique(cb) =>
      PendingFrame(cfg, st, sys.calls[cb].key, sys.calls[cb].now, None, cb, None, 0);
      FlightUntouched(sys, sys');
    case Enqueue(cb) =>
      var c := sys.calls[cb];
      PendingFrame(cfg, st, c.key, c.now, c.stale, cb, None, 0);
      if EnqueueLoad(cfg, st, c.key, c.now, c.stale, cb).0.Ready? {
        FlightUntouched(sys, sys');
      } else {
        FlightQueued(sys, sys', c.key, cb);
      }
    case FetchDone(cb, h) =>
      PendingFrame(cfg, st, sys.calls[cb].key, 0, None, cb, h, 0);
      FlightUntouched(sys, sys');
    case Reply(_) => FlightUntouched(sys, sys');
    case LoadDone(key, h) =>
      PendingFrame(cfg, st, key, 0, None, 0, h, 0);
      FlightEnds(sys, sys', key);
    case Deliver(_) => FlightUntouched(sys, sys');
    case RefreshDone(key, oldId, h) =>
      PendingFrame(cfg, st, key, 0, None, 0, h, oldId);
      FlightUntouched(sys, sys');
  }

  /** A store of one fresh, unmarked holder keeps the match between flags and refreshes. */
  lemma StoreMatches<K(!new), V>(cfg: Config, sys: Sys<K, V>, sys': Sys<K, V>, k: K, h: Option<Holder<V>>)
    requires RefreshMatches(sys) && sys'.refreshes == sys.refreshes && sys'.holders == Known(sys.holders, h)
    requires IsNew(sys, h)
    requires forall x :: x in sys'.cache.entries ==>
               || (h.Some? && x == k && sys'.cache.entries[x] == Entry(h.value, false))
               || (x in sys.cache.entries && sys'.cache.entries[x] == sys.cache.entries[x])
    ensures RefreshMatches(sys')
  {
  }

  /** A finished refresh: the flag goes with it, whatever becomes of the entry. */
  lemma RefreshDoneMatches<K(!new), V>(cfg: Config, sys: Sys<K, V>, k: K, oldId: nat, h: Option<Holder<V>>)
    requires RefreshMatches(sys) && (k, oldId) in sys.refreshes && IsNew(sys, h)
    ensures RefreshMatches(sys.(cache := CompleteRefresh(cfg, sys.cache, k, oldId, h),
                                refreshes := sys.refreshes - multiset{(k, oldId)}, holders := Known(sys.holders, h)))
  {
    hide Insert;
    var st := sys.cache;
    var refreshes := sys.refreshes - multiset{(k, oldId)};
    assert forall x, id :: (x, id) in refreshes <==> (x, id) in sys.refreshes && (x, id) != (k, oldId);
    if k in st.entries && st.entries[k].holder.id == oldId && h.Some? {
      InsertFrame(cfg, Erase(cfg, st, k), k, h.value);
    }
  }

  lemma MarkedMatches<K(!new), V>(sys: Sys<K, V>, sys': Sys<K, V>, k: K)
    requires RefreshMatches(sys) && k in sys.cache.entries && !sys.cache.entries[k].updating
    requires sys'.cache.entries == sys.cache.entries[k := sys.cache.entries[k].(updating := true)]
    requires sys'.refreshes == sys.refreshes + multiset{(k, sys.cache.entries[k].holder.id)}
    requires sys'.holders == sys.holders
    ensures RefreshMatches(sys')
  {
    var id := sys.cache.entries[k].holder.id;
    assert forall x, y :: (x, y) in sys'.refreshes <==> (x, y) in sys.refreshes || (x, y) == (k, id);
  }

  /** The lookups and the queueing of a call. */
  lemma RefreshCallStep<K(!new), V>(cfg: Config, sys: Sys<K, V>, step: Step<K, V>)
    requires RefreshMatches(sys) && Next(cfg, sys, step).Some?
    requires step.LookShared? || step.LookUnique? || step.Enqueue?
    ensures RefreshMatches(Next(cfg, sys, step).value)
  {
    hide SharedLookup, UniqueLookup, EnqueueLoad, AfterLookup, RefreshMatches;
    var sys' := Next(cfg, sys, step).value;
    var c := sys.calls[step.cb];
    EntriesFrame(cfg, sys.cache, c.key, c.now, if c.Queueing? then c.stale else None, step.cb);
    if step.LookShared? {
      RefreshUntouched(sys, sys');
    } else if step.LookUnique? && UniqueLookup(cfg, sys.cache, c.key, c.now).0.Hit?
      && UniqueLookup(cfg, sys.cache, c.key, c.now).0.refresh {
      MarkedMatches(sys, sys', c.key);
    } else {
      RefreshShrinks(sys, sys', c.key);
    }
  }

  lemma RefreshStep<K(!new), V>(cfg: Config, sys: Sys<K, V>, step: Step<K, V>)
    requires RefreshMatches(sys) && Next(cfg, sys, step).Some?
    ensures RefreshMatches(Next(cfg, sys, step).value)
  {
    hide Insert, SharedLookup, UniqueLookup, EnqueueLoad, CompleteRefresh, AfterLookup, Batch, RefreshMatches,
      IsNew, Known;
    var st, sys' := sys.cache, Next(cfg, sys, step).value;
    match step
    case Start(_, _, _, _) => RefreshUntouched(sys, sys');
    case FetchDone(cb, h) =>
      if h.Some? { InsertFrame(cfg, st, sys.calls[cb].key, h.value); }
      StoreMatches(cfg, sys, sys', sys.calls[cb].key, h);
    case Reply(cb) => RefreshUntouched(sys, sys');
    case LoadDone(key, h) =>
      if h.Some? { InsertFrame(cfg, st.(pending := st.pending - {key}), key, h.value); }
      StoreMatches(cfg, sys, sys', key, h);
    case Deliver(_) => RefreshUntouched(sys, sys');
    case RefreshDone(key, oldId, h) => RefreshDoneMatches(cfg, sys, key, oldId, h);
    case _ => RefreshCallStep(cfg, sys, step);
  }

  lemma RefreshShrinks<K(!new), V>(sys: Sys<K, V>, sys': Sys<K, V>, k: K)
    requires RefreshMatches(sys) && sys'.cache.entries in {sys.cache.entries, sys.cache.entries - {k}}
    requires sys'.refreshes == sys.refreshes && sys'.holders == sys.holders
    ensures RefreshMatches(sys')
  {
  }

  lemma RefreshUntouched<K(!new), V>(sys: Sys<K, V>, sys': Sys<K, V>)
    requires RefreshMatches(sys)
    requires sys'.cache.entries == sys.cache.entries && sys'.refreshes == sys.refreshes && sys'.holders == sys.holders
    ensures RefreshMatches(sys')
  {
  }

  /** Lookups and queueing only answer with holders that are not expired. */
  lemma HitsAreFresh<K, V>(cfg: Config, st: State<K, V>, k: K, now: int, stale: Option<Holder<V>>, cb: Callback,
                           sync: bool)
    ensures var c := AfterLookup(SharedLookup(cfg, st, k, now).0, k, now, sync);
            c.Answering? ==> FreshAnswer(cfg, c.answer)
    ensures var c := AfterLookup(UniqueLookup(cfg, st, k, now).0, k, now, sync);
            c.Answering? ==> FreshAnswer(cfg, c.answer)
    ensures var q := EnqueueLoad(cfg, st, k, now, stale, cb).0;
            q.Ready? ==> FreshAnswer(cfg, FromCache(q.holder, now))
  {
  }

  lemma FreshSet<K(!new), V>(cfg: Config, sys: Sys<K, V>, sys': Sys<K, V>, cb: Callback, c: Call<K, V>)
    requires FreshHits(cfg, sys) && (c.Answering? ==> FreshAnswer(cfg, c.answer))
    requires sys'.calls == sys.calls[cb := c] || sys'.calls == sys.calls - {cb}
    requires sys'.delivering == sys.delivering && sys'.log == sys.log
    ensures FreshHits(cfg, sys')
  {
  }

  lemma FreshMoved<K(!new), V>(cfg: Config, sys: Sys<K, V>, sys': Sys<K, V>, a: Answer<V>)
    requires FreshHits(cfg, sys) && FreshAnswer(cfg, a)
    requires forall cb :: cb in sys'.calls ==> cb in sys.calls && sys'.calls[cb] == sys.calls[cb]
    requires forall i :: 0 <= i < |sys'.delivering| ==>
               sys'.delivering[i] in sys.delivering || sys'.delivering[i].answer == a
    requires forall i :: 0 <= i < |sys'.log| ==> sys'.log[i] in sys.log || sys'.log[i].answer == a
    ensures FreshHits(cfg, sys')
  {
    hide FreshAnswer;
  }

  /** The steps of a call under way. */
  lemma FreshCallStep<K(!new), V>(cfg: Config, sys: Sys<K, V>, step: Step<K, V>)
    requires step.LookShared? || step.LookUnique? || step.Enqueue?
    requires FreshHits(cfg, sys) && Next(cfg, sys, step).Some?
    ensures FreshHits(cfg, Next(cfg, sys, step).value)
  {
    hide Insert, SharedLookup, UniqueLookup, EnqueueLoad, CompleteLoad, CompleteRefresh, AfterLookup, FreshAnswer,
      FreshHits, IsNew, Known;
    var sys', cb, c := Next(cfg, sys, step).value, step.cb, sys.calls[step.cb];
    if c.Queueing? {
      HitsAreFresh(cfg, sys.cache, c.key, c.now, c.stale, cb, false);
      FreshSet(cfg, sys, sys', cb, if cb in sys'.calls then sys'.calls[cb] else Fetching(c.key));
    } else {
      HitsAreFresh(cfg, sys.cache, c.key, c.now, None, cb, c.sync);
      FreshSet(cfg, sys, sys', cb, sys'.calls[cb]);
    }
  }

  lemma FreshReply<K(!new), V>(cfg: Config, sys: Sys<K, V>, cb: Callback)
    requires FreshHits(cfg, sys) && Next(cfg, sys, Reply(cb)).Some?
    ensures FreshHits(cfg, Next(cfg, sys, Reply(cb)).value)
  {
    hide FreshAnswer, FreshHits;
    CallIsFresh(cfg, sys, cb);
    FreshMoved(cfg, sys, Next(cfg, sys, Reply(cb)).value, sys.calls[cb].answer);
  }

  lemma FreshDeliver<K(!new), V>(cfg: Config, sys: Sys<K, V>, i: nat)
    requires FreshHits(cfg, sys) && Next(cfg, sys, Deliver(i)).Some?
    ensures FreshHits(cfg, Next(cfg, sys, Deliver(i)).value)
  {
    hide FreshAnswer, FreshHits;
    DeliveryIsFresh(cfg, sys, i);
    FreshMoved(cfg, sys, Next(cfg, sys, Deliver(i)).value, sys.delivering[i].answer);
  }

  lemma FreshLoadDone<K(!new), V>(cfg: Config, sys: Sys<K, V>, k: K, h: Option<Holder<V>>)
    requires FreshHits(cfg, sys) && Next(cfg, sys, LoadDone(k, h)).Some?
    ensures FreshHits(cfg, Next(cfg, sys, LoadDone(k, h)).value)
  {
    hide FreshAnswer, FreshHits, CompleteLoad, IsNew, Known;
    LoadsAreFresh(cfg, h);
    FreshMoved(cfg, sys, Next(cfg, sys, LoadDone(k, h)).value, FromLoad(h));
  }

  lemma FreshHitsStep<K(!new), V>(cfg: Config, sys: Sys<K, V>, step: Step<K, V>)
    requires FreshHits(cfg, sys) && Next(cfg, sys, step).Some?
    ensures FreshHits(cfg, Next(cfg, sys, step).value)
  {
    hide Insert, SharedLookup, UniqueLookup, EnqueueLoad, CompleteLoad, CompleteRefresh, AfterLookup, FreshAnswer,
      FreshHits, IsNew, Known;
    var sys' := Next(cfg, sys, step).value;
    match step
    case Start(cb, key, now, sync) => FreshSet(cfg, sys, sys', cb, sys'.calls[cb]);
    case LookShared(cb) => FreshCallStep(cfg, sys, step);
    case LookUnique(cb) => FreshCallStep(cfg, sys, step);
    case Enqueue(cb) => FreshCallStep(cfg, sys, step);
    case FetchDone(cb, h) =>
      LoadsAreFresh(cfg, h);
      FreshSet(cfg, sys, sys', cb, sys'.calls[cb]);
    case Reply(cb) => FreshReply(cfg, sys, cb);
    case LoadDone(key, h) => FreshLoadDone(cfg, sys, key, h);
    case Deliver(i) => FreshDeliver(cfg, sys, i);
    case RefreshDone(_, _, _) =>
      LoadsAreFresh<V>(cfg, None);
      FreshMoved(cfg, sys, sys', FromLoad(None));
  }

  lemma DeliveryIsFresh<K(!new), V>(cfg: Config, sys: Sys<K, V>, i: nat)
    requires FreshHits(cfg, sys) && i < |sys.delivering|
    ensures FreshAnswer(cfg, sys.delivering[i].answer)
  {
  }

  lemma CallIsFresh<K(!new), V>(cfg: Config, sys: Sys<K, V>, cb: Callback)
    requires FreshHits(cfg, sys) && cb in sys.calls && sys.calls[cb].Answering?
    ensures FreshAnswer(cfg, sys.calls[cb].answer)
  {
  }

  lemma LoadsAreFresh<V>(cfg: Config, h: Option<Holder<V>>)
    ensures FreshAnswer(cfg, FromLoad(h))
  {
  }

  /* ---- conservation of callbacks ---- */

  lemma ConservedUntouched<K(!new), V>(sys: Sys<K, V>, sys': Sys<K, V>)
    requires Conserved(sys) && sys'.calls.Keys == sys.calls.Keys && sys'.cache.pending == sys.cache.pending
    requires sys'.delivering == sys.delivering && sys'.log == sys.log && sys'.issued == sys.issued
    ensures Conserved(sys')
  {
    hide Parked, InList, ParkedOnce, OnceEach;
    assert forall cb :: cb in sys'.calls <==> cb in sys.calls.Keys;
  }

  lemma ConservedStart<K(!new), V>(sys: Sys<K, V>, sys': Sys<K, V>, cb: Callback)
    requires Conserved(sys) && cb !in sys.issued
    requires sys'.calls.Keys == sys.calls.Keys + {cb} && sys'.cache.pending == sys.cache.pending
    requires sys'.delivering == sys.delivering && sys'.log == sys.log && sys'.issued == sys.issued + {cb}
    ensures Conserved(sys')
  {
    hide Parked, InList, ParkedOnce, OnceEach;
    assert forall x :: x in sys'.calls <==> x in sys.calls.Keys + {cb};
  }

  /** A callback is parked at the end of the list of its key. */
  lemma ParkedAfterPark<K(!new), V>(st: State<K, V>, k: K, cb: Callback)
    requires ParkedOnce(st.pending) && !Parked(cb, st.pending)
    ensures ParkedOnce(Park(st, k, cb).pending)
    ensures forall x :: Parked(x, Park(st, k, cb).pending) <==> Parked(x, st.pending) || x == cb
  {
    var before := if k in st.pending then st.pending[k] else [];
    var after := Park(st, k, cb).pending;
    assert after[k] == before + [cb] && cb in after[k];
    assert cb !in before;
    assert forall x :: x in after[k] <==> x in before || x == cb;
    assert forall i :: 0 <= i < |before| ==> before[i] in before;
    forall x
      ensures Parked(x, after) <==> Parked(x, st.pending) || x == cb
    {
      if Parked(x, st.pending) {
        var k' :| k' in st.pending && x in st.pending[k'];
        assert k' in after && x in after[k'];
      }
    }
  }

  lemma ConservedQueued<K(!new), V>(sys: Sys<K, V>, sys': Sys<K, V>, k: K, cb: Callback)
    requires Conserved(sys) && cb in sys.calls
    requires sys'.calls.Keys == sys.calls.Keys - {cb} && sys'.cache.pending == Park(sys.cache, k, cb).pending
    requires sys'.delivering == sys.delivering && sys'.log == sys.log && sys'.issued == sys.issued
    ensures Conserved(sys')
  {
    hide Park, InList, ParkedOnce, OnceEach, Parked;
    ParkedAfterPark(sys.cache, k, cb);
    assert forall x :: x in sys'.calls <==> x in sys.calls.Keys - {cb};
  }

  lemma ParkedAfterRelease<K(!new)>(pending: map<K, seq<Callback>>, k: K)
    requires ParkedOnce(pending) && k in pending
    ensures ParkedOnce(pending - {k})
    ensures forall x :: Parked(x, pending) <==> Parked(x, pending - {k}) || x in pending[k]
    ensures forall x :: x in pending[k] ==> !Parked(x, pending - {k})
  {
    forall x
      ensures Parked(x, pending) <==> Parked(x, pending - {k}) || x in pending[k]
    {
      if Parked(x, pending) {
        var k' :| k' in pending && x in pending[k'];
        assert k' != k ==> k' in pending - {k};
      }
    }
  }

  lemma BatchJoins<V>(ds: seq<Delivery<V>>, cbs: seq<Callback>, a: Answer<V>)
    requires OnceEach(ds) && Distinct(cbs) && forall cb :: cb in cbs ==> !InList(cb, ds)
    ensures OnceEach(ds + Batch(cbs, a))
    ensures forall cb :: InList(cb, ds + Batch(cbs, a)) <==> InList(cb, ds) || cb in cbs
  {
    var b := Batch(cbs, a);
    assert forall i :: 0 <= i < |cbs| ==> b[i].cb == cbs[i] && cbs[i] in cbs;
    assert forall i :: 0 <= i < |ds| ==> InList(ds[i].cb, ds);
    forall cb
      ensures InList(cb, ds + b) <==> InList(cb, ds) || cb in cbs
    {
      if InList(cb, ds) {
        var i :| 0 <= i < |ds| && ds[i].cb == cb;
        assert (ds + b)[i].cb == cb;
      }
      if cb in cbs {
        var i :| 0 <= i < |cbs| && cbs[i] == cb;
        assert (ds + b)[|ds| + i].cb == cb;
      }
    }
  }

  lemma ConservedLoaded<K(!new), V>(sys: Sys<K, V>, sys': Sys<K, V>, k: K, a: Answer<V>)
    requires Conserved(sys) && k in sys.cache.pending
    requires sys'.calls.Keys == sys.calls.Keys && sys'.cache.pending == sys.cache.pending - {k}
    requires sys'.delivering == sys.delivering + Batch(sys.cache.pending[k], a)
    requires sys'.log == sys.log && sys'.issued == sys.issued
    ensures Conserved(sys')
  {
    var cbs := sys.cache.pending[k];
    assert forall cb :: cb in cbs ==> Parked(cb, sys.cache.pending);
    ParkedAfterRelease(sys.cache.pending, k);
    BatchJoins(sys.delivering, cbs, a);
    hide InList, ParkedOnce, OnceEach, Parked, Distinct, Batch;
    assert forall x :: x in sys'.calls <==> x in sys.calls.Keys;
  }

  lemma LogGrows<V>(log: seq<Delivery<V>>, d: Delivery<V>)
    requires OnceEach(log) && !InList(d.cb, log)
    ensures OnceEach(log + [d])
    ensures forall cb :: InList(cb, log + [d]) <==> InList(cb, log) || cb == d.cb
  {
    assert forall i :: 0 <= i < |log| ==> InList(log[i].cb, log);
    forall cb
      ensures InList(cb, log + [d]) <==> InList(cb, log) || cb == d.cb
    {
      assert (log + [d])[|log|] == d;
      if InList(cb, log) {
        var i :| 0 <= i < |log| && log[i].cb == cb;
        assert (log + [d])[i].cb == cb;
      }
    }
  }

  lemma ListShrinks<V>(ds: seq<Delivery<V>>, i: nat)
    requires OnceEach(ds) && i < |ds|
    ensures OnceEach(ds[..i] + ds[i + 1..])
    ensures forall cb :: InList(cb, ds[..i] + ds[i + 1..]) <==> InList(cb, ds) && cb != ds[i].cb
  {
    var rest := ds[..i] + ds[i + 1..];
    forall cb
      ensures InList(cb, rest) <==> InList(cb, ds) && cb != ds[i].cb
    {
      if InList(cb, rest) {
        var j :| 0 <= j < |rest| && rest[j].cb == cb;
        assert rest[j] == if j < i then ds[j] else ds[j + 1];
      }
      if InList(cb, ds) && cb != ds[i].cb {
        var j :| 0 <= j < |ds| && ds[j].cb == cb;
        assert ds[j] == if j < i then rest[j] else rest[j - 1];
      }
    }
  }

  lemma ConservedDelivered<K(!new), V>(sys: Sys<K, V>, sys': Sys<K, V>, i: nat)
    requires Conserved(sys) && i < |sys.delivering|
    requires sys'.calls.Keys == sys.calls.Keys && sys'.cache.pending == sys.cache.pending
    requires sys'.delivering == sys.delivering[..i] + sys.delivering[i + 1..]
    requires sys'.log == sys.log + [sys.delivering[i]] && sys'.issued == sys.issued
    ensures Conserved(sys')
  {
    assert InList(sys.delivering[i].cb, sys.delivering);
    hide InList, ParkedOnce, OnceEach, Parked;
    ListShrinks(sys.delivering, i);
    LogGrows(sys.log, sys.delivering[i]);
    assert forall x :: x in sys'.calls <==> x in sys.calls.Keys;
  }

  lemma ConservedReplied<K(!new), V>(sys: Sys<K, V>, sys': Sys<K, V>, cb: Callback, a: Answer<V>)
    requires Conserved(sys) && cb in sys.calls
    requires sys'.calls.Keys == sys.calls.Keys - {cb} && sys'.cache.pending == sys.cache.pending
    requires sys'.delivering == sys.delivering && sys'.log == sys.log + [Delivery(cb, a)] && sys'.issued == sys.issued
    ensures Conserved(sys')
  {
    hide InList, ParkedOnce, OnceEach, Parked;
    LogGrows(sys.log, Delivery(cb, a));
    assert forall x :: x in sys'.calls <==> x in sys.calls.Keys - {cb};
  }

  /** The steps of a caller. */
  lemma ConservedCallStep<K(!new), V>(cfg: Config, sys: Sys<K, V>, step: Step<K, V>)
    requires Conserved(sys) && SingleFlight(sys) && Next(cfg, sys, step).Some?
    requires step.Start? || step.LookShared? || step.LookUnique? || step.Enqueue? || step.Reply?
    ensures Conserved(Next(cfg, sys, step).value)
  {
    hide Insert, SharedLookup, UniqueLookup, EnqueueLoad, CompleteLoad, CompleteRefresh, AfterLookup, Conserved,
      IsNew, Known, Park, Batch;
    var st, sys' := sys.cache, Next(cfg, sys, step).value;
    match step
    case Start(cb, _, _, _) => ConservedStart(sys, sys', cb);
    case LookShared(cb) =>
      PendingFrame(cfg, st, sys.calls[cb].key, sys.calls[cb].now, None, cb, None, 0);
      ConservedUntouched(sys, sys');
    case LookUnique(cb) =>
      PendingFrame(cfg, st, sys.calls[cb].key, sys.calls[cb].now, None, cb, None, 0);
      ConservedUntouched(sys, sys');
    case Enqueue(cb) =>
      var c := sys.calls[cb];
      PendingFrame(cfg, st, c.key, c.now, c.stale, cb, None, 0);
      if EnqueueLoad(cfg, st, c.key, c.now, c.stale, cb).0.Ready? {
        ConservedUntouched(sys, sys');
      } else {
        ConservedQueued(sys, sys', c.key, cb);
      }
    case Reply(cb) => ConservedReplied(sys, sys', cb, sys.calls[cb].answer);
  }

  lemma ConservedStep<K(!new), V>(cfg: Config, sys: Sys<K, V>, step: Step<K, V>)
    requires Conserved(sys) && SingleFlight(sys) && Next(cfg, sys, step).Some?
    ensures Conserved(Next(cfg, sys, step).value)
  {
    hide Insert, SharedLookup, UniqueLookup, EnqueueLoad, CompleteLoad, CompleteRefresh, AfterLookup, Conserved,
      IsNew, Known, Park, Batch;
    var st, sys' := sys.cache, Next(cfg, sys, step).value;
    match step
    case FetchDone(cb, h) =>
      PendingFrame(cfg, st, sys.calls[cb].key, 0, None, cb, h, 0);
      ConservedUntouched(sys, sys');
    case LoadDone(key, h) =>
      PendingFrame(cfg, st, key, 0, None, 0, h, 0);
      assert sys.loads[key] == 1;
      ConservedLoaded(sys, sys', key, FromLoad(h));
    case Deliver(i) => ConservedDelivered(sys, sys', i);
    case RefreshDone(key, oldId, h) =>
      PendingFrame(cfg, st, key, 0, None, 0, h, oldId);
      ConservedUntouched(sys, sys');
    case _ => ConservedCallStep(cfg, sys, step);
  }

  /* ---- every run ---- */

  lemma InitialInv<K(!new), V>(cfg: Config)
    ensures Inv(cfg, Initial<K, V>()) && Accounted(cfg, Initial<K, V>().cache)
  {
  }

  /** Single flight, refresh flags, freshness and delivery hold after every step of every interleaving,
      whatever the sizes; the accounts hold as long as no store wraps the size counter. */
  lemma {:induction false} EveryRun<K(!new), V>(cfg: Config, steps: seq<Step<K, V>>)
    ensures Run(cfg, steps).Some? ==> Inv(cfg, Run(cfg, steps).value)
    ensures Run(cfg, steps).Some? && NeverWraps(cfg, steps) ==> Accounted(cfg, Run(cfg, steps).value.cache)
  {
    hide Next, Accounted, SingleFlight, RefreshMatches, FreshHits, Conserved, NoWrap;
    if steps == [] {
      InitialInv<K, V>(cfg);
    } else {
      var init, last := steps[..|steps| - 1], steps[|steps| - 1];
      EveryRun(cfg, init);
      if Run(cfg, steps).Some? {
        var sys := Run(cfg, init).value;
        if NeverWraps(cfg, steps) {
          AccountingStepIff(cfg, sys, last);
        }
        SingleFlightStep(cfg, sys, last);
        RefreshStep(cfg, sys, last);
        FreshHitsStep(cfg, sys, last);
        ConservedStep(cfg, sys, last);
      }
    }
  }

  lemma {:induction false} PrefixRuns<K(!new), V>(cfg: Config, steps: seq<Step<K, V>>, n: nat)
    requires Run(cfg, steps).Some? && n <= |steps|
    ensures Run(cfg, steps[..n]).Some?
    decreases |steps|
  {
    if n == |steps| {
      assert steps[..n] == steps;
    } else {
      var init := steps[..|steps| - 1];
      PrefixRuns(cfg, init, n);
      assert init[..n] == steps[..n];
    }
  }

  ghost predicate AccountedAt<K, V>(cfg: Config, steps: seq<Step<K, V>>, n: nat)
    requires n <= |steps|
  {
    var sys := Run(cfg, steps[..n]);
    sys.Some? && Accounted(cfg, sys.value.cache)
  }

  /** The accounts are exact in every state of a run exactly when no step of it wraps the counter. */
  lemma {:induction false} AccountedThroughoutIff<K(!new), V>(cfg: Config, steps: seq<Step<K, V>>)
    requires Run(cfg, steps).Some?
    ensures (forall n :: 0 <= n <= |steps| ==> AccountedAt(cfg, steps, n)) <==> NeverWraps(cfg, steps)
  {
    hide Next, Accounted, NoWrap, Inv;
    assert steps[..|steps|] == steps;
    if steps == [] {
      InitialInv<K, V>(cfg);
    } else {
      var init, last := steps[..|steps| - 1], steps[|steps| - 1];
      AccountedThroughoutIff(cfg, init);
      assert forall n :: 0 <= n <= |init| ==> init[..n] == steps[..n];
      assert forall n :: 0 <= n <= |init| ==> (AccountedAt(cfg, init, n) <==> AccountedAt(cfg, steps, n));
      if AccountedAt(cfg, init, |init|) {
        assert init[..|init|] == init;
        AccountingStepIff(cfg, Run(cfg, init).value, last);
      }
      assert AccountedAt(cfg, steps, |steps|) <==> Accounted(cfg, Run(cfg, steps).value.cache);
    }
  }

  /** A lookup that finds a holder old enough to refresh but not expired goes on to the exclusive lock, is
      answered from the cache, and starts a refresh unless one is in flight. */
  lemma DueHitRefreshes<K(!new), V>(cfg: Config, sys: Sys<K, V>, cb: Callback)
    requires cb in sys.calls && (sys.calls[cb].Looking? || sys.calls[cb].LookingAgain?)
    requires var c := sys.calls[cb];
             c.key in sys.cache.entries &&
             var e := sys.cache.entries[c.key];
             && c.now < e.holder.checkTime + cfg.maxKeep && e.holder.checkTime + cfg.updatePeriod <= c.now
             && !e.updating
    ensures var c := sys.calls[cb];
            var e := sys.cache.entries[c.key];
            if c.Looking? then
              Next(cfg, sys, LookShared(cb)) == Some(sys.(calls := sys.calls[cb := LookingAgain(c.key, c.now, c.sync)]))
            else
              var next := Next(cfg, sys, LookUnique(cb));
              && next.Some? && next.value.calls[cb] == Answering(FromCache(e.holder, c.now))
              && next.value.cache.entries == sys.cache.entries[c.key := Entry(e.holder, true)]
              && next.value.refreshes == sys.refreshes + multiset{(c.key, e.holder.id)}
  {
    hide Without;
  }

  /* ---- refreshes that come too late ---- */

  /** The holder has been in the cache's hands and is not the key's current one. */
  predicate Gone<K(==), V>(sys: Sys<K, V>, k: K, id: nat) {
    id in sys.holders && (k in sys.cache.entries ==> sys.cache.entries[k].holder.id != id)
  }

  /** A refresh in flight is either for the key's current holder, whose flag is then set, or for one
      that is gone. */
  lemma RefreshIsCurrentOrGone<K(!new), V>(cfg: Config, steps: seq<Step<K, V>>, k: K, id: nat)
    requires Run(cfg, steps).Some? && (k, id) in Run(cfg, steps).value.refreshes
    ensures var sys := Run(cfg, steps).value;
            || Gone(sys, k, id)
            || (k in sys.cache.entries && sys.cache.entries[k].holder.id == id && sys.cache.entries[k].updating)
  {
    EveryRun(cfg, steps);
  }

  /** Lookups and queueing lose entries or mark one. */
  lemma GoneLookup<K(!new), V>(cfg: Config, sys: Sys<K, V>, step: Step<K, V>, k: K, id: nat)
    requires Next(cfg, sys, step).Some? && Gone(sys, k, id)
    requires step.LookShared? || step.LookUnique? || step.Enqueue?
    ensures Gone(Next(cfg, sys, step).value, k, id)
  {
    hide SharedLookup, UniqueLookup, EnqueueLoad, AfterLookup;
    var c := sys.calls[step.cb];
    EntriesFrame(cfg, sys.cache, c.key, c.now, if c.Queueing? then c.stale else None, step.cb);
  }

  /** Stores keep entries, lose some, or put a new holder in. */
  lemma GoneStore<K(!new), V>(cfg: Config, sys: Sys<K, V>, step: Step<K, V>, k: K, id: nat)
    requires Next(cfg, sys, step).Some? && Gone(sys, k, id)
    requires step.FetchDone? || step.LoadDone? || step.RefreshDone?
    ensures Gone(Next(cfg, sys, step).value, k, id)
  {
    hide Insert, Batch;
    var st := sys.cache;
    match step
    case FetchDone(cb, h) => if h.Some? { InsertFrame(cfg, st, sys.calls[cb].key, h.value); }
    case LoadDone(key, h) => if h.Some? { InsertFrame(cfg, st.(pending := st.pending - {key}), key, h.value); }
    case RefreshDone(key, oldId, h) =>
      if h.Some? && key in st.entries { InsertFrame(cfg, Erase(cfg, st, key), key, h.value); }
  }

  lemma GoneStep<K(!new), V>(cfg: Config, sys: Sys<K, V>, step: Step<K, V>, k: K, id: nat)
    requires Next(cfg, sys, step).Some? && Gone(sys, k, id)
    ensures Gone(Next(cfg, sys, step).value, k, id)
  {
    if step.LookShared? || step.LookUnique? || step.Enqueue? {
      GoneLookup(cfg, sys, step, k, id);
    } else if step.FetchDone? || step.LoadDone? || step.RefreshDone? {
      GoneStore(cfg, sys, step, k, id);
    }
  }

  /** A replaced or evicted holder never comes back: once gone it is gone in every continuation, even
      while its replacement is itself being refreshed, and a refresh completed for it changes nothing. */
  lemma {:induction false} LateRefreshIsIgnored<K(!new), V>(cfg: Config, steps: seq<Step<K, V>>, n: nat, k: K, id: nat,
                                                            h: Option<Holder<V>>)
    requires Run(cfg, steps).Some? && n <= |steps|
    requires Run(cfg, steps[..n]).Some? ==> Gone(Run(cfg, steps[..n]).value, k, id)
    ensures var sys := Run(cfg, steps).value;
            Gone(sys, k, id) && CompleteRefresh(cfg, sys.cache, k, id, h) == sys.cache
    decreases |steps|
  {
    hide Next;
    PrefixRuns(cfg, steps, n);
    if n == |steps| {
      assert steps[..n] == steps;
    } else {
      var init := steps[..|steps| - 1];
      assert init[..n] == steps[..n];
      LateRefreshIsIgnored(cfg, init, n, k, id, h);
      GoneStep(cfg, Run(cfg, init).value, steps[|steps| - 1], k, id);
    }
  }

  /** When nothing is running or on its way, every callback ever handed in has been called exactly once. */
  lemma AllAnsweredAtRest<K(!new), V>(cfg: Config, steps: seq<Step<K, V>>, cb: Callback)
    requires Run(cfg, steps).Some?
    requires var sys := Run(cfg, steps).value; sys.calls == map[] && sys.loads == multiset{} && sys.delivering == []
    ensures var sys := Run(cfg, steps).value;
            && OnceEach(sys.log) && (cb in sys.issued <==> InList(cb, sys.log)) && sys.cache.pending == map[]
  {
    EveryRun(cfg, steps);
    var sys := Run(cfg, steps).value;
    assert forall k :: k in sys.cache.pending ==> sys.loads[k] == 1;
    assert sys.cache.pending.Keys == {};
  }
}
