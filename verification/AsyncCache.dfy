/** The lock regions of the asynchronous cache: what each does to the entries, the LRU list, the size
    counter and the pending loads, and the accounting they keep. */
module AsyncCache {
  import opened Common

  /** A loaded value. Holders are compared by identity. */
  datatype Holder<V> = Holder(id: nat, value: Option<V>, checkTime: int, size: Size)

  datatype Entry<V> = Entry(holder: Holder<V>, updating: bool)

  type Callback = nat

  const SIZE_MOD := 0x1_0000_0000_0000_0000

  /** A 64-bit `size_t`. */
  type Size = n: int | 0 <= n < 0x1_0000_0000_0000_0000

  const UNLIMITED: Size := SIZE_MOD - 1

  datatype Config = Config(maxSize: Size, updatePeriod: int, maxKeep: int) {
    predicate Bounded() { maxSize != UNLIMITED }
    predicate Expired<V>(h: Holder<V>, now: int) { h.checkTime + maxKeep <= now }
    predicate Due<V>(e: Entry<V>, now: int) { e.holder.checkTime + updatePeriod <= now && !e.updating }
  }

  datatype State<!K(==), V> = State(
    entries: map<K, Entry<V>>,
    pending: map<K, seq<Callback>>,
    lru: seq<K>,
    size: Size)

  /** A sum or difference of two sizes, reduced to 64 bits. */
  function Wrap(n: int): (r: Size)
    requires -SIZE_MOD < n < 2 * SIZE_MOD
    ensures r == n % SIZE_MOD
  {
    if n < 0 then n + SIZE_MOD else if n < SIZE_MOD then n else n - SIZE_MOD
  }

  /** The list without the node of `k`. */
  function Without<K(==)>(lru: seq<K>, k: K): (r: seq<K>)
    ensures |r| <= |lru|
  {
    if lru == [] then [] else if lru[0] == k then lru[1..] else [lru[0]] + Without(lru[1..], k)
  }

  function Touch<K(==), V>(cfg: Config, st: State<K, V>, k: K): State<K, V> {
    if cfg.Bounded() then st.(lru := Without(st.lru, k) + [k]) else st
  }

  function Erase<K(==), V>(cfg: Config, st: State<K, V>, k: K): State<K, V>
    requires k in st.entries
  {
    if cfg.Bounded() then
      State(st.entries - {k}, st.pending, Without(st.lru, k), Wrap(st.size - st.entries[k].holder.size))
    else st.(entries := st.entries - {k})
  }

  /** Entries leave from the front of the LRU list until the new size fits or the list is empty. */
  function Evict<K(==), V>(st: State<K, V>, need: Size, max: Size): State<K, V>
    decreases |st.lru|
  {
    if Wrap(st.size + need) > max && st.lru != [] then
      var oldest := st.lru[0];
      if oldest !in st.entries then Evict(st.(lru := st.lru[1..]), need, max)
      else
        Evict(State(st.entries - {oldest}, st.pending, st.lru[1..],
                    Wrap(st.size - st.entries[oldest].holder.size)), need, max)
    else st
  }

  /** The state without the entry the insertion replaces. */
  function Base<K(==), V>(cfg: Config, st: State<K, V>, k: K): State<K, V> {
    if k in st.entries then Erase(cfg, st, k) else st
  }

  function Insert<K(==), V>(cfg: Config, st: State<K, V>, k: K, h: Holder<V>): State<K, V> {
    var base := Base(cfg, st, k);
    if !cfg.Bounded() then base.(entries := base.entries[k := Entry(h, false)])
    else Place(cfg.maxSize, Evict(base, h.size, cfg.maxSize), k, h)
  }

  function Place<K(==), V>(max: Size, st: State<K, V>, k: K, h: Holder<V>): State<K, V> {
    if Wrap(st.size + h.size) > max then st
    else State(st.entries[k := Entry(h, false)], st.pending, st.lru + [k], Wrap(st.size + h.size))
  }

  /* ---- the lock regions ---- */

  /** Outcome of a lookup: nothing usable (with the expired holder, if one was removed), a second
      look under the exclusive lock, or a hit, which may ask for a refresh. */
  datatype Found<V> = Miss(stale: Option<Holder<V>>) | LookAgain | Hit(holder: Holder<V>, refresh: bool)

  function SharedLookup<K(==), V>(cfg: Config, st: State<K, V>, k: K, now: int): (Found<V>, State<K, V>) {
    if k !in st.entries then (Miss(None), st)
    else
      var e := st.entries[k];
      if cfg.Expired(e.holder, now) || cfg.Due(e, now) then (LookAgain, st)
      else (Hit(e.holder, false), Touch(cfg, st, k))
  }

  function UniqueLookup<K(==), V>(cfg: Config, st: State<K, V>, k: K, now: int): (Found<V>, State<K, V>) {
    if k !in st.entries then (Miss(None), st)
    else
      var e := st.entries[k];
      if cfg.Expired(e.holder, now) then (Miss(Some(e.holder)), Erase(cfg, st, k))
      else if cfg.Due(e, now) then
        (Hit(e.holder, true), Touch(cfg, st.(entries := st.entries[k := e.(updating := true)]), k))
      else (Hit(e.holder, false), Touch(cfg, st, k))
  }

  /** Outcome of queueing a callback: a hit after all, or a wait, possibly as the one who loads. */
  datatype Queued<V> = Ready(holder: Holder<V>) | Waiting(startLoad: bool, stale: Option<Holder<V>>)

  function Park<K(==), V>(st: State<K, V>, k: K, cb: Callback): State<K, V> {
    st.(pending := st.pending[k := (if k in st.pending then st.pending[k] else []) + [cb]])
  }

  function EnqueueLoad<K(==), V>(cfg: Config, st: State<K, V>, k: K, now: int, stale: Option<Holder<V>>, cb: Callback)
    : (Queued<V>, State<K, V>)
  {
    if k in st.entries && !cfg.Expired(st.entries[k].holder, now) then
      (Ready(st.entries[k].holder), Touch(cfg, st, k))
    else
      var stale' := if k in st.entries then Some(st.entries[k].holder) else stale;
      (Waiting(k !in st.pending, stale'), Park(Base(cfg, st, k), k, cb))
  }

  /** The callbacks to be called, and the state with the load settled. */
  function CompleteLoad<K(==), V>(cfg: Config, st: State<K, V>, k: K, h: Option<Holder<V>>)
    : (seq<Callback>, State<K, V>)
  {
    if k !in st.pending then ([], st)
    else
      var settled := st.(pending := st.pending - {k});
      (st.pending[k], if h.Some? then Insert(cfg, settled, k, h.value) else settled)
  }

  function CompleteRefresh<K(==), V>(cfg: Config, st: State<K, V>, k: K, oldId: nat, h: Option<Holder<V>>)
    : State<K, V>
  {
    if k !in st.entries || st.entries[k].holder.id != oldId then st
    else if h.None? then st.(entries := st.entries[k := st.entries[k].(updating := false)])
    else Insert(cfg, Erase(cfg, st, k), k, h.value)
  }

  /* ---- the cache object ---- */

  class Cache<K(==), V> {
    const cfg: Config
    var entries: map<K, Entry<V>>
    var pending: map<K, seq<Callback>>
    var lru: seq<K>
    var currentSize: Size

    ghost function View(): State<K, V>
      reads this
    {
      State(entries, pending, lru, currentSize)
    }

    constructor (cfg: Config)
      ensures this.cfg == cfg && View() == State(map[], map[], [], 0)
    {
      this.cfg := cfg;
      entries, pending, lru, currentSize := map[], map[], [], 0;
    }

    /** Unlinks the node of a key, as erasing by its stored iterator does. */
    method Unlink(k: K)
      modifies `lru
      ensures lru == Without(old(lru), k)
    {
      var i := 0;
      assert lru[..0] + Without(lru[0..], k) == Without(lru, k);
      while i < |lru| && lru[i] != k
        invariant 0 <= i <= |lru| && lru == old(lru)
        invariant lru[..i] + Without(lru[i..], k) == Without(lru, k)
      {
        assert lru[..i + 1] == lru[..i] + [lru[i]];
        assert lru[i..][1..] == lru[i + 1..];
        i := i + 1;
      }
      if i < |lru| {
        assert lru[i..][1..] == lru[i + 1..];
        lru := lru[..i] + lru[i + 1..];
      } else {
        assert lru[i..] == [] && lru[..i] + [] == lru;
      }
    }

    method TouchI(k: K)
      modifies `lru
      ensures View() == Touch(cfg, old(View()), k)
    {
      if !cfg.Bounded() {
        return;
      }
      Unlink(k);
      lru := lru + [k];
    }

    method EraseI(k: K)
      requires k in entries
      modifies `entries, `lru, `currentSize
      ensures View() == Erase(cfg, old(View()), k)
    {
      if cfg.Bounded() {
        currentSize := Wrap(currentSize - entries[k].holder.size);
        Unlink(k);
      }
      entries := entries - {k};
    }

    method InsertI(k: K, h: Holder<V>)
      modifies `entries, `lru, `currentSize
      ensures View() == Insert(cfg, old(View()), k, h)
    {
      if k in entries {
        EraseI(k);
      }
      if !cfg.Bounded() {
        entries := entries[k := Entry(h, false)];
        return;
      }
      ghost var base := View();
      while Wrap(currentSize + h.size) > cfg.maxSize && lru != []
        invariant pending == old(pending)
        invariant Evict(View(), h.size, cfg.maxSize) == Evict(base, h.size, cfg.maxSize)
        decreases |lru|
      {
        var oldest := lru[0];
        if oldest !in entries {
          lru := lru[1..];
          continue;
        }
        currentSize := Wrap(currentSize - entries[oldest].holder.size);
        lru := lru[1..];
        entries := entries - {oldest};
      }
      if Wrap(currentSize + h.size) > cfg.maxSize {
        return;
      }
      lru := lru + [k];
      entries := entries[k := Entry(h, false)];
      currentSize := Wrap(currentSize + h.size);
    }

    /** First half of a lookup, under the shared lock. */
    method LookupShared(k: K, now: int) returns (found: Found<V>)
      modifies `lru
      ensures (found, View()) == SharedLookup(cfg, old(View()), k, now)
    {
      if k !in entries {
        return Miss(None);
      }
      var e := entries[k];
      if cfg.Expired(e.holder, now) || cfg.Due(e, now) {
        return LookAgain;
      }
      TouchI(k);
      found := Hit(e.holder, false);
    }

    /** Second half of a lookup, under the exclusive lock. */
    method LookupUnique(k: K, now: int) returns (found: Found<V>)
      modifies `entries, `lru, `currentSize
      ensures (found, View()) == UniqueLookup(cfg, old(View()), k, now)
    {
      if k !in entries {
        return Miss(None);
      }
      var e := entries[k];
      if cfg.Expired(e.holder, now) {
        EraseI(k);
        return Miss(Some(e.holder));
      }
      var refresh := cfg.Due(e, now);
      if refresh {
        entries := entries[k := e.(updating := true)];
      }
      TouchI(k);
      found := Hit(e.holder, refresh);
    }

    method Enqueue(k: K, now: int, stale: Option<Holder<V>>, cb: Callback) returns (queued: Queued<V>)
      modifies this
      ensures (queued, View()) == EnqueueLoad(cfg, old(View()), k, now, stale, cb)
    {
      var expired := stale;
      if k in entries {
        var h := entries[k].holder;
        if cfg.Expired(h, now) {
          expired := Some(h);
          EraseI(k);
        } else {
          TouchI(k);
          return Ready(h);
        }
      }
      var start := k !in pending;
      if start {
        pending := pending[k := []];
      }
      pending := pending[k := pending[k] + [cb]];
      assert pending == old(pending)[k := (if k in old(pending) then old(pending)[k] else []) + [cb]];
      queued := Waiting(start, expired);
    }

    method FinishLoad(k: K, h: Option<Holder<V>>) returns (callbacks: seq<Callback>)
      modifies this
      ensures (callbacks, View()) == CompleteLoad(cfg, old(View()), k, h)
    {
      if k !in pending {
        return [];
      }
      callbacks := pending[k];
      pending := pending - {k};
      if h.Some? {
        InsertI(k, h.value);
      }
    }

    method FinishRefresh(k: K, oldId: nat, h: Option<Holder<V>>)
      modifies this
      ensures View() == CompleteRefresh(cfg, old(View()), k, oldId, h)
    {
      if k !in entries || entries[k].holder.id != oldId {
        return;
      }
      if h.None? {
        entries := entries[k := entries[k].(updating := false)];
        return;
      }
      EraseI(k);
      InsertI(k, h.value);
    }
  }

  /* ---- accounting ---- */

  /** Total size of the entries named by a list of keys. */
  function Sum<K, V>(entries: map<K, Entry<V>>, keys: seq<K>): nat
    requires forall k :: k in keys ==> k in entries
  {
    if keys == [] then 0 else entries[keys[0]].holder.size + Sum(entries, keys[1..])
  }

  predicate Lists<K, V>(entries: map<K, Entry<V>>, keys: seq<K>) {
    (forall k :: k in keys ==> k in entries) && (forall k :: k in entries ==> k in keys)
  }

  /** The LRU list is a permutation of the entry keys and the counter is the exact total. */
  ghost predicate Listed<K, V>(st: State<K, V>) {
    Distinct(st.lru) && Lists(st.entries, st.lru) && st.size == Sum(st.entries, st.lru)
  }

  ghost predicate Accounted<K, V>(cfg: Config, st: State<K, V>) {
    if cfg.Bounded() then Listed(st) && st.size <= cfg.maxSize
    else st.lru == [] && st.size == 0
  }

  lemma {:induction false} WithoutMembers<K>(lru: seq<K>, k: K)
    requires Distinct(lru)
    ensures Distinct(Without(lru, k))
    ensures forall x :: x in Without(lru, k) <==> x in lru && x != k
  {
    if lru != [] {
      assert forall i, j :: 0 <= i < j < |lru[1..]| ==> lru[1..][i] != lru[1..][j];
      WithoutMembers(lru[1..], k);
      assert forall x :: x in lru <==> x == lru[0] || x in lru[1..];
      assert forall j :: 0 <= j < |lru[1..]| ==> lru[1..][j] == lru[j + 1];
      var rest := Without(lru[1..], k);
      forall j | 0 <= j < |rest|
        ensures rest[j] != lru[0]
      {
        assert rest[j] in Without(lru[1..], k);
      }
    }
  }

  lemma {:induction false} SumSame<K, V>(a: map<K, Entry<V>>, b: map<K, Entry<V>>, keys: seq<K>)
    requires forall k :: k in keys ==> k in a && k in b && a[k].holder.size == b[k].holder.size
    ensures Sum(a, keys) == Sum(b, keys)
  {
    if keys != [] {
      assert forall k :: k in keys[1..] ==> k in keys;
      SumSame(a, b, keys[1..]);
    }
  }

  lemma {:induction false} SumAppend<K, V>(entries: map<K, Entry<V>>, keys: seq<K>, k: K)
    requires k in entries && forall x :: x in keys ==> x in entries
    ensures Sum(entries, keys + [k]) == Sum(entries, keys) + entries[k].holder.size
  {
    if keys == [] {
      assert keys + [k] == [k];
      assert Sum(entries, [k][1..]) == 0;
    } else {
      assert (keys + [k])[1..] == keys[1..] + [k];
      SumAppend(entries, keys[1..], k);
    }
  }

  lemma {:induction false} SumWithout<K, V>(entries: map<K, Entry<V>>, keys: seq<K>, k: K)
    requires k in keys && forall x :: x in keys ==> x in entries
    ensures forall x :: x in Without(keys, k) ==> x in entries
    ensures Sum(entries, keys) == Sum(entries, Without(keys, k)) + entries[k].holder.size
  {
    if keys[0] != k {
      assert forall x :: x in keys[1..] ==> x in keys;
      SumWithout(entries, keys[1..], k);
      assert Without(keys, k)[1..] == Without(keys[1..], k);
    }
  }

  lemma EraseKeeps<K, V>(cfg: Config, st: State<K, V>, k: K)
    requires Accounted(cfg, st) && k in st.entries
    ensures Accounted(cfg, Erase(cfg, st, k))
  {
    if cfg.Bounded() {
      var st' := Erase(cfg, st, k);
      WithoutMembers(st.lru, k);
      SumWithout(st.entries, st.lru, k);
      SumSame(st.entries, st'.entries, st'.lru);
    }
  }

  lemma TouchKeeps<K, V>(cfg: Config, st: State<K, V>, k: K)
    requires Accounted(cfg, st) && k in st.entries
    ensures Accounted(cfg, Touch(cfg, st, k))
  {
    if cfg.Bounded() {
      WithoutMembers(st.lru, k);
      SumWithout(st.entries, st.lru, k);
      SumAppend(st.entries, Without(st.lru, k), k);
    }
  }

  /** Setting or clearing a flag, or changing the pending loads, does not touch the accounting. */
  lemma SameSizes<K, V>(cfg: Config, a: State<K, V>, b: State<K, V>)
    requires Accounted(cfg, a) && a.lru == b.lru && a.size == b.size && a.entries.Keys == b.entries.Keys
    requires forall k :: k in a.entries ==> a.entries[k].holder == b.entries[k].holder
    ensures Accounted(cfg, b)
  {
    if cfg.Bounded() {
      SumSame(a.entries, b.entries, a.lru);
    }
  }

  /* ---- eviction ---- */

  /** How many entries have to leave from the front. */
  function Excess<K, V>(entries: map<K, Entry<V>>, lru: seq<K>, need: Size, max: Size): (n: nat)
    requires forall k :: k in lru ==> k in entries
    ensures n <= |lru|
  {
    if lru == [] || Sum(entries, lru) + need <= max then 0 else 1 + Excess(entries, lru[1..], need, max)
  }

  /** `Excess` is the length of the shortest prefix whose removal makes room, or the whole list. */
  lemma {:induction false} ExcessIsShortest<K, V>(entries: map<K, Entry<V>>, lru: seq<K>, need: Size, max: Size)
    requires forall k :: k in lru ==> k in entries
    ensures var n := Excess(entries, lru, need, max);
            && (forall i :: 0 <= i < n ==> Sum(entries, lru[i..]) + need > max)
            && (n < |lru| || need <= max ==> Sum(entries, lru[n..]) + need <= max)
  {
    hide Sum;
    if lru == [] || Sum(entries, lru) + need <= max {
      assert lru[0..] == lru;
      SumNothing(entries);
    } else {
      ExcessIsShortest(entries, lru[1..], need, max);
      var n := Excess(entries, lru, need, max);
      assert lru[1..][n - 1..] == lru[n..];
      forall i | 0 <= i < n
        ensures Sum(entries, lru[i..]) + need > max
      {
        if i > 0 {
          assert lru[1..][i - 1..] == lru[i..];
        } else {
          assert lru[0..] == lru;
        }
      }
    }
  }

  lemma SumNothing<K, V>(entries: map<K, Entry<V>>)
    ensures Sum(entries, []) == 0
  {
  }

  /** From an accounted state the eviction loop removes exactly the excess prefix. */
  lemma {:induction false} EvictRemovesPrefix<K, V>(st: State<K, V>, need: Size, max: Size)
    requires Listed(st) && st.size + need < SIZE_MOD
    ensures Removed(st, Evict(st, need, max), Excess(st.entries, st.lru, need, max))
    decreases |st.lru|
  {
    hide Sum, Distinct, Evict, Excess, Removed;
    if st.lru != [] && st.size + need > max {
      var oldest, rest := st.lru[0], st.lru[1..];
      RemoveFirst(st);
      var next := State(st.entries - {oldest}, st.pending, rest, Wrap(st.size - st.entries[oldest].holder.size));
      EvictOnce(st, need, max);
      EvictRemovesPrefix(next, need, max);
      assert forall k :: k in rest ==> k in st.lru;
      ExcessSame(st.entries, next.entries, rest, need, max);
      RemovedOneMore(st, next, Evict(st, need, max), Excess(next.entries, next.lru, need, max));
    } else {
      EvictNothing(st, need, max);
    }
  }

  lemma EvictNothing<K, V>(st: State<K, V>, need: Size, max: Size)
    requires Listed(st) && st.size + need < SIZE_MOD && (st.lru == [] || st.size + need <= max)
    ensures Removed(st, Evict(st, need, max), Excess(st.entries, st.lru, need, max))
  {
    assert st.lru[0..] == st.lru && Members(st.lru[..0]) == {};
  }

  lemma EvictOnce<K, V>(st: State<K, V>, need: Size, max: Size)
    requires Listed(st) && st.lru != [] && max < st.size + need < SIZE_MOD
    ensures st.lru[0] in st.entries
    ensures Evict(st, need, max) == Evict(State(st.entries - {st.lru[0]}, st.pending, st.lru[1..],
                                                Wrap(st.size - st.entries[st.lru[0]].holder.size)), need, max)
    ensures forall k :: k in st.lru[1..] ==> k in st.entries
    ensures Excess(st.entries, st.lru, need, max) == 1 + Excess(st.entries, st.lru[1..], need, max)
  {
    assert st.lru[0] in st.lru;
  }

  function Members<K(==)>(keys: seq<K>): set<K> { set k | k in keys }

  /** The first `n` keys of the list have left. */
  ghost predicate Removed<K, V>(st: State<K, V>, out: State<K, V>, n: nat) {
    && n <= |st.lru| && out.lru == st.lru[n..] && out.pending == st.pending
    && out.entries == st.entries - Members(st.lru[..n])
    && Listed(out) && out.size <= st.size
  }

  lemma RemovedOneMore<K, V>(st: State<K, V>, next: State<K, V>, out: State<K, V>, n: nat)
    requires Removed(next, out, n) && st.lru != [] && next.lru == st.lru[1..] && next.pending == st.pending
    requires next.entries == st.entries - {st.lru[0]} && next.size <= st.size
    ensures Removed(st, out, n + 1)
  {
    hide Listed;
    assert st.lru[1..][n..] == st.lru[n + 1..];
    assert st.lru[..n + 1] == [st.lru[0]] + next.lru[..n];
    assert Members(st.lru[..n + 1]) == {st.lru[0]} + Members(next.lru[..n]);
  }

  lemma RemoveFirst<K, V>(st: State<K, V>)
    requires Listed(st) && st.lru != []
    ensures st.lru[0] in st.entries
    ensures st.size >= st.entries[st.lru[0]].holder.size
    ensures Listed(State(st.entries - {st.lru[0]}, st.pending, st.lru[1..],
                         Wrap(st.size - st.entries[st.lru[0]].holder.size)))
  {
    var k := st.lru[0];
    assert k in st.lru && Without(st.lru, k) == st.lru[1..];
    WithoutMembers(st.lru, k);
    SumSame(st.entries, st.entries - {k}, st.lru[1..]);
  }

  lemma {:induction false} ExcessSame<K, V>(a: map<K, Entry<V>>, b: map<K, Entry<V>>, lru: seq<K>, need: Size,
                                            max: Size)
    requires forall k :: k in lru ==> k in a && k in b && a[k] == b[k]
    ensures Excess(a, lru, need, max) == Excess(b, lru, need, max)
  {
    SumSame(a, b, lru);
    if lru != [] {
      assert forall k :: k in lru[1..] ==> k in lru;
      ExcessSame(a, b, lru[1..], need, max);
    }
  }

  lemma BaseKeeps<K, V>(cfg: Config, st: State<K, V>, k: K)
    requires Accounted(cfg, st)
    ensures Accounted(cfg, Base(cfg, st, k)) && k !in Base(cfg, st, k).entries
  {
    if k in st.entries {
      EraseKeeps(cfg, st, k);
    }
  }

  /** Insertion into a bounded cache: the entry of the key is replaced, exactly the shortest LRU
      prefix that makes room is evicted, and the new entry is the most recent. A holder larger than
      the whole cache empties it and is not stored. */
  lemma InsertEvictsShortestPrefix<K, V>(cfg: Config, st: State<K, V>, k: K, h: Holder<V>)
    requires cfg.Bounded() && Accounted(cfg, st)
    requires Base(cfg, st, k).size + h.size < SIZE_MOD
    ensures Lists(Base(cfg, st, k).entries, Base(cfg, st, k).lru)
    ensures var base := Base(cfg, st, k);
            var n := Excess(base.entries, base.lru, h.size, cfg.maxSize);
            var out := Insert(cfg, st, k, h);
            var kept := base.entries - Members(base.lru[..n]);
            && (forall i :: 0 <= i < n ==> Sum(base.entries, base.lru[i..]) + h.size > cfg.maxSize)
            && (h.size <= cfg.maxSize ==>
                  && out.lru == base.lru[n..] + [k]
                  && out.entries == kept[k := Entry(h, false)])
            && (h.size > cfg.maxSize ==> out.lru == [] && out.entries == map[] && out.size == 0)
    ensures Accounted(cfg, Insert(cfg, st, k, h)) && Insert(cfg, st, k, h).pending == st.pending
  {
    hide Excess, Sum, Evict, Distinct;
    var base, max := Base(cfg, st, k), cfg.maxSize;
    BaseKeeps(cfg, st, k);
    EvictRemovesPrefix(base, h.size, max);
    ExcessIsShortest(base.entries, base.lru, h.size, max);
    var st' := Evict(base, h.size, max);
    var n := Excess(base.entries, base.lru, h.size, max);
    SumSame(base.entries, st'.entries, st'.lru);
    hide Removed;
    if h.size <= max {
      PlaceFits(max, st', k, h);
    } else {
      assert st'.lru == [];
      NothingLeft(st');
    }
  }

  lemma NothingLeft<K, V>(st: State<K, V>)
    requires Listed(st) && st.lru == []
    ensures st.entries == map[] && st.size == 0
  {
  }

  lemma PlaceFits<K, V>(max: Size, st: State<K, V>, k: K, h: Holder<V>)
    requires Listed(st) && k !in st.entries && st.size + h.size <= max
    ensures var out := Place(max, st, k, h);
            && out == State(st.entries[k := Entry(h, false)], st.pending, st.lru + [k], st.size + h.size)
            && Listed(out)
  {
    var out := Place(max, st, k, h);
    SumSame(st.entries, out.entries, st.lru);
    SumAppend(out.entries, st.lru, k);
    assert forall i :: 0 <= i < |st.lru| ==> st.lru[i] in st.lru;
  }

  /** The accounting survives an insertion exactly when the sizes do not wrap around. */
  lemma InsertKeepsAccountsIff<K, V>(cfg: Config, st: State<K, V>, k: K, h: Holder<V>)
    requires cfg.Bounded() && Accounted(cfg, st)
    ensures Accounted(cfg, Insert(cfg, st, k, h)) <==> Base(cfg, st, k).size + h.size < SIZE_MOD
  {
    var base := Base(cfg, st, k);
    if base.size + h.size < SIZE_MOD {
      InsertEvictsShortestPrefix(cfg, st, k, h);
    } else {
      BaseKeeps(cfg, st, k);
      var out := Insert(cfg, st, k, h);
      assert out.size == base.size + h.size - SIZE_MOD && out.lru == base.lru + [k];
      SumSame(base.entries, out.entries, base.lru);
      if Listed(out) {
        SumAppend(out.entries, base.lru, k);
        assert false;
      }
    }
  }

  /** A holder that does not fit even into an empty counter range breaks the accounting: room for
      100, one entry of 50, then a holder of 2^64 - 10. */
  lemma WrapAroundExample(cfg: Config, a: Holder<int>, b: Holder<int>)
    requires cfg.maxSize == 100 && a.size == 50 && b.size == SIZE_MOD - 10
    ensures var st := State(map[1 := Entry(a, false)], map[], [1], 50);
            Accounted(cfg, st) && !Accounted(cfg, Insert(cfg, st, 2, b))
  {
    var st := State(map[1 := Entry(a, false)], map[], [1], 50);
    assert Sum(st.entries, [1][1..]) == 0;
    assert Sum(st.entries, [1]) == 50;
    InsertKeepsAccountsIff(cfg, st, 2, b);
  }

  /* ---- recency and storing ---- */

  lemma {:induction false} WithoutLast<K>(lru: seq<K>, k: K)
    requires lru != [] && lru[|lru| - 1] != k
    ensures Without(lru, k) != [] && Without(lru, k)[|Without(lru, k)| - 1] == lru[|lru| - 1]
  {
    if lru[0] != k && |lru| > 1 {
      WithoutLast(lru[1..], k);
    }
  }

  /** A hit, of either lookup, makes its key the most recent one. */
  lemma HitIsMostRecent<K, V>(cfg: Config, st: State<K, V>, k: K, now: int)
    requires cfg.Bounded()
    ensures var (found, st') := SharedLookup(cfg, st, k, now);
            found.Hit? ==> st'.lru != [] && st'.lru[|st'.lru| - 1] == k && st'.entries == st.entries
    ensures var (found, st') := UniqueLookup(cfg, st, k, now);
            found.Hit? ==> st'.lru != [] && st'.lru[|st'.lru| - 1] == k && st'.entries.Keys == st.entries.Keys
  {
    hide Without;
  }

  /** The most recent key is the last to be evicted: if another insertion evicts it, it evicts everything. */
  lemma RecentIsEvictedLast<K, V>(cfg: Config, st: State<K, V>, k: K, other: K, h: Holder<V>, x: K)
    requires cfg.Bounded() && Accounted(cfg, st) && st.lru != [] && st.lru[|st.lru| - 1] == k && other != k
    requires Base(cfg, st, other).size + h.size < SIZE_MOD
    requires k !in Insert(cfg, st, other, h).entries && x != other
    ensures x !in Insert(cfg, st, other, h).entries
  {
    hide Insert, Excess, Sum, Accounted;
    InsertEvictsShortestPrefix(cfg, st, other, h);
    RecentInBase(cfg, st, k, other);
    var base := Base(cfg, st, other);
    hide Base;
    if h.size <= cfg.maxSize {
      var n := Excess(base.entries, base.lru, h.size, cfg.maxSize);
      assert k in Members(base.lru[..n]);
      AllEvicted(base.lru, n, k);
      assert base.lru[..n] == base.lru;
    }
  }

  lemma RecentInBase<K, V>(cfg: Config, st: State<K, V>, k: K, other: K)
    requires cfg.Bounded() && Accounted(cfg, st) && st.lru != [] && st.lru[|st.lru| - 1] == k && other != k
    ensures var base := Base(cfg, st, other);
            && base.lru != [] && base.lru[|base.lru| - 1] == k && Distinct(base.lru)
            && k in base.entries && forall x :: x in base.entries ==> x in base.lru
  {
    hide Sum;
    BaseKeeps(cfg, st, other);
    if other in st.entries {
      WithoutLast(st.lru, other);
    }
    var base := Base(cfg, st, other);
    assert base.lru[|base.lru| - 1] in base.lru;
  }

  lemma AllEvicted<K>(lru: seq<K>, n: nat, k: K)
    requires Distinct(lru) && n <= |lru| && lru != [] && lru[|lru| - 1] == k && k in lru[..n]
    ensures n == |lru|
  {
    var i :| 0 <= i < n && lru[..n][i] == k;
    assert lru[i] == k;
  }

  /** A cache without a bound stores every holder and keeps all others. */
  lemma UnlimitedStores<K, V>(cfg: Config, st: State<K, V>, k: K, h: Holder<V>)
    requires !cfg.Bounded()
    ensures Insert(cfg, st, k, h).entries == st.entries[k := Entry(h, false)]
  {
  }

  /** A lookup under the shared lock answers exactly for an entry that is neither expired nor due for a
      refresh that nobody has started. */
  lemma HitIff<K, V>(cfg: Config, st: State<K, V>, k: K, now: int, stale: Option<Holder<V>>, cb: Callback)
    ensures SharedLookup(cfg, st, k, now).0.Hit? <==>
              && k in st.entries && now < st.entries[k].holder.checkTime + cfg.maxKeep
              && (now < st.entries[k].holder.checkTime + cfg.updatePeriod || st.entries[k].updating)
    ensures UniqueLookup(cfg, st, k, now).0.Hit? <==>
              k in st.entries && now < st.entries[k].holder.checkTime + cfg.maxKeep
    ensures EnqueueLoad(cfg, st, k, now, stale, cb).0.Ready? <==>
              k in st.entries && now < st.entries[k].holder.checkTime + cfg.maxKeep
  {
  }

  /** A load that somebody waits for, or a refresh of the current holder, stores the new holder as the most
      recent entry, in a bounded cache when it fits. */
  lemma CompletionStores<K, V>(cfg: Config, st: State<K, V>, k: K, h: Holder<V>)
    requires cfg.Bounded() ==> Accounted(cfg, st) && Base(cfg, st, k).size + h.size < SIZE_MOD && h.size <= cfg.maxSize
    ensures k in st.pending ==> Stores(cfg, CompleteLoad(cfg, st, k, Some(h)).1, k, h)
    ensures k in st.entries ==> Stores(cfg, CompleteRefresh(cfg, st, k, st.entries[k].holder.id, Some(h)), k, h)
  {
    hide Insert, Sum, Excess;
    InsertStores(cfg, st.(pending := st.pending - {k}), k, h);
    if k in st.entries {
      if cfg.Bounded() {
        EraseKeeps(cfg, st, k);
      }
      InsertStores(cfg, Erase(cfg, st, k), k, h);
    }
  }

  ghost predicate Stores<K, V>(cfg: Config, st: State<K, V>, k: K, h: Holder<V>) {
    && k in st.entries && st.entries[k] == Entry(h, false)
    && (cfg.Bounded() ==> st.lru != [] && st.lru[|st.lru| - 1] == k)
  }

  lemma InsertStores<K, V>(cfg: Config, st: State<K, V>, k: K, h: Holder<V>)
    requires cfg.Bounded() ==> Accounted(cfg, st) && Base(cfg, st, k).size + h.size < SIZE_MOD && h.size <= cfg.maxSize
    ensures Stores(cfg, Insert(cfg, st, k, h), k, h)
  {
    hide Sum, Excess, Evict;
    if cfg.Bounded() {
      InsertEvictsShortestPrefix(cfg, st, k, h);
    }
  }

  /** An expired entry found under the unique lock is taken out, and only it, and its holder is handed to the
      load, whichever region finds it. */
  lemma ExpiredIsTakenOut<K, V>(cfg: Config, st: State<K, V>, k: K, now: int, stale: Option<Holder<V>>, cb: Callback)
    requires k in st.entries && st.entries[k].holder.checkTime + cfg.maxKeep <= now
    ensures var (found, st') := UniqueLookup(cfg, st, k, now);
            found == Miss(Some(st.entries[k].holder)) && st'.entries == st.entries - {k}
    ensures var (queued, st') := EnqueueLoad(cfg, st, k, now, stale, cb);
            && queued == Waiting(k !in st.pending, Some(st.entries[k].holder)) && st'.entries == st.entries - {k}
            && k in st'.pending && st'.pending[k] != [] && st'.pending[k][|st'.pending[k]| - 1] == cb
  {
  }

  /** A load or refresh that fails loses no entry; a failed refresh makes the next one possible. */
  lemma FailureKeepsEntries<K, V>(cfg: Config, st: State<K, V>, k: K, id: nat)
    ensures CompleteLoad(cfg, st, k, None).1.entries == st.entries
    ensures forall x :: x in st.entries ==>
              var st' := CompleteRefresh(cfg, st, k, id, None);
              && x in st'.entries && st'.entries[x].holder == st.entries[x].holder
              && (x == k && st.entries[x].holder.id == id ==> !st'.entries[x].updating)
  {
  }
}
