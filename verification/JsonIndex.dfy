/** The processor tree of the JSON parser and its two child indexes: one by full key, one by a key
    packed into eight bytes. Both are kept in a container with three storage modes. */
module JsonIndex {
  import opened Common

  /* ---- the three-mode container ---- */

  datatype Mode = SingleElement | SortedVector | Hash

  const HASH_STORAGE_MIN_SIZE := 8

  ghost predicate StrictOrder<K(!new)>(less: (K, K) -> bool) {
    && (forall a: K :: !less(a, a))
    && (forall a: K, b: K, c: K :: less(a, b) && less(b, c) ==> less(a, c))
    && (forall a: K, b: K :: a == b || less(a, b) || less(b, a))
  }

  ghost predicate Ascending<K, V>(less: (K, K) -> bool, items: seq<(K, V)>) {
    forall i, j :: 0 <= i < j < |items| ==> less(items[i].0, items[j].0)
  }

  /** The lookup table a run of insertions stands for: the first value given for a key stays. */
  function FirstWins<K, V>(items: seq<(K, V)>): map<K, V> {
    if items == [] then map[] else FirstWins(items[1..])[items[0].0 := items[0].1]
  }

  function Added<K, V>(m: map<K, V>, k: K, v: V): map<K, V> {
    if k in m then m else m[k := v]
  }

  lemma {:induction false} FirstWinsAppend<K, V>(items: seq<(K, V)>, k: K, v: V)
    ensures FirstWins(items + [(k, v)]) == Added(FirstWins(items), k, v)
  {
    if items == [] {
      assert items + [(k, v)] == [(k, v)];
      assert FirstWins([(k, v)]) == map[k := v];
    } else {
      FirstWinsAppend(items[1..], k, v);
      assert (items + [(k, v)])[1..] == items[1..] + [(k, v)];
    }
  }

  lemma {:induction false} FirstWinsKeys<K, V>(items: seq<(K, V)>, k: K)
    ensures k in FirstWins(items) <==> exists i :: 0 <= i < |items| && items[i].0 == k
  {
    if items != [] {
      FirstWinsKeys(items[1..], k);
      if exists i :: 0 <= i < |items| && items[i].0 == k {
        var i :| 0 <= i < |items| && items[i].0 == k;
        assert i > 0 ==> items[1..][i - 1] == items[i];
      }
      if j :| 0 <= j < |items[1..]| && items[1..][j].0 == k {
        assert items[j + 1].0 == k;
      }
    }
  }

  /** With ascending keys every item can be found by its key. */
  lemma {:induction false} AscendingLookup<K(!new), V>(less: (K, K) -> bool, items: seq<(K, V)>, i: nat)
    requires StrictOrder(less) && Ascending(less, items) && i < |items|
    ensures items[i].0 in FirstWins(items) && FirstWins(items)[items[i].0] == items[i].1
  {
    if i > 0 {
      AscendingLookup(less, items[1..], i - 1);
      assert less(items[0].0, items[i].0);
    }
  }

  lemma {:induction false} FirstWinsInsert<K(!new), V>(less: (K, K) -> bool, items: seq<(K, V)>, i: nat, k: K, v: V)
    requires StrictOrder(less) && i <= |items|
    requires k !in FirstWins(items)
    ensures FirstWins(items[..i] + [(k, v)] + items[i..]) == FirstWins(items)[k := v]
  {
    var out := items[..i] + [(k, v)] + items[i..];
    if i == 0 {
      assert out[1..] == items;
    } else {
      assert items[0].0 in FirstWins(items) && items[0].0 != k;
      FirstWinsInsert(less, items[1..], i - 1, k, v);
      assert out[1..] == items[1..][..i - 1] + [(k, v)] + items[1..][i - 1..];
    }
  }

  lemma InsertAscending<K(!new), V>(less: (K, K) -> bool, items: seq<(K, V)>, i: nat, k: K, v: V)
    requires StrictOrder(less) && Ascending(less, items) && i <= |items|
    requires forall j :: 0 <= j < i ==> less(items[j].0, k)
    requires i < |items| ==> less(k, items[i].0)
    ensures Ascending(less, items[..i] + [(k, v)] + items[i..])
  {
    var out := items[..i] + [(k, v)] + items[i..];
    assert forall j :: i <= j < |items| ==> less(k, items[j].0);
    assert forall j :: 0 <= j < i ==> out[j] == items[j];
    assert forall j :: i < j < |out| ==> out[j] == items[j - 1];
  }

  class MapHelper<K(==, !new), V> {
    const less: (K, K) -> bool
    var mode: Mode
    var size: nat
    var single: Option<(K, V)>
    var vector: seq<(K, V)>
    var hash: map<K, V>

    ghost predicate Valid()
      reads this
    {
      && StrictOrder(less)
      && size == |Contents()|
      && (mode != SingleElement ==> single.None?)
      && (mode != SortedVector ==> vector == [])
      && (mode != Hash ==> hash == map[])
      && (mode == SortedVector ==> Ascending(less, vector) && 1 <= |vector| < HASH_STORAGE_MIN_SIZE)
      && (mode == Hash ==> |hash| > 0)
    }

    ghost function Contents(): map<K, V>
      reads this
    {
      match mode
      case SingleElement => if single.None? then map[] else map[single.value.0 := single.value.1]
      case SortedVector => FirstWins(vector)
      case Hash => hash
    }

    constructor (less: (K, K) -> bool)
      requires StrictOrder(less)
      ensures Valid() && Contents() == map[] && this.less == less
    {
      this.less := less;
      mode, size, single, vector, hash := SingleElement, 0, None, [], map[];
    }

    /** First position whose key is not below `key`. */
    method LowerBound(key: K) returns (i: nat)
      requires StrictOrder(less) && Ascending(less, vector)
      ensures i <= |vector|
      ensures forall j :: 0 <= j < i ==> less(vector[j].0, key)
      ensures forall j :: i <= j < |vector| ==> !less(vector[j].0, key)
    {
      i := 0;
      var hi := |vector|;
      while i < hi
        invariant 0 <= i <= hi <= |vector|
        invariant forall j :: 0 <= j < i ==> less(vector[j].0, key)
        invariant forall j :: hi <= j < |vector| ==> !less(vector[j].0, key)
      {
        var mid := (i + hi) / 2;
        if less(vector[mid].0, key) {
          i := mid + 1;
        } else {
          hi := mid;
        }
      }
    }

    /** The position found by the binary search decides membership. */
    lemma BoundDecides(key: K, i: nat)
      requires StrictOrder(less) && Ascending(less, vector) && i <= |vector|
      requires forall j :: 0 <= j < i ==> less(vector[j].0, key)
      requires forall j :: i <= j < |vector| ==> !less(vector[j].0, key)
      ensures key in FirstWins(vector) <==> i < |vector| && vector[i].0 == key
      ensures key in FirstWins(vector) ==> FirstWins(vector)[key] == vector[i].1
    {
      FirstWinsKeys(vector, key);
      if i < |vector| && vector[i].0 == key {
        AscendingLookup(less, vector, i);
      }
      forall j | i < j < |vector|
        ensures vector[j].0 != key
      {
        assert less(vector[i].0, vector[j].0);
      }
    }

    /** Single element to sorted vector. */
    method MoveToVector()
      requires Valid() && mode == SingleElement && single.Some?
      modifies this
      ensures Valid() && mode == SortedVector && |vector| == 1
      ensures Contents() == old(Contents()) && size == old(size)
    {
      vector := [single.value];
      single, mode := None, SortedVector;
      assert FirstWins(vector) == map[vector[0].0 := vector[0].1];
    }

    /** Sorted vector to hash table. */
    method MoveToHash()
      requires Valid() && mode == SortedVector
      modifies this
      ensures Valid() && mode == Hash
      ensures Contents() == old(Contents()) && size == old(size)
    {
      var moved := 0;
      assert vector[..0] == [] && FirstWins<K, V>([]) == map[];
      while moved < |vector|
        invariant 0 <= moved <= |vector|
        invariant hash == FirstWins(vector[..moved])
        modifies `hash
      {
        var item := vector[moved];
        FirstWinsAppend(vector[..moved], item.0, item.1);
        assert vector[..moved + 1] == vector[..moved] + [(item.0, item.1)];
        hash := Added(hash, item.0, item.1);
        moved := moved + 1;
      }
      assert vector[..moved] == vector;
      FirstWinsKeys(vector, vector[0].0);
      vector, mode := [], Hash;
    }

    method EmplaceSorted(key: K, value: V)
      requires Valid() && mode == SortedVector && |vector| + 1 < HASH_STORAGE_MIN_SIZE
      modifies this
      ensures Valid()
      ensures Contents() == Added(old(Contents()), key, value)
    {
      var i := LowerBound(key);
      BoundDecides(key, i);
      if i < |vector| && vector[i].0 == key {
        return;
      }
      hide FirstWins, Ascending;
      FirstWinsInsert(less, vector, i, key, value);
      InsertAscending(less, vector, i, key, value);
      vector := vector[..i] + [(key, value)] + vector[i..];
      size := size + 1;
    }

    method Emplace(key: K, value: V)
      requires Valid()
      modifies this
      ensures Valid()
      ensures Contents() == Added(old(Contents()), key, value)
    {
      if size == 0 {
        single, mode, size := Some((key, value)), SingleElement, 1;
        return;
      }
      if mode == SingleElement {
        if single.value.0 == key {
          return;
        }
        MoveToVector();
      }
      if mode == SortedVector {
        if |vector| + 1 < HASH_STORAGE_MIN_SIZE {
          EmplaceSorted(key, value);
          return;
        }
        MoveToHash();
      }
      if key !in hash {
        hash := hash[key := value];
        size := size + 1;
      }
    }

    method Lookup(key: K) returns (r: Option<V>)
      requires Valid()
      ensures r == if key in Contents() then Some(Contents()[key]) else None
    {
      match mode
      case SingleElement =>
        r := if single.Some? && single.value.0 == key then Some(single.value.1) else None;
      case SortedVector =>
        var i := LowerBound(key);
        BoundDecides(key, i);
        r := if i < |vector| && vector[i].0 == key then Some(vector[i].1) else None;
      case Hash =>
        r := if key in hash then Some(hash[key]) else None;
    }
  }

  /* ---- the tree and its indexes ---- */

  /** A node of the processor tree; `handled` says whether a value processor is registered there. */
  datatype Processor = Processor(path: string, handled: bool, asString: bool, children: seq<Child>)

  datatype Child = Child(key: string, processor: Processor)

  const SHORT_KEY_SIZE := 8

  /** Up to eight bytes packed little-endian. */
  function PackedKey(key: string): nat {
    if key == "" then 0 else key[0] as nat + 256 * PackedKey(key[1..])
  }

  function FullIndex(children: seq<Child>): seq<(string, Processor)> {
    seq(|children|, i requires 0 <= i < |children| => (children[i].key, children[i].processor))
  }

  function ShortIndex(children: seq<Child>): seq<(nat, Processor)> {
    if children == [] then []
    else
      var last := children[|children| - 1];
      ShortIndex(children[..|children| - 1])
      + if |last.key| <= SHORT_KEY_SIZE then [(PackedKey(last.key), last.processor)] else []
  }

  function Get<K, V>(m: map<K, V>, k: K): Option<V> {
    if k in m then Some(m[k]) else None
  }

  /** Lookup by the whole key: the first child with that key. */
  function ByFullKey(children: seq<Child>, key: string): Option<Processor> {
    Get(FirstWins(FullIndex(children)), key)
  }

  /** Lookup as the parser does it: short keys without escapes go through the packed index. */
  function FindSub(children: seq<Child>, key: string, escaped: bool): Option<Processor> {
    if !escaped && |key| <= SHORT_KEY_SIZE then Get(FirstWins(ShortIndex(children)), PackedKey(key))
    else ByFullKey(children, key)
  }

  /** Byte-wise lexicographic order, as `std::string_view` compares. */
  predicate StringLess(a: string, b: string) {
    if b == "" then false
    else if a == "" then true
    else a[0] < b[0] || (a[0] == b[0] && StringLess(a[1..], b[1..]))
  }

  lemma {:induction false} StringLessTransitive(a: string, b: string, c: string)
    requires StringLess(a, b) && StringLess(b, c)
    ensures StringLess(a, c)
  {
    if a != "" && a[0] == b[0] == c[0] {
      StringLessTransitive(a[1..], b[1..], c[1..]);
    }
  }

  lemma {:induction false} StringLessConnected(a: string, b: string)
    ensures a == b || StringLess(a, b) || StringLess(b, a)
    ensures !StringLess(a, a)
  {
    if a != "" {
      StringLessConnected(a[1..], if b == "" then "" else b[1..]);
      if b != "" && a[0] == b[0] && a[1..] == b[1..] {
        assert a == [a[0]] + a[1..] && b == [b[0]] + b[1..];
      }
    }
  }

  lemma StringLessIsOrder()
    ensures StrictOrder(StringLess)
  {
    forall a: string, b: string
      ensures !StringLess(a, a) && (a == b || StringLess(a, b) || StringLess(b, a))
    {
      StringLessConnected(a, b);
    }
    forall a: string, b: string, c: string | StringLess(a, b) && StringLess(b, c)
      ensures StringLess(a, c)
    {
      StringLessTransitive(a, b, c);
    }
  }

  predicate NatLess(a: nat, b: nat) { a < b }

  lemma NatLessIsOrder()
    ensures StrictOrder(NatLess)
  {
  }

  lemma NothingIndexed()
    ensures FirstWins(FullIndex([])) == map[] && FirstWins(ShortIndex([])) == map[]
  {
  }

  /** What one more child adds to the two indexes. */
  lemma IndexTurn(children: seq<Child>, i: nat)
    requires i < |children|
    ensures var child, before, after := children[i], children[..i], children[..i + 1];
            && FirstWins(FullIndex(after)) == Added(FirstWins(FullIndex(before)), child.key, child.processor)
            && FirstWins(ShortIndex(after)) ==
               if |child.key| <= SHORT_KEY_SIZE
               then Added(FirstWins(ShortIndex(before)), PackedKey(child.key), child.processor)
               else FirstWins(ShortIndex(before))
  {
    hide FirstWins, PackedKey;
    var child := children[i];
    assert children[..i + 1][..i] == children[..i];
    assert FullIndex(children[..i + 1]) == FullIndex(children[..i]) + [(child.key, child.processor)];
    FirstWinsAppend(FullIndex(children[..i]), child.key, child.processor);
    FirstWinsAppend(ShortIndex(children[..i]), PackedKey(child.key), child.processor);
    if |child.key| > SHORT_KEY_SIZE {
      assert ShortIndex(children[..i + 1]) == ShortIndex(children[..i]);
    }
  }

  /** The two indexes of one node. */
  class SubProcessors {
    const full: MapHelper<string, Processor>
    const short: MapHelper<nat, Processor>

    ghost predicate Valid(children: seq<Child>)
      reads this, full, short
    {
      && full.Valid() && full.Contents() == FirstWins(FullIndex(children))
      && short.Valid() && short.Contents() == FirstWins(ShortIndex(children))
    }

    constructor (children: seq<Child>)
      ensures Valid(children)
    {
      hide StringLess, StrictOrder, FirstWins, FullIndex, ShortIndex, PackedKey;
      StringLessIsOrder();
      NatLessIsOrder();
      full := new MapHelper(StringLess);
      short := new MapHelper(NatLess);
      new;
      var i := 0;
      NothingIndexed();
      assert children[..0] == [];
      while i < |children|
        invariant 0 <= i <= |children|
        invariant fresh(full) && fresh(short) && Valid(children[..i])
      {
        var child := children[i];
        IndexTurn(children, i);
        full.Emplace(child.key, child.processor);
        if |child.key| <= SHORT_KEY_SIZE {
          short.Emplace(PackedKey(child.key), child.processor);
        }
        i := i + 1;
      }
      assert children[..i] == children;
    }

    method FindSubProcessor(key: string, escaped: bool, ghost children: seq<Child>) returns (r: Option<Processor>)
      requires Valid(children)
      ensures r == FindSub(children, key, escaped)
    {
      if !escaped && |key| <= SHORT_KEY_SIZE {
        r := short.Lookup(PackedKey(key));
      } else {
        r := full.Lookup(key);
      }
    }
  }

  /* ---- packed keys and full keys ---- */

  predicate IsBytes(s: string) {
    forall i :: 0 <= i < |s| ==> s[i] as int < 256
  }

  predicate NulFree(s: string) {
    forall i :: 0 <= i < |s| ==> s[i] != '\0'
  }

  /** The key without its trailing NUL bytes. */
  function TrimNul(s: string): (r: string)
    ensures IsBytes(s) ==> IsBytes(r)
    ensures |r| <= |s|
    ensures r == s <==> s == "" || s[|s| - 1] != '\0'
  {
    if s != "" && s[|s| - 1] == '\0' then TrimNul(s[..|s| - 1]) else s
  }

  lemma {:induction false} PackedOfTrimmed(s: string)
    ensures PackedKey(TrimNul(s)) == PackedKey(s)
  {
    if s != "" && s[|s| - 1] == '\0' {
      PackedOfTrimmed(s[..|s| - 1]);
      PackedAppendNul(s[..|s| - 1]);
      assert s == s[..|s| - 1] + ['\0'];
    }
  }

  lemma {:induction false} PackedAppendNul(s: string)
    ensures PackedKey(s + ['\0']) == PackedKey(s)
  {
    if s == "" {
      assert s + ['\0'] == ['\0'];
    } else {
      PackedAppendNul(s[1..]);
      assert (s + ['\0'])[1..] == s[1..] + ['\0'];
    }
  }

  lemma {:induction false} PackedInjective(a: string, b: string)
    requires IsBytes(a) && IsBytes(b) && PackedKey(a) == PackedKey(b)
    requires TrimNul(a) == a && TrimNul(b) == b
    ensures a == b
  {
    if a == "" {
      if b != "" { PackedPositive(b); }
    } else if b == "" {
      PackedPositive(a);
    } else {
      PackedInjective(a[1..], b[1..]);
      assert a == [a[0]] + a[1..] && b == [b[0]] + b[1..];
    }
  }

  lemma {:induction false} PackedPositive(a: string)
    requires a != "" && a[|a| - 1] != '\0'
    ensures PackedKey(a) > 0
  {
    if |a| > 1 {
      PackedPositive(a[1..]);
    }
  }

  /** Two byte strings pack to the same number exactly when they differ only in trailing NULs. */
  lemma PackedEqual(a: string, b: string)
    requires IsBytes(a) && IsBytes(b)
    ensures PackedKey(a) == PackedKey(b) <==> TrimNul(a) == TrimNul(b)
  {
    PackedOfTrimmed(a);
    PackedOfTrimmed(b);
    TrimTwice(a);
    TrimTwice(b);
    if PackedKey(a) == PackedKey(b) {
      PackedInjective(TrimNul(a), TrimNul(b));
    }
  }

  lemma {:induction false} TrimTwice(s: string)
    ensures TrimNul(TrimNul(s)) == TrimNul(s)
  {
    if s != "" && s[|s| - 1] == '\0' {
      TrimTwice(s[..|s| - 1]);
    }
  }

  predicate ByteKeys(children: seq<Child>) {
    forall i :: 0 <= i < |children| ==> IsBytes(children[i].key)
  }

  predicate PlainKeys(children: seq<Child>) {
    forall i :: 0 <= i < |children| ==> IsBytes(children[i].key) && NulFree(children[i].key)
  }

  /** Children with different keys are different processors, as when each is a node of its own. */
  predicate SeparateNodes(children: seq<Child>) {
    forall i, j :: 0 <= i < j < |children| && children[i].key != children[j].key ==>
      children[i].processor != children[j].processor
  }

  /** The child is in the packed index under the name's number: equal up to trailing NULs. */
  predicate PacksLike(child: Child, key: string) {
    |child.key| <= SHORT_KEY_SIZE && TrimNul(child.key) == TrimNul(key)
  }

  function Like(key: string): Child -> bool { (c: Child) => PacksLike(c, key) }

  function Exactly(key: string): Child -> bool { (c: Child) => c.key == key }

  /** The first child that satisfies the condition. */
  function First(children: seq<Child>, p: Child -> bool): Option<Processor> {
    if children == [] then None
    else
      var before := First(children[..|children| - 1], p);
      var last := children[|children| - 1];
      if before.Some? then before else if p(last) then Some(last.processor) else None
  }

  /** What being the first means. */
  lemma {:induction false} FirstIsLeast(children: seq<Child>, p: Child -> bool, i: nat)
    requires i < |children| && p(children[i]) && forall j :: 0 <= j < i ==> !p(children[j])
    ensures First(children, p) == Some(children[i].processor)
  {
    var n := |children| - 1;
    if i < n {
      FirstIsLeast(children[..n], p, i);
    } else {
      FirstOfNone(children[..n], p);
    }
  }

  lemma {:induction false} FirstOfNone(children: seq<Child>, p: Child -> bool)
    requires forall j :: 0 <= j < |children| ==> !p(children[j])
    ensures First(children, p) == None
  {
    if children != [] {
      FirstOfNone(children[..|children| - 1], p);
    }
  }

  /** The packed lookup of a short name finds the first short child equal up to trailing NULs. */
  lemma {:induction false} ShortLookup(children: seq<Child>, key: string)
    requires ByteKeys(children) && IsBytes(key)
    ensures Get(FirstWins(ShortIndex(children)), PackedKey(key)) == First(children, Like(key))
  {
    if children != [] {
      var n := |children| - 1;
      var init, last := children[..n], children[n];
      ShortLookup(init, key);
      PackedEqual(last.key, key);
      FirstWinsAppend(ShortIndex(init), PackedKey(last.key), last.processor);
      assert |last.key| > SHORT_KEY_SIZE ==> ShortIndex(children) == ShortIndex(init);
    }
  }

  /** The full lookup finds the first child with exactly that key. */
  lemma {:induction false} FullLookup(children: seq<Child>, key: string)
    ensures ByFullKey(children, key) == First(children, Exactly(key))
  {
    if children != [] {
      var n := |children| - 1;
      var init, last := children[..n], children[n];
      FullLookup(init, key);
      assert FullIndex(children) == FullIndex(init) + [(last.key, last.processor)];
      FirstWinsAppend(FullIndex(init), last.key, last.processor);
    }
  }

  /** Another key, equal to the name up to trailing NULs, was registered before the name itself. */
  predicate Shadows(children: seq<Child>, key: string, i: nat) {
    i < |children| && children[i].key != key && PacksLike(children[i], key) &&
    forall j :: 0 <= j < i ==> children[j].key != key
  }

  ghost predicate Shadowed(children: seq<Child>, key: string) {
    exists i: nat :: Shadows(children, key, i)
  }

  /** The earliest child that satisfies the condition. */
  lemma {:induction false} Earliest(children: seq<Child>, p: Child -> bool, i: nat) returns (m: nat)
    requires i < |children| && p(children[i])
    ensures m <= i && p(children[m]) && forall j :: 0 <= j < m ==> !p(children[j])
  {
    m := i;
    if j :| 0 <= j < i && p(children[j]) {
      m := Earliest(children, p, j);
    }
  }

  lemma ShadowedDiffers(children: seq<Child>, key: string, i: nat)
    requires SeparateNodes(children) && |key| <= SHORT_KEY_SIZE && Shadows(children, key, i)
    ensures First(children, Like(key)) != First(children, Exactly(key))
  {
    hide First, PacksLike;
    var m := Earliest(children, Like(key), i);
    FirstIsLeast(children, Like(key), m);
    assert children[m].key != key;
    if f :| 0 <= f < |children| && children[f].key == key {
      var e := Earliest(children, Exactly(key), f);
      FirstIsLeast(children, Exactly(key), e);
      assert children[if e < m then e else m].processor != children[if e < m then m else e].processor;
    } else {
      FirstOfNone(children, Exactly(key));
    }
  }

  lemma UnshadowedAgrees(children: seq<Child>, key: string)
    requires |key| <= SHORT_KEY_SIZE && !Shadowed(children, key)
    ensures First(children, Like(key)) == First(children, Exactly(key))
  {
    hide First;
    assert forall c: Child :: c.key == key ==> PacksLike(c, key);
    if i :| 0 <= i < |children| && PacksLike(children[i], key) {
      var m := Earliest(children, Like(key), i);
      FirstIsLeast(children, Like(key), m);
      assert !Shadows(children, key, m);
      FirstIsLeast(children, Exactly(key), m);
    } else {
      FirstOfNone(children, Like(key));
      FirstOfNone(children, Exactly(key));
    }
  }

  /** The packed index answers like the full index except for a short name looked up without escapes that
      is shadowed; NUL-free keys and names never are. */
  lemma IndexAgreement(children: seq<Child>, key: string, escaped: bool)
    requires ByteKeys(children) && IsBytes(key)
    ensures SeparateNodes(children) ==>
              (FindSub(children, key, escaped) != ByFullKey(children, key) <==>
               !escaped && |key| <= SHORT_KEY_SIZE && Shadowed(children, key))
    ensures PlainKeys(children) && NulFree(key) ==> FindSub(children, key, escaped) == ByFullKey(children, key)
  {
    hide First, Shadowed, PackedKey;
    if !escaped && |key| <= SHORT_KEY_SIZE {
      ShortLookup(children, key);
      FullLookup(children, key);
      if PlainKeys(children) && NulFree(key) {
        PlainUnshadowed(children, key);
      }
      if Shadowed(children, key) {
        var i := AShadow(children, key);
        if SeparateNodes(children) {
          ShadowedDiffers(children, key, i);
        }
      } else {
        UnshadowedAgrees(children, key);
      }
    }
  }

  lemma AShadow(children: seq<Child>, key: string) returns (i: nat)
    requires Shadowed(children, key)
    ensures Shadows(children, key, i)
  {
    i :| Shadows(children, key, i);
  }

  lemma PlainUnshadowed(children: seq<Child>, key: string)
    requires PlainKeys(children) && NulFree(key)
    ensures !Shadowed(children, key)
  {
    assert TrimNul(key) == key;
    assert forall i :: 0 <= i < |children| ==> TrimNul(children[i].key) == children[i].key;
  }

  /** The member name "a" followed by NUL finds the child "a". */
  lemma TrailingNulExample(node: Processor)
    ensures var children := [Child("a", node)];
            FindSub(children, "a\0", false) == Some(node) && ByFullKey(children, "a\0") == None
  {
    var children := [Child("a", node)];
    var name := "a\0";
    assert name[..1] == "a" && TrimNul("a") == "a" && TrimNul(name) == TrimNul(name[..1]);
    ShortLookup(children, name);
    FullLookup(children, name);
    FirstIsLeast(children, Like(name), 0);
    assert |children[0].key| != |name|;
    FirstOfNone(children, Exactly(name));
  }
}
