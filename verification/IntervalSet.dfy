/** Sets of half-open intervals of natural numbers, kept in a sorted duplicate-free container. */
module IntervalSets {

  datatype Interval = Interval(min: nat, max: nat)

  /** The container's order. */
  predicate Less(a: Interval, b: Interval) { a.min < b.min || (a.min == b.min && a.max < b.max) }

  predicate Sorted(s: seq<Interval>) { forall i, j :: 0 <= i < j < |s| ==> Less(s[i], s[j]) }

  predicate In(v: nat, a: Interval) { a.min <= v < a.max }

  ghost predicate Covers(s: seq<Interval>, v: nat) { exists a :: a in s && In(v, a) }

  predicate Proper(s: seq<Interval>) { forall i :: 0 <= i < |s| ==> s[i].min <= s[i].max }

  /** No overlap; intervals may touch and may be empty. */
  predicate Ordered(s: seq<Interval>) {
    Proper(s) && forall i, j :: 0 <= i < j < |s| ==> s[i].max <= s[j].min
  }

  /** What normalisation reaches: neighbours do not even touch. */
  predicate Gapped(s: seq<Interval>) {
    Proper(s) && forall i, j :: 0 <= i < j < |s| ==> s[i].max < s[j].min
  }

  /* ---- the container ---- */

  method LowerBound(s: seq<Interval>, x: Interval) returns (k: nat)
    requires Sorted(s)
    ensures k <= |s|
    ensures forall i :: 0 <= i < k ==> Less(s[i], x)
    ensures forall i :: k <= i < |s| ==> !Less(s[i], x)
  {
    var lo, hi := 0, |s|;
    while lo < hi
      invariant 0 <= lo <= hi <= |s|
      invariant forall i :: 0 <= i < lo ==> Less(s[i], x)
      invariant forall i :: hi <= i < |s| ==> !Less(s[i], x)
    {
      var mid := (lo + hi) / 2;
      if Less(s[mid], x) {
        lo := mid + 1;
      } else {
        hi := mid;
      }
    }
    k := lo;
  }

  method UpperBound(s: seq<Interval>, x: Interval) returns (k: nat)
    requires Sorted(s)
    ensures k <= |s|
    ensures forall i :: 0 <= i < k ==> !Less(x, s[i])
    ensures forall i :: k <= i < |s| ==> Less(x, s[i])
  {
    k := LowerBound(s, x);
    if k < |s| && s[k] == x {
      k := k + 1;
    }
  }

  method Insert(s: seq<Interval>, x: Interval) returns (r: seq<Interval>)
    requires Sorted(s)
    ensures Sorted(r) && forall y :: y in r <==> y in s || y == x
    ensures s == [] || Less(s[|s| - 1], x) ==> r == s + [x]
  {
    var k := LowerBound(s, x);
    if k < |s| && s[k] == x {
      r := s;
    } else {
      r := s[..k] + [x] + s[k..];
      assert s == s[..k] + s[k..];
    }
  }

  /* ---- normalisation ---- */

  /** The loop's state: what has been built, and the end of the last interval built. */
  ghost predicate Built(ints: seq<Interval>, pmax: nat, lo: nat, hi: nat) {
    Gapped(ints) && (forall i :: 0 <= i < |ints| ==> lo <= ints[i].min && ints[i].max <= hi) &&
    pmax == (if ints == [] then lo else ints[|ints| - 1].max)
  }

  /** Exactly the numbers of [lo, hi) covered by the intervals taken so far are covered. */
  ghost predicate Faithful(ints: seq<Interval>, taken: seq<Interval>, lo: nat, hi: nat) {
    forall v: nat :: Covers(ints, v) <==> lo <= v < hi && Covers(taken, v)
  }

  lemma CoversAppend(s: seq<Interval>, x: Interval, v: nat)
    ensures Covers(s + [x], v) <==> Covers(s, v) || In(v, x)
  {
    if Covers(s, v) {
      var a :| a in s && In(v, a);
      assert a in s + [x];
    }
    if In(v, x) {
      assert x in s + [x];
    }
  }

  /** Nothing below the last interval's start is missing: the next interval starts no earlier, or below
      the lower limit. */
  predicate StartsBefore(ints: seq<Interval>, next: Interval, lo: nat) {
    ints != [] ==> ints[|ints| - 1].min <= Max(lo, next.min)
  }

  function Max(a: nat, b: nat): nat { if a < b then b else a }
  function Min(a: nat, b: nat): nat { if a < b then a else b }

  /** Skipping an interval that ends before the last one built loses nothing. */
  lemma SkipFaithful(ints: seq<Interval>, pmax: nat, taken: seq<Interval>, x: Interval, lo: nat, hi: nat)
    requires Built(ints, pmax, lo, hi) && Faithful(ints, taken, lo, hi) && StartsBefore(ints, x, lo)
    requires Max(pmax, x.min) > Min(x.max, hi)
    ensures Faithful(ints, taken + [x], lo, hi)
  {
    hide Covers;
    forall v: nat
      ensures Covers(ints, v) <==> lo <= v < hi && Covers(taken + [x], v)
    {
      CoversAppend(taken, x, v);
      if lo <= v < hi && In(v, x) {
        LastCovers(ints, v);
      }
    }
  }

  lemma LastCovers(s: seq<Interval>, v: nat)
    requires s != [] && In(v, s[|s| - 1])
    ensures Covers(s, v)
  {
    assert s[|s| - 1] in s;
  }

  lemma AppendFaithful(ints: seq<Interval>, pmax: nat, taken: seq<Interval>, x: Interval, lo: nat, hi: nat)
    requires Built(ints, pmax, lo, hi) && Faithful(ints, taken, lo, hi) && StartsBefore(ints, x, lo)
    requires var rmin, rmax := Max(pmax, x.min), Min(x.max, hi); rmin <= rmax && !(rmin == pmax && ints != [])
    ensures var rmin, rmax := Max(pmax, x.min), Min(x.max, hi);
            Built(ints + [Interval(rmin, rmax)], rmax, lo, hi) &&
            Faithful(ints + [Interval(rmin, rmax)], taken + [x], lo, hi)
  {
    hide Covers;
    var added := Interval(Max(pmax, x.min), Min(x.max, hi));
    forall v: nat
      ensures Covers(ints + [added], v) <==> lo <= v < hi && Covers(taken + [x], v)
    {
      CoversAppend(taken, x, v);
      CoversAppend(ints, added, v);
    }
  }

  lemma MergeFaithful(ints: seq<Interval>, pmax: nat, taken: seq<Interval>, x: Interval, lo: nat, hi: nat)
    requires Built(ints, pmax, lo, hi) && Faithful(ints, taken, lo, hi) && StartsBefore(ints, x, lo)
    requires ints != [] && Max(pmax, x.min) == pmax <= Min(x.max, hi)
    ensures var front, last := ints[..|ints| - 1], Interval(ints[|ints| - 1].min, Min(x.max, hi));
            Built(front + [last], last.max, lo, hi) && Faithful(front + [last], taken + [x], lo, hi)
  {
    hide Covers;
    var front, previous, last := ints[..|ints| - 1], ints[|ints| - 1], Interval(ints[|ints| - 1].min, Min(x.max, hi));
    assert ints == front + [previous];
    forall v: nat
      ensures Covers(front + [last], v) <==> lo <= v < hi && Covers(taken + [x], v)
    {
      CoversAppend(taken, x, v);
      CoversAppend(front, previous, v);
      CoversAppend(front, last, v);
    }
  }

  class IntervalSet {
    var items: seq<Interval>

    ghost predicate Valid()
      reads this
    {
      Sorted(items)
    }

    constructor ()
      ensures Valid() && items == []
    {
      items := [];
    }

    method Add(x: Interval)
      requires Valid()
      modifies this
      ensures Valid() && Elements(items) == old(Elements(items)) + {x}
    {
      items := Insert(items, x);
    }

    /** Whatever the intervals were: afterwards they have strict gaps, lie within the limits and cover
        exactly what was covered within them. */
    method Normalize(lo: nat, hi: nat)
      requires Valid()
      modifies this
      ensures Valid() && Gapped(items)
      ensures forall i :: 0 <= i < |items| ==> lo <= items[i].min && items[i].max <= hi
      ensures forall v: nat :: Covers(items, v) <==> lo <= v < hi && Covers(old(items), v)
    {
      hide Covers, Sorted, Faithful, Gapped, Built, Less;
      var ints: seq<Interval> := [];
      var pmax, k := lo, 0;
      NothingBuilt(lo, hi);
      while k < |items|
        invariant k <= |items| && items == old(items) && Valid()
        invariant Built(ints, pmax, lo, hi) && Faithful(ints, items[..k], lo, hi)
        invariant k < |items| ==> StartsBefore(ints, items[k], lo)
      {
        var x := items[k];
        assert items[..k + 1] == items[..k] + [x];
        var rmin, rmax := Max(pmax, x.min), Min(x.max, hi);
        NextStarts(items, k, ints, pmax, lo, hi);
        BuiltIsSorted(ints, pmax, lo, hi);
        if rmin <= rmax {
          if rmin == pmax && ints != [] {
            MergeFaithful(ints, pmax, items[..k], x, lo, hi);
            var pmin, front := ints[|ints| - 1].min, ints[..|ints| - 1];
            BuiltIsSorted(front + [Interval(pmin, rmax)], rmax, lo, hi);
            assert (front + [Interval(pmin, rmax)])[..|front|] == front;
            ints := Insert(front, Interval(pmin, rmax));
          } else {
            AppendFaithful(ints, pmax, items[..k], x, lo, hi);
            BuiltIsSorted(ints + [Interval(rmin, rmax)], rmax, lo, hi);
            ints := Insert(ints, Interval(rmin, rmax));
          }
          pmax := rmax;
        } else {
          SkipFaithful(ints, pmax, items[..k], x, lo, hi);
        }
        k := k + 1;
      }
      assert items[..k] == items;
      Finished(ints, pmax, items, lo, hi);
      items := ints;
    }

    /** Membership by the neighbours of (v, v): whether the last interval that starts at or before v
        covers it. A number found is always covered, and every covered number is found when no interval
        is hidden behind a later one, as after normalisation. */
    method Contains(v: nat) returns (r: bool)
      requires Valid()
      ensures r <==> Found(items, v)
      ensures r ==> Covers(items, v)
      ensures NoneHidden(items) || Gapped(items) ==> (r <==> Covers(items, v))
    {
      hide NoneHidden;
      var k := UpperBound(items, Interval(v, v));
      r := (k < |items| && items[k].min == v) || (k != 0 && items[k - 1].min <= v < items[k - 1].max);
      NeighboursTell(items, k, v);
      FoundIsCovered(items, v);
      if Gapped(items) {
        OrderedHidesNothing(items);
      }
      if NoneHidden(items) {
        CoveredIsFound(items, v);
      }
    }

    /** Normalising and then asking: exactly the numbers within the limits that were covered before. */
    method NormalizeAndFind(lo: nat, hi: nat, v: nat) returns (r: bool)
      requires Valid()
      modifies this
      ensures Valid() && Gapped(items)
      ensures r <==> lo <= v < hi && old(Covers(items, v))
    {
      Normalize(lo, hi);
      r := Contains(v);
    }

    /** Adds to `res` the end of the interval before `min`, the intervals between the limits, and the
        last of them up to `max`. */
    method CrossInto(res: IntervalSet, min: nat, max: nat)
      requires Valid() && res.Valid() && res != this
      modifies res
      ensures res.Valid()
      ensures Elements(res.items) == old(Elements(res.items)) + Written(items, min, max)
    {
      hide Sorted, Less, Elements;
      if min < max || min == max {
        var lo := LowerBound(items, Interval(min, 0));
        var hi := UpperBound(items, Interval(max, 0));
        BoundsInOrder(items, lo, hi, min, max);
        LowerIndexIs(items, Interval(min, 0), lo);
        UpperIndexIs(items, Interval(max, 0), hi);
        if lo != 0 && min < items[lo - 1].max {
          res.Add(Interval(min, Min(items[lo - 1].max, max)));
        }
        assert Elements(res.items) == old(Elements(res.items)) + Head(items, lo, min, max);
        ghost var head := Elements(res.items);
        if lo != hi {
          var end := hi;
          if max < items[hi - 1].max {
            res.Add(Interval(items[hi - 1].min, max));
            end := hi - 1;
          }
          ghost var started := Elements(res.items);
          var i := lo;
          NoElements(items, lo);
          while i < end
            invariant lo <= i <= end && res.Valid() && items == old(items)
            invariant Elements(res.items) == started + Elements(items[lo..i])
          {
            ElementsNext(items, lo, i);
            res.Add(items[i]);
            i := i + 1;
          }
        }
        assert Elements(res.items) == head + Rest(items, lo, hi, max);
      }
    }

    /** Intersection with any other set, itself included: what the cuts at its intervals write. That is
        the pointwise intersection when this set is safe to cut, as every set without overlap is; and the
        result does not overlap when neither operand does. */
    method Cross(right: IntervalSet)
      requires Valid() && right.Valid()
      modifies this
      ensures Valid() && Elements(items) == old(CrossAll(items, right.items))
      ensures old(CrossSafe(items) || Ordered(items) || Gapped(items)) ==>
                forall v: nat :: Covers(items, v) <==> old(Covers(items, v)) && old(Covers(right.items, v))
      ensures old(Ordered(items)) && old(Ordered(right.items)) ==> Ordered(items)
    {
      hide Sorted, Covers, Ordered, Gapped, Elements, Written, CrossSafe, CrossAll;
      if Ordered(items) || Gapped(items) {
        OrderedIsCrossSafe(items);
      }
      var res := new IntervalSet();
      var k := 0;
      CrossStart(items, right.items);
      while k < |right.items|
        invariant k <= |right.items| && Valid() && res.Valid() && fresh(res)
        invariant items == old(items) && right.items == old(right.items)
        invariant Elements(res.items) == CrossAll(items, right.items[..k])
        invariant Ordered(items) && Ordered(right.items) ==> Separate(res.items, right.items[..k])
      {
        ghost var before := res.items;
        var r := right.items[k];
        CrossAllNext(items, right.items, k);
        CrossInto(res, r.min, r.max);
        if Ordered(items) && Ordered(right.items) {
          SeparateTurn(before, res.items, items, right.items, k);
        }
        k := k + 1;
      }
      assert right.items[..k] == right.items;
      if CrossSafe(items) {
        CrossEnd(res.items, items, right.items);
      }
      if Ordered(items) && Ordered(right.items) {
        SeparateIsOrdered(res.items, right.items);
      }
      items := res.items;
    }
  }

  lemma NothingBuilt(lo: nat, hi: nat)
    ensures Built([], lo, lo, hi) && Faithful([], [], lo, hi)
  {
  }

  /** Strict gaps imply the container's order, for the whole and for its front. */
  lemma BuiltIsSorted(s: seq<Interval>, pmax: nat, lo: nat, hi: nat)
    requires Built(s, pmax, lo, hi)
    ensures Sorted(s)
    ensures s != [] ==> Sorted(s[..|s| - 1]) && (|s| > 1 ==> Less(s[|s| - 2], s[|s| - 1]))
  {
  }

  lemma Finished(ints: seq<Interval>, pmax: nat, items: seq<Interval>, lo: nat, hi: nat)
    requires Built(ints, pmax, lo, hi) && Faithful(ints, items, lo, hi)
    ensures Gapped(ints) && Sorted(ints)
    ensures forall i :: 0 <= i < |ints| ==> lo <= ints[i].min && ints[i].max <= hi
    ensures forall v: nat :: Covers(ints, v) <==> lo <= v < hi && Covers(items, v)
  {
  }

  /** The interval built from items[k], if any, starts no later than the next item does. */
  lemma NextStarts(items: seq<Interval>, k: nat, ints: seq<Interval>, pmax: nat, lo: nat, hi: nat)
    requires Sorted(items) && k < |items| && Built(ints, pmax, lo, hi) && StartsBefore(ints, items[k], lo)
    ensures k + 1 < |items| ==> StartsBefore(ints, items[k + 1], lo)
    ensures k + 1 < |items| && (ints == [] || Max(pmax, items[k].min) != pmax) ==>
              Max(pmax, items[k].min) <= Max(lo, items[k + 1].min)
  {
    if k + 1 < |items| {
      assert Less(items[k], items[k + 1]);
    }
  }

  /* ---- membership ---- */

  /** The last interval that starts at or before v. */
  predicate LastStart(s: seq<Interval>, v: nat, k: int) {
    0 <= k < |s| && s[k].min <= v && forall j :: k < j < |s| ==> v < s[j].min
  }

  ghost predicate Found(s: seq<Interval>, v: nat) { exists k :: LastStart(s, v, k) && In(v, s[k]) }

  /** An interval reaches past a later one, and nothing has begun by the end of that one. */
  predicate Hides(s: seq<Interval>, i: int, j: int) {
    0 <= i < j < |s| && Max(s[j].min, s[j].max) < s[i].max &&
    (j + 1 < |s| ==> Max(s[j].min, s[j].max) < s[j + 1].min)
  }

  predicate NoneHidden(s: seq<Interval>) {
    forall i, j :: 0 <= i < j < |s| ==> !Hides(s, i, j)
  }

  lemma LastStartOf(s: seq<Interval>, v: nat, i: nat) returns (k: nat)
    requires Sorted(s) && i < |s| && s[i].min <= v
    ensures LastStart(s, v, k) && i <= k
  {
    k := i;
    while k + 1 < |s| && s[k + 1].min <= v
      invariant i <= k < |s| && s[k].min <= v
    {
      k := k + 1;
    }
    if k + 1 < |s| {
      assert forall j :: k + 1 < j < |s| ==> Less(s[k + 1], s[j]);
    }
  }

  lemma NeighboursTell(s: seq<Interval>, k: nat, v: nat)
    requires Sorted(s) && k <= |s|
    requires forall i :: 0 <= i < k ==> !Less(Interval(v, v), s[i])
    requires forall i :: k <= i < |s| ==> Less(Interval(v, v), s[i])
    ensures (k < |s| && s[k].min == v) || (k != 0 && In(v, s[k - 1])) <==> Found(s, v)
  {
    if k < |s| && s[k].min == v {
      var l := LastStartOf(s, v, k);
      assert In(v, s[l]);
    } else if k != 0 {
      assert !Less(Interval(v, v), s[k - 1]);
      assert k < |s| ==> forall j :: k < j < |s| ==> Less(s[k], s[j]);
      assert LastStart(s, v, k - 1);
      assert forall l :: LastStart(s, v, l) ==> l == k - 1;
    } else {
      assert forall j :: 0 < j < |s| ==> Less(s[0], s[j]);
      assert forall j :: 0 <= j < |s| ==> v < s[j].min;
    }
  }

  lemma FoundIsCovered(s: seq<Interval>, v: nat)
    ensures Found(s, v) ==> Covers(s, v)
  {
    if k :| LastStart(s, v, k) && In(v, s[k]) {
      assert s[k] in s;
    }
  }

  lemma CoveredIsFound(s: seq<Interval>, v: nat)
    requires Sorted(s) && NoneHidden(s)
    ensures Covers(s, v) ==> Found(s, v)
  {
    if Covers(s, v) {
      var a :| a in s && In(v, a);
      var i :| 0 <= i < |s| && s[i] == a;
      var k := LastStartOf(s, v, i);
      assert i < k ==> !Hides(s, i, k);
      assert k + 1 < |s| ==> v < s[k + 1].min;
    }
  }

  lemma OrderedHidesNothing(s: seq<Interval>)
    requires Ordered(s) || Gapped(s)
    ensures NoneHidden(s)
  {
  }

  /** Membership is right about every number exactly when no interval is hidden. */
  lemma ContainsExactIff(s: seq<Interval>)
    requires Sorted(s)
    ensures (forall v: nat :: Found(s, v) <==> Covers(s, v)) <==> NoneHidden(s)
  {
    hide Found, Covers, Sorted, Hides;
    if NoneHidden(s) {
      forall v: nat
        ensures Found(s, v) <==> Covers(s, v)
      {
        FoundIsCovered(s, v);
        CoveredIsFound(s, v);
      }
    } else {
      var i, j :| 0 <= i < j < |s| && Hides(s, i, j);
      var v := HiddenIsMissed(s, i, j);
      assert Covers(s, v) && !Found(s, v);
    }
  }

  lemma HiddenIsMissed(s: seq<Interval>, i: nat, j: nat) returns (v: nat)
    requires Sorted(s) && Hides(s, i, j)
    ensures Covers(s, v) && !Found(s, v)
  {
    v := Max(s[j].min, s[j].max);
    assert Less(s[i], s[j]);
    assert s[i] in s && In(v, s[i]);
    assert forall x :: j + 1 < x < |s| ==> Less(s[j + 1], s[x]);
    assert LastStart(s, v, j);
    assert forall l :: LastStart(s, v, l) ==> l == j;
  }

  /* ---- intersection ---- */

  function Elements(s: seq<Interval>): set<Interval> { set a | a in s }

  /** The part of an interval between two limits. */
  function Cut(a: Interval, min: nat, max: nat): Interval { Interval(Max(a.min, min), Min(a.max, max)) }

  /** Which intervals take part: those that reach beyond `min` and do not start at or after `max`
      (an empty interval at zero aside). */
  predicate Meets(a: Interval, min: nat, max: nat) {
    min <= max && (a.min < min ==> min < a.max) && !Less(Interval(max, 0), a)
  }

  function Cuts(s: seq<Interval>, min: nat, max: nat): set<Interval> {
    set a | a in s && Meets(a, min, max) :: Cut(a, min, max)
  }

  lemma BoundsInOrder(s: seq<Interval>, lo: nat, hi: nat, min: nat, max: nat)
    requires lo <= |s| && hi <= |s| && min <= max
    requires forall i :: 0 <= i < lo ==> Less(s[i], Interval(min, 0))
    requires forall i :: hi <= i < |s| ==> Less(Interval(max, 0), s[i])
    ensures lo <= hi
  {
    if lo > 0 {
      assert Less(s[lo - 1], Interval(min, 0));
    }
  }

  /** What the first insertion adds: the end of the interval that begins before `min`. */
  function Head(s: seq<Interval>, lo: nat, min: nat, max: nat): set<Interval>
    requires lo <= |s|
  {
    if lo != 0 && min < s[lo - 1].max then {Interval(min, Min(s[lo - 1].max, max))} else {}
  }

  /** What the second insertion and the copy add. */
  function Rest(s: seq<Interval>, lo: nat, hi: nat, max: nat): set<Interval>
    requires lo <= hi <= |s|
  {
    if lo == hi then {}
    else if max < s[hi - 1].max then {Interval(s[hi - 1].min, max)} + Elements(s[lo..hi - 1])
    else Elements(s[lo..hi])
  }

  predicate Bounds(s: seq<Interval>, lo: nat, hi: nat, min: nat, max: nat) {
    lo <= hi <= |s| && min <= max &&
    (forall i :: 0 <= i < |s| ==> (s[i].min < min <==> i < lo)) &&
    (forall i :: 0 <= i < |s| ==> (Less(Interval(max, 0), s[i]) <==> hi <= i))
  }

  lemma CutWritten(s: seq<Interval>, lo: nat, hi: nat, min: nat, max: nat, i: nat)
    requires Ordered(s) && Bounds(s, lo, hi, min, max) && i < |s| && Meets(s[i], min, max)
    ensures Cut(s[i], min, max) in Head(s, lo, min, max) + Rest(s, lo, hi, max)
  {
    OrderedIsCrossSafe(s);
    if i < lo {
      if i + 1 < lo {
        EarlierEnds(s, lo, hi, min, max, i);
        assert false;
      }
    } else {
      assert i < hi;
      if i < hi - 1 {
        assert s[i].max <= s[hi - 1].min <= max;
        assert s[lo..hi - 1][i - lo] == s[i];
        assert s[lo..hi][i - lo] == s[i];
      } else {
        assert s[lo..hi][i - lo] == s[i];
      }
    }
  }

  lemma IndexIsCut(s: seq<Interval>, min: nat, max: nat, i: nat, x: Interval)
    requires i < |s| && Meets(s[i], min, max) && Cut(s[i], min, max) == x
    ensures x in Cuts(s, min, max)
  {
    assert s[i] in s;
  }

  lemma InsideIsCut(s: seq<Interval>, lo: nat, hi: nat, min: nat, max: nat, i: nat)
    requires Ordered(s) && Bounds(s, lo, hi, min, max) && lo <= i < hi
    ensures i < hi - 1 || s[i].max <= max ==> s[i] in Cuts(s, min, max)
    ensures i == hi - 1 && max < s[i].max ==> Interval(s[i].min, max) in Cuts(s, min, max)
  {
    assert i < hi - 1 ==> s[i].max <= s[hi - 1].min;
    assert Meets(s[i], min, max);
    IndexIsCut(s, min, max, i, Cut(s[i], min, max));
  }

  lemma WrittenIsCut(s: seq<Interval>, lo: nat, hi: nat, min: nat, max: nat, x: Interval)
    requires Ordered(s) && lo <= hi <= |s| && Bounds(s, lo, hi, min, max)
    requires x in Head(s, lo, min, max) + Rest(s, lo, hi, max)
    ensures x in Cuts(s, min, max)
  {
    hide Cuts, Ordered, Bounds;
    if x in Head(s, lo, min, max) {
      HeadIsCut(s, lo, hi, min, max, x);
    } else if max < s[hi - 1].max && x == Interval(s[hi - 1].min, max) {
      InsideIsCut(s, lo, hi, min, max, hi - 1);
    } else {
      var end := if max < s[hi - 1].max then hi - 1 else hi;
      assert x in s[lo..end];
      var j :| 0 <= j < end - lo && s[lo..end][j] == x;
      InsideIsCut(s, lo, hi, min, max, lo + j);
    }
  }

  lemma HeadIsCut(s: seq<Interval>, lo: nat, hi: nat, min: nat, max: nat, x: Interval)
    requires Bounds(s, lo, hi, min, max) && x in Head(s, lo, min, max)
    ensures x in Cuts(s, min, max)
  {
    assert s[lo - 1].min < min;
    assert Meets(s[lo - 1], min, max);
    IndexIsCut(s, min, max, lo - 1, x);
  }

  lemma NoElements(s: seq<Interval>, lo: nat)
    requires lo <= |s|
    ensures Elements(s[lo..lo]) == {}
  {
  }

  lemma ElementsNext(s: seq<Interval>, lo: nat, i: nat)
    requires lo <= i < |s|
    ensures Elements(s[lo..i + 1]) == Elements(s[lo..i]) + {s[i]}
  {
    assert s[lo..i + 1] == s[lo..i] + [s[i]];
  }

  lemma CutsAre(s: seq<Interval>, lo: nat, hi: nat, min: nat, max: nat)
    requires Ordered(s) && lo <= hi <= |s| && Bounds(s, lo, hi, min, max)
    ensures Head(s, lo, min, max) + Rest(s, lo, hi, max) == Cuts(s, min, max)
  {
    hide Head, Rest, Ordered, Bounds;
    var written := Head(s, lo, min, max) + Rest(s, lo, hi, max);
    forall x | x in Cuts(s, min, max)
      ensures x in written
    {
      var a :| a in s && Meets(a, min, max) && Cut(a, min, max) == x;
      var i :| 0 <= i < |s| && s[i] == a;
      CutWritten(s, lo, hi, min, max, i);
    }
    forall x | x in written
      ensures x in Cuts(s, min, max)
    {
      WrittenIsCut(s, lo, hi, min, max, x);
    }
  }

  function LowerIndex(s: seq<Interval>, x: Interval): (k: nat)
    ensures k <= |s|
  {
    if s == [] || !Less(s[0], x) then 0 else 1 + LowerIndex(s[1..], x)
  }

  function UpperIndex(s: seq<Interval>, x: Interval): (k: nat)
    ensures k <= |s|
  {
    if s == [] || Less(x, s[0]) then 0 else 1 + UpperIndex(s[1..], x)
  }

  lemma {:induction false} LowerIndexIs(s: seq<Interval>, x: Interval, k: nat)
    requires k <= |s| && (forall i :: 0 <= i < k ==> Less(s[i], x)) && (k < |s| ==> !Less(s[k], x))
    ensures LowerIndex(s, x) == k
  {
    hide Less;
    if k > 0 {
      LowerIndexIs(s[1..], x, k - 1);
    }
  }

  lemma {:induction false} UpperIndexIs(s: seq<Interval>, x: Interval, k: nat)
    requires k <= |s| && (forall i :: 0 <= i < k ==> !Less(x, s[i])) && (k < |s| ==> Less(x, s[k]))
    ensures UpperIndex(s, x) == k
  {
    hide Less;
    if k > 0 {
      UpperIndexIs(s[1..], x, k - 1);
    }
  }

  /** Everything one cut writes. */
  function Written(s: seq<Interval>, min: nat, max: nat): set<Interval> {
    var lo, hi := LowerIndex(s, Interval(min, 0)), UpperIndex(s, Interval(max, 0));
    if min <= max && lo <= hi then Head(s, lo, min, max) + Rest(s, lo, hi, max) else {}
  }

  /** The two indexes divide a sorted set by where its intervals start. */
  lemma IndexBounds(s: seq<Interval>, min: nat, max: nat)
    requires Sorted(s) && min <= max
    ensures Bounds(s, LowerIndex(s, Interval(min, 0)), UpperIndex(s, Interval(max, 0)), min, max)
  {
    var lo, hi := FindBounds(s, Interval(min, 0), Interval(max, 0));
    LowerIndexIs(s, Interval(min, 0), lo);
    UpperIndexIs(s, Interval(max, 0), hi);
    BoundsInOrder(s, lo, hi, min, max);
    assert forall i :: lo <= i < |s| ==> !Less(s[i], Interval(min, 0));
  }

  lemma FindBounds(s: seq<Interval>, x: Interval, y: Interval) returns (lo: nat, hi: nat)
    requires Sorted(s)
    ensures lo <= |s| && hi <= |s|
    ensures forall i :: 0 <= i < lo ==> Less(s[i], x)
    ensures forall i :: lo <= i < |s| ==> !Less(s[i], x)
    ensures forall i :: 0 <= i < hi ==> !Less(y, s[i])
    ensures forall i :: hi <= i < |s| ==> Less(y, s[i])
  {
    lo, hi := 0, 0;
    while lo < |s| && Less(s[lo], x)
      invariant lo <= |s| && forall i :: 0 <= i < lo ==> Less(s[i], x)
    {
      lo := lo + 1;
    }
    assert forall i :: lo < i < |s| ==> Less(s[lo], s[i]);
    while hi < |s| && !Less(y, s[hi])
      invariant hi <= |s| && forall i :: 0 <= i < hi ==> !Less(y, s[i])
    {
      hi := hi + 1;
    }
    assert forall i :: hi < i < |s| ==> Less(s[hi], s[i]);
  }

  ghost predicate CoveredBy(parts: set<Interval>, v: nat) { exists x :: x in parts && In(v, x) }

  /** Where a later interval still tolerates the end of an earlier one. */
  function Slack(a: Interval): nat { if a.max == 0 then a.min else a.min + 1 }

  /** Cutting is safe: earlier intervals end no later than one number into any later one. */
  predicate CrossSafe(s: seq<Interval>) {
    forall i, j :: 0 <= i < j < |s| ==> s[i].max <= Slack(s[j])
  }

  lemma OrderedIsCrossSafe(s: seq<Interval>)
    requires Ordered(s) || Gapped(s)
    ensures CrossSafe(s)
  {
  }

  /** An interval copied uncut ends at or before the upper limit. */
  lemma CopiedInside(s: seq<Interval>, lo: nat, hi: nat, min: nat, max: nat, i: nat, v: nat)
    requires CrossSafe(s) && Bounds(s, lo, hi, min, max) && lo <= i < hi && In(v, s[i])
    requires i < hi - 1 || s[i].max <= max
    ensures min <= v < max
  {
    if i < hi - 1 {
      assert s[i].max <= Slack(s[hi - 1]);
      assert !Less(Interval(max, 0), s[hi - 1]);
    }
  }

  lemma WrittenInside(s: seq<Interval>, lo: nat, hi: nat, min: nat, max: nat, x: Interval, v: nat)
    requires CrossSafe(s) && lo <= hi <= |s| && Bounds(s, lo, hi, min, max)
    requires x in Head(s, lo, min, max) + Rest(s, lo, hi, max) && In(v, x)
    ensures min <= v < max && Covers(s, v)
  {
    hide CrossSafe;
    if x in Head(s, lo, min, max) {
      assert s[lo - 1].min < min;
      CoversAt(s, lo - 1, v);
    } else if max < s[hi - 1].max && x == Interval(s[hi - 1].min, max) {
      CoversAt(s, hi - 1, v);
    } else {
      hide Bounds;
      var end := if max < s[hi - 1].max then hi - 1 else hi;
      assert x in s[lo..end];
      var j :| 0 <= j < end - lo && s[lo..end][j] == x;
      CopiedInside(s, lo, hi, min, max, lo + j, v);
      CoversAt(s, lo + j, v);
    }
  }

  lemma CoversAt(s: seq<Interval>, i: nat, v: nat)
    requires i < |s| && In(v, s[i])
    ensures Covers(s, v)
  {
    assert s[i] in s;
  }

  /** Only the last interval that begins before the lower limit can reach past it. */
  lemma EarlierEnds(s: seq<Interval>, lo: nat, hi: nat, min: nat, max: nat, i: nat)
    requires CrossSafe(s) && Bounds(s, lo, hi, min, max) && i + 1 < lo
    ensures s[i].max <= min
  {
    assert s[i].max <= Slack(s[lo - 1]);
  }

  lemma InsideWritten(s: seq<Interval>, lo: nat, hi: nat, min: nat, max: nat, i: nat, v: nat)
    requires CrossSafe(s) && lo <= hi <= |s| && Bounds(s, lo, hi, min, max)
    requires i < |s| && In(v, s[i]) && min <= v < max
    ensures CoveredBy(Head(s, lo, min, max) + Rest(s, lo, hi, max), v)
  {
    hide CrossSafe;
    var written := Head(s, lo, min, max) + Rest(s, lo, hi, max);
    if i + 1 < lo {
      EarlierEnds(s, lo, hi, min, max, i);
      assert false;
    } else if i < lo {
      var x := Interval(min, Min(s[i].max, max));
      assert x in written && In(v, x);
    } else if i == hi - 1 && max < s[i].max {
      var x := Interval(s[i].min, max);
      assert x in written && In(v, x);
    } else {
      assert i < hi;
      var end := if max < s[hi - 1].max then hi - 1 else hi;
      assert s[lo..end][i - lo] == s[i];
      assert s[i] in written && In(v, s[i]);
    }
  }

  /** A safe cut writes exactly the covered numbers between the limits. */
  lemma WrittenCovers(s: seq<Interval>, min: nat, max: nat, v: nat)
    requires Sorted(s) && CrossSafe(s)
    ensures CoveredBy(Written(s, min, max), v) <==> min <= v < max && Covers(s, v)
  {
    hide Head, Rest, CrossSafe, Bounds, Sorted;
    if min <= max {
      var lo, hi := LowerIndex(s, Interval(min, 0)), UpperIndex(s, Interval(max, 0));
      IndexBounds(s, min, max);
      BoundsOrder(s, lo, hi, min, max);
      if x :| x in Written(s, min, max) && In(v, x) {
        WrittenInside(s, lo, hi, min, max, x, v);
      }
      if min <= v < max && Covers(s, v) {
        var a :| a in s && In(v, a);
        var i :| 0 <= i < |s| && s[i] == a;
        InsideWritten(s, lo, hi, min, max, i, v);
      }
    }
  }

  lemma BoundsOrder(s: seq<Interval>, lo: nat, hi: nat, min: nat, max: nat)
    requires Bounds(s, lo, hi, min, max)
    ensures lo <= hi <= |s|
  {
  }

  /** What an unsafe cut from zero writes beyond its limit. */
  lemma UnsafeOverruns(s: seq<Interval>, i: nat, j: nat)
    requires Sorted(s) && i < j < |s| && s[i].max > Slack(s[j])
    ensures CoveredBy(Written(s, 0, Slack(s[j])), Slack(s[j]))
  {
    var max := Slack(s[j]);
    var lo, hi := LowerIndex(s, Interval(0, 0)), UpperIndex(s, Interval(max, 0));
    IndexBounds(s, 0, max);
    assert lo == 0 && j < hi;
    assert Less(s[i], s[j]);
    var end := if max < s[hi - 1].max then hi - 1 else hi;
    assert s[0..end][i] == s[i];
    assert s[i] in Written(s, 0, max) && In(max, s[i]);
  }

  /** A cut is right about v: it covers it exactly when it is covered between the limits. */
  ghost predicate CutExact(s: seq<Interval>, min: nat, max: nat, v: nat) {
    CoveredBy(Written(s, min, max), v) <==> min <= v < max && Covers(s, v)
  }

  /** Every cut is exact exactly when the set is safe to cut. */
  lemma CutExactIff(s: seq<Interval>)
    requires Sorted(s)
    ensures (forall min: nat, max: nat, v: nat :: CutExact(s, min, max, v)) <==> CrossSafe(s)
  {
    hide Written, CoveredBy;
    if CrossSafe(s) {
      forall min: nat, max: nat, v: nat
        ensures CutExact(s, min, max, v)
      {
        WrittenCovers(s, min, max, v);
      }
    } else {
      var i, j :| 0 <= i < j < |s| && s[i].max > Slack(s[j]);
      UnsafeOverruns(s, i, j);
      assert !CutExact(s, 0, Slack(s[j]), Slack(s[j]));
    }
  }

  /** What a whole intersection writes. */
  function CrossAll(s: seq<Interval>, right: seq<Interval>): set<Interval> {
    set r, x | r in right && x in Written(s, r.min, r.max) :: x
  }

  lemma CrossAllNext(s: seq<Interval>, right: seq<Interval>, k: nat)
    requires k < |right|
    ensures CrossAll(s, right[..k + 1]) == CrossAll(s, right[..k]) + Written(s, right[k].min, right[k].max)
  {
    hide Written;
    assert right[..k + 1] == right[..k] + [right[k]];
  }

  lemma CrossAllCovers(s: seq<Interval>, right: seq<Interval>, v: nat)
    requires Sorted(s) && CrossSafe(s)
    ensures CoveredBy(CrossAll(s, right), v) <==> Covers(s, v) && Covers(right, v)
  {
    hide Written, CrossSafe, Sorted;
    if x :| x in CrossAll(s, right) && In(v, x) {
      var r :| r in right && x in Written(s, r.min, r.max);
      WrittenCovers(s, r.min, r.max, v);
      assert r in right && In(v, r);
    }
    if Covers(s, v) && Covers(right, v) {
      var r :| r in right && In(v, r);
      WrittenCovers(s, r.min, r.max, v);
      var x :| x in Written(s, r.min, r.max) && In(v, x);
      assert x in CrossAll(s, right);
    }
  }

  /** The intersection with every set is pointwise exactly when the left operand is safe to cut. */
  lemma CrossIsIntersectionIff(s: seq<Interval>)
    requires Sorted(s)
    ensures (forall right: seq<Interval>, v: nat :: Sorted(right) ==>
              (CoveredBy(CrossAll(s, right), v) <==> Covers(s, v) && Covers(right, v))) <==> CrossSafe(s)
  {
    hide CrossAll, CoveredBy;
    if CrossSafe(s) {
      forall right: seq<Interval>, v: nat | Sorted(right)
        ensures CoveredBy(CrossAll(s, right), v) <==> Covers(s, v) && Covers(right, v)
      {
        CrossAllCovers(s, right, v);
      }
    } else {
      var i, j :| 0 <= i < j < |s| && s[i].max > Slack(s[j]);
      var limit := Slack(s[j]);
      UnsafeOverruns(s, i, j);
      CrossAllOfOne(s, Interval(0, limit));
      var right := [Interval(0, limit)];
      assert Sorted(right) && !Covers(right, limit);
      assert CoveredBy(CrossAll(s, right), limit);
    }
  }

  lemma CrossAllOfOne(s: seq<Interval>, r: Interval)
    ensures CrossAll(s, [r]) == Written(s, r.min, r.max)
  {
    hide Written;
  }

  predicate Apart(a: Interval, b: Interval) { a.max <= b.min || b.max <= a.min }

  /** The parts are proper, pairwise apart, and end within the intervals taken so far. */
  ghost predicate Separate(res: seq<Interval>, taken: seq<Interval>) {
    (forall a :: a in res ==> a.min <= a.max && taken != [] && a.max <= taken[|taken| - 1].max) &&
    (forall a, b :: a in res && b in res && a != b ==> Apart(a, b))
  }

  lemma CrossStart(s: seq<Interval>, right: seq<Interval>)
    ensures Elements([]) == CrossAll(s, right[..0]) && Separate([], right[..0])
  {
  }

  /** Two parts of one cut, taken from different intervals, are apart. */
  lemma CutsApart(s: seq<Interval>, r: Interval, x: Interval, y: Interval)
    requires Ordered(s) && x in Cuts(s, r.min, r.max) && y in Cuts(s, r.min, r.max) && x != y
    ensures Apart(x, y)
  {
    var a :| a in s && Meets(a, r.min, r.max) && Cut(a, r.min, r.max) == x;
    var b :| b in s && Meets(b, r.min, r.max) && Cut(b, r.min, r.max) == y;
    var i :| 0 <= i < |s| && s[i] == a;
    var j :| 0 <= j < |s| && s[j] == b;
    assert i != j;
  }

  lemma CutProper(s: seq<Interval>, r: Interval, x: Interval)
    requires Ordered(s) && x in Cuts(s, r.min, r.max)
    ensures r.min <= x.min <= x.max <= r.max
  {
    var a :| a in s && Meets(a, r.min, r.max) && Cut(a, r.min, r.max) == x;
    var i :| 0 <= i < |s| && s[i] == a;
  }

  lemma SeparateTurn(before: seq<Interval>, after: seq<Interval>, s: seq<Interval>, right: seq<Interval>, k: nat)
    requires Ordered(s) && Ordered(right) && k < |right| && Separate(before, right[..k])
    requires Sorted(s) && Elements(after) == Elements(before) + Written(s, right[k].min, right[k].max)
    ensures Separate(after, right[..k + 1])
  {
    hide Cuts, Written, Sorted;
    var r := right[k];
    var cuts := Cuts(s, r.min, r.max);
    WrittenIsCuts(s, r);
    assert forall a :: a in after <==> a in Elements(after);
    assert forall a :: a in before <==> a in Elements(before);
    forall a | a in before
      ensures a.max <= r.min
    {
      assert right[..k][k - 1].max <= r.min;
    }
    forall x | x in cuts
      ensures r.min <= x.min <= x.max <= r.max
    {
      CutProper(s, r, x);
    }
    forall a, b | a in after && b in after && a != b
      ensures Apart(a, b)
    {
      if a in cuts && b in cuts {
        CutsApart(s, r, a, b);
      }
    }
  }

  /** On a set without overlap a cut writes the parts of its intervals. */
  lemma WrittenIsCuts(s: seq<Interval>, r: Interval)
    requires Sorted(s) && Ordered(s) && r.min <= r.max
    ensures Written(s, r.min, r.max) == Cuts(s, r.min, r.max)
  {
    hide Sorted, Ordered, Cuts, Head, Rest, Bounds;
    IndexBounds(s, r.min, r.max);
    var lo, hi := LowerIndex(s, Interval(r.min, 0)), UpperIndex(s, Interval(r.max, 0));
    BoundsOrder(s, lo, hi, r.min, r.max);
    CutsAre(s, lo, hi, r.min, r.max);
  }

  lemma CrossEnd(res: seq<Interval>, s: seq<Interval>, right: seq<Interval>)
    requires Sorted(s) && CrossSafe(s) && Elements(res) == CrossAll(s, right)
    ensures forall v: nat :: Covers(res, v) <==> Covers(s, v) && Covers(right, v)
  {
    hide CrossAll, CrossSafe, Sorted;
    assert forall a :: a in res <==> a in Elements(res);
    forall v: nat
      ensures Covers(res, v) <==> Covers(s, v) && Covers(right, v)
    {
      CrossAllCovers(s, right, v);
    }
  }

  lemma SeparateIsOrdered(res: seq<Interval>, taken: seq<Interval>)
    requires Sorted(res) && Separate(res, taken)
    ensures Ordered(res)
  {
    forall i, j | 0 <= i < j < |res|
      ensures res[i].max <= res[j].min
    {
      assert Less(res[i], res[j]);
      assert res[i] in res && res[j] in res;
      assert Apart(res[i], res[j]);
    }
  }

  /* ---- sets that were not normalised ---- */

  const NESTED: seq<Interval> := [Interval(0, 10), Interval(2, 3)]

  /** A short interval inside a long one hides the end of the long one: 5 is covered and not found. */
  lemma HiddenExample()
    ensures Sorted(NESTED) && Covers(NESTED, 5) && !Found(NESTED, 5)
  {
    assert NESTED[0] in NESTED && In(5, NESTED[0]);
    assert LastStart(NESTED, 5, 1);
    assert forall l :: LastStart(NESTED, 5, l) ==> l == 1;
  }

  /** The same set cut at 0 and 3 writes an interval that covers 5. */
  lemma OverrunExample()
    ensures Sorted(NESTED) && CoveredBy(Written(NESTED, 0, 3), 5)
  {
    LowerIndexIs(NESTED, Interval(0, 0), 0);
    UpperIndexIs(NESTED, Interval(3, 0), 2);
    assert NESTED[0..2][0] == Interval(0, 10);
    assert Interval(0, 10) in Written(NESTED, 0, 3) && In(5, Interval(0, 10));
  }
}
