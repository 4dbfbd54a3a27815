/**
 The latency histogram of test/src/long.rs: 8 buckets for each power of two,
 in an array of 512 counters, and the quantile read from it.
 */
module Histogram {
  import opened Bytes

  const BUCKETS := 512

  /** The last bucket that a 64-bit value falls into. */
  const LAST := 495

  // ----- the buckets ----------------------------------------------------------------

  /** `v << n` before it is cut to 64 bits. */
  function Shl(v: nat, n: nat): nat {
    if n == 0 then v else 2 * Shl(v, n - 1)
  }

  /** The position of the highest bit. */
  function Log2(v: nat): (e: nat)
    requires v > 0
    ensures v >= 2 ==> e >= 1
    ensures v >= 4 ==> e >= 2
    ensures v >= 8 ==> e >= 3
  {
    if v == 1 then 0 else 1 + Log2(v / 2)
  }

  function Index(v: nat): nat {
    if v < 8 then v
    else
      var e := Log2(v);
      (e - 2) * 8 + Shr(v, e - 3) % 8
  }

  /** The least value of a bucket, as computed in 64 bits. */
  function Lower(i: nat): u64 {
    if i < 8 then i else Shl(8 + i % 8, i / 8 - 1) % WRAP
  }

  /** Halving a value of 16 or more takes it 8 buckets down. */
  lemma IndexHalves(v: nat)
    ensures v < 16 ==> Index(v) == v
    ensures v >= 16 ==> Index(v) == 8 + Index(v / 2)
  {
    if v >= 16 {
      Halved(v);
    } else if v >= 8 {
      assert Log2(v) == 1 + Log2(v / 2) == 2 + Log2(v / 4) == 3 + Log2(1);
    }
  }

  lemma Halved(v: nat)
    requires v >= 16
    ensures Index(v) == 8 + Index(v / 2)
  {
    var h, e := v / 2, Log2(v / 2);
    assert Log2(v) == 1 + e;
    assert Shr(v, e - 2) == Shr(h, e - 3);
  }

  /** The least value of a bucket, of any size. */
  function Floor(i: nat): nat {
    if i < 16 then i else 2 * Floor(i - 8)
  }

  lemma {:induction false} FloorIsShift(i: nat)
    requires i >= 8
    ensures Floor(i) == Shl(8 + i % 8, i / 8 - 1)
  {
    if i >= 16 {
      FloorIsShift(i - 8);
    }
  }

  lemma {:induction false} FloorRises(i: nat)
    ensures Floor(i) < Floor(i + 1)
  {
    if i >= 16 {
      FloorRises(i - 8);
    }
  }

  lemma {:induction false} FloorMonotone(i: nat, j: nat)
    requires i <= j
    ensures Floor(i) <= Floor(j)
    decreases j
  {
    if i < j {
      FloorMonotone(i, j - 1);
      FloorRises(j - 1);
    }
  }

  lemma TopBucket()
    ensures Floor(LAST) == 15 * 0x1000_0000_0000_0000 && Floor(LAST + 1) == WRAP
  {
    FloorIsShift(LAST);
    FloorIsShift(LAST + 1);
    ShlSixty(15);
    ShlSixty(8);
    assert Shl(8, 61) == 2 * Shl(8, 60);
  }

  lemma ShlSixty(v: nat)
    ensures Shl(v, 60) == v * 0x1000_0000_0000_0000
  {
    ShlTen(v, 50);
    ShlTen(v, 40);
    ShlTen(v, 30);
    ShlTen(v, 20);
    ShlTen(v, 10);
    ShlTen(v, 0);
  }

  lemma ShlTen(v: nat, n: nat)
    ensures Shl(v, n + 10) == 1024 * Shl(v, n)
  {
    assert Shl(v, n + 1) == 2 * Shl(v, n) && Shl(v, n + 2) == 4 * Shl(v, n);
    assert Shl(v, n + 4) == 4 * Shl(v, n + 2) && Shl(v, n + 6) == 4 * Shl(v, n + 4);
    assert Shl(v, n + 8) == 4 * Shl(v, n + 6) && Shl(v, n + 10) == 4 * Shl(v, n + 8);
  }

  /** The 64-bit computation cuts nothing off up to the last bucket in use. */
  lemma LowerIsFloor(i: nat)
    requires i <= LAST
    ensures Lower(i) == Floor(i)
  {
    FloorMonotone(i, LAST);
    TopBucket();
    if i >= 8 {
      FloorIsShift(i);
      Uncut(Floor(i));
    }
  }

  /** A bucket's width is at most an eighth of its least value. */
  lemma {:induction false} Width(i: nat)
    requires i >= 8
    ensures 8 * (Floor(i + 1) - Floor(i)) <= Floor(i)
  {
    if i >= 16 {
      Width(i - 8);
    }
  }

  /** A value lies in its bucket. */
  lemma {:induction false} InBucket(v: nat)
    ensures Floor(Index(v)) <= v < Floor(Index(v) + 1)
    ensures v >= 8 ==> Index(v) >= 8
  {
    IndexHalves(v);
    if v >= 16 {
      InBucket(v / 2);
    }
  }

  lemma WithinAnEighth(v: nat)
    ensures v - Floor(Index(v)) <= v / 8
  {
    InBucket(v);
    if v >= 8 {
      Width(Index(v));
    } else {
      IndexHalves(v);
    }
  }

  lemma LastInUse(v: u64)
    ensures Index(v) <= LAST
  {
    InBucket(v);
    TopBucket();
    if Index(v) > LAST {
      FloorMonotone(LAST + 1, Index(v));
    }
  }

  lemma TopWraps()
    ensures Lower(LAST + 1) == 0
  {
    TopBucket();
    FloorIsShift(LAST + 1);
  }

  /**
   The buckets: every 64-bit value has one of the 496 in use, whose lower end
   is at most the value and within an eighth of it; the next one starts above
   the value, except that the last one has no next: `lower(496)` wraps to 0.
   */
  lemma Buckets(v: u64)
    ensures Index(v) <= LAST
    ensures Lower(Index(v)) <= v && v - Lower(Index(v)) <= v / 8
    ensures v < Lower(Index(v) + 1) <==> Index(v) < LAST
  {
    WithinAnEighth(v);
    LastInUse(v);
    LowerIsFloor(Index(v));
    InBucket(v);
    if Index(v) < LAST {
      LowerIsFloor(Index(v) + 1);
    } else {
      TopWraps();
    }
  }

  lemma IndexMonotone(u: nat, v: nat)
    requires u <= v
    ensures Index(u) <= Index(v)
  {
    InBucket(u);
    InBucket(v);
    if Index(v) < Index(u) {
      FloorMonotone(Index(v) + 1, Index(u));
    }
  }

  lemma IndexOfLower(i: nat)
    requires i <= LAST
    ensures Index(Lower(i)) == i
  {
    LowerIsFloor(i);
    InBucket(Floor(i));
    var j := Index(Floor(i));
    FloorRises(i);
    if j < i {
      FloorMonotone(j + 1, i);
    } else if j > i {
      FloorMonotone(i + 1, j);
    }
  }

  // ----- counting ----------------------------------------------------------------------

  /** How many of the values fall into bucket `i`. */
  function CountIn(vals: seq<u64>, i: nat): nat {
    if |vals| == 0 then 0
    else CountIn(vals[..|vals| - 1], i) + (if Index(vals[|vals| - 1]) == i then 1 else 0)
  }

  /** How many fall into the first `i` buckets. */
  function CountBelow(vals: seq<u64>, i: nat): nat {
    if i == 0 then 0 else CountBelow(vals, i - 1) + CountIn(vals, i - 1)
  }

  lemma {:induction false} CountInConcat(a: seq<u64>, b: seq<u64>, i: nat)
    ensures CountIn(a + b, i) == CountIn(a, i) + CountIn(b, i)
  {
    if |b| == 0 {
      assert a + b == a;
    } else {
      assert (a + b)[..|a + b| - 1] == a + b[..|b| - 1];
      CountInConcat(a, b[..|b| - 1], i);
    }
  }

  lemma {:induction false} CountBelowConcat(a: seq<u64>, b: seq<u64>, i: nat)
    ensures CountBelow(a + b, i) == CountBelow(a, i) + CountBelow(b, i)
  {
    if i > 0 {
      CountBelowConcat(a, b, i - 1);
      CountInConcat(a, b, i - 1);
    }
  }

  lemma {:induction false} CountBelowOne(v: u64, i: nat)
    ensures CountBelow([v], i) == if Index(v) < i then 1 else 0
  {
    if i > 0 {
      CountBelowOne(v, i - 1);
      assert CountIn([v][..0], i - 1) == 0;
    }
  }

  lemma {:induction false} CountBelowRises(vals: seq<u64>, i: nat, j: nat)
    requires i <= j
    ensures CountBelow(vals, i) <= CountBelow(vals, j)
    decreases j
  {
    if i < j {
      CountBelowRises(vals, i, j - 1);
    }
  }

  /** All values fall into the buckets in use. */
  lemma {:induction false} CountAll(vals: seq<u64>, i: nat)
    requires i > LAST
    ensures CountBelow(vals, i) == |vals|
  {
    if |vals| == 0 {
      NoneBelow(i);
    } else {
      var init, v := vals[..|vals| - 1], vals[|vals| - 1];
      assert vals == init + [v];
      CountAll(init, i);
      CountBelowConcat(init, [v], i);
      CountBelowOne(v, i);
      Buckets(v);
    }
  }

  lemma {:induction false} NoneBelow(i: nat)
    ensures CountBelow([], i) == 0
  {
    if i > 0 {
      NoneBelow(i - 1);
    }
  }

  ghost predicate Sorted(s: seq<u64>) {
    forall i, j :: 0 <= i < j < |s| ==> s[i] <= s[j]
  }

  /** `sorted` is `vals` in order. */
  ghost predicate Orders(sorted: seq<u64>, vals: seq<u64>) {
    Sorted(sorted) && multiset(sorted) == multiset(vals)
  }

  lemma OrdersLength(sorted: seq<u64>, vals: seq<u64>)
    requires multiset(sorted) == multiset(vals)
    ensures |sorted| == |vals|
  {
    assert |multiset(sorted)| == |multiset(vals)|;
  }

  /** In a sorted list, those in buckets below that of `s[k]` come before it, and it is in its own. */
  lemma {:induction false} SortedCount(s: seq<u64>, k: nat)
    requires Sorted(s) && k < |s|
    ensures CountBelow(s, Index(s[k])) <= k < CountBelow(s, Index(s[k]) + 1)
  {
    var i := Index(s[k]);
    var before, after := s[..k], s[k..];
    assert s == before + after && s == s[..k + 1] + s[k + 1..];
    CountBelowConcat(before, after, i);
    CountBelowAtMost(before, i);
    forall v | v in after
      ensures Index(v) >= i
    {
      IndexMonotone(s[k], v);
    }
    CountBelowNone(after, i);
    CountBelowConcat(s[..k + 1], s[k + 1..], i + 1);
    forall v | v in s[..k + 1]
      ensures Index(v) < i + 1
    {
      IndexMonotone(v, s[k]);
    }
    CountBelowEvery(s[..k + 1], i + 1);
  }

  lemma {:induction false} CountBelowAtMost(vals: seq<u64>, i: nat)
    ensures CountBelow(vals, i) <= |vals|
  {
    CountAll(vals, i + LAST + 1);
    CountBelowRises(vals, i, i + LAST + 1);
  }

  lemma {:induction false} CountBelowNone(vals: seq<u64>, i: nat)
    requires forall v :: v in vals ==> Index(v) >= i
    ensures CountBelow(vals, i) == 0
  {
    if |vals| == 0 {
      NoneBelow(i);
    } else {
      var init, v := vals[..|vals| - 1], vals[|vals| - 1];
      assert vals == init + [v];
      CountBelowNone(init, i);
      CountBelowConcat(init, [v], i);
      CountBelowOne(v, i);
    }
  }

  lemma {:induction false} CountBelowEvery(vals: seq<u64>, i: nat)
    requires forall v :: v in vals ==> Index(v) < i
    ensures CountBelow(vals, i) == |vals|
  {
    if |vals| == 0 {
      NoneBelow(i);
    } else {
      var init, v := vals[..|vals| - 1], vals[|vals| - 1];
      assert vals == init + [v];
      CountBelowEvery(init, i);
      CountBelowConcat(init, [v], i);
      CountBelowOne(v, i);
    }
  }

  /** Order does not matter to the counts. */
  lemma {:induction false} CountPermuted(a: seq<u64>, b: seq<u64>, i: nat)
    requires multiset(a) == multiset(b)
    ensures CountBelow(a, i) == CountBelow(b, i)
  {
    OrdersLength(a, b);
    if |a| > 0 {
      var init, v := a[..|a| - 1], a[|a| - 1];
      assert a == init + [v];
      assert v in multiset(b);
      var k :| 0 <= k < |b| && b[k] == v;
      var left, right := b[..k], b[k + 1..];
      assert b == left + ([v] + right);
      OneLess(init, v, left, right);
      CountPermuted(init, left + right, i);
      CountBelowConcat(init, [v], i);
      CountBelowConcat(left, [v] + right, i);
      CountBelowConcat([v], right, i);
      CountBelowConcat(left, right, i);
    } else {
      assert a == b;
    }
  }

  lemma OneLess(init: seq<u64>, v: u64, left: seq<u64>, right: seq<u64>)
    requires multiset(init + [v]) == multiset(left + ([v] + right))
    ensures multiset(init) == multiset(left + right)
  {
    assert multiset(init + [v]) == multiset(init) + multiset{v};
    assert multiset(left + ([v] + right)) == multiset(left) + (multiset{v} + multiset(right));
    assert multiset(init) == multiset(init + [v]) - multiset{v};
    assert multiset(left + right) == multiset(left) + multiset(right);
  }

  // ----- the quantile --------------------------------------------------------------------

  /** The bucket that the walk stops at: the first up to which `target` values are counted. */
  ghost predicate StopsAt(vals: seq<u64>, target: nat, i: nat) {
    CountBelow(vals, i) < target <= CountBelow(vals, i + 1)
  }

  lemma StopsOnce(vals: seq<u64>, target: nat, i: nat, j: nat)
    requires StopsAt(vals, target, i) && StopsAt(vals, target, j)
    ensures i == j
  {
    if i < j {
      CountBelowRises(vals, i + 1, j);
    } else if j < i {
      CountBelowRises(vals, j + 1, i);
    }
  }

  /** The walk stops at the bucket of the `target`th smallest value. */
  lemma StopsAtRank(vals: seq<u64>, sorted: seq<u64>, target: nat, i: nat)
    requires Orders(sorted, vals)
    requires 1 <= target <= |sorted| && StopsAt(vals, target, i)
    ensures i == Index(sorted[target - 1])
  {
    var x := Index(sorted[target - 1]);
    SortedCount(sorted, target - 1);
    CountPermuted(vals, sorted, x);
    CountPermuted(vals, sorted, x + 1);
    StopsOnce(vals, target, i, x);
  }

  /** `r` is at most `x`, and within an eighth of it. */
  predicate Within(r: u64, x: u64) {
    x - x / 8 <= r <= x
  }

  class Hist {
    const buckets: array<nat>
    /** What was recorded, in the order it was. */
    ghost var recorded: seq<u64>

    ghost predicate Valid()
      reads this, buckets
    {
      buckets.Length == BUCKETS && forall i :: 0 <= i < BUCKETS ==> buckets[i] == CountIn(recorded, i)
    }

    constructor ()
      ensures Valid() && recorded == [] && fresh(buckets)
    {
      buckets := new nat[BUCKETS](i => 0);
      recorded := [];
    }

    method Add(v: u64)
      requires Valid()
      modifies this, buckets
      ensures Valid() && recorded == old(recorded) + [v]
    {
      Buckets(v);
      var i := if Index(v) < 511 then Index(v) else 511;
      buckets[i] := buckets[i] + 1;
      recorded := recorded + [v];
      assert recorded[..|recorded| - 1] == old(recorded);
    }

    /** As if everything recorded in `o` had been recorded here. */
    method Merge(o: Hist)
      requires Valid() && o.Valid() && o != this && o.buckets != buckets
      modifies this, buckets
      ensures Valid() && recorded == old(recorded) + o.recorded
    {
      for i := 0 to BUCKETS
        invariant recorded == old(recorded)
        invariant forall k :: 0 <= k < i ==> buckets[k] == CountIn(recorded, k) + CountIn(o.recorded, k)
        invariant forall k :: i <= k < BUCKETS ==> buckets[k] == CountIn(recorded, k)
      {
        buckets[i] := buckets[i] + o.buckets[i];
      }
      forall k | 0 <= k < BUCKETS
        ensures CountIn(recorded + o.recorded, k) == CountIn(recorded, k) + CountIn(o.recorded, k)
      {
        CountInConcat(recorded, o.recorded, k);
      }
      recorded := recorded + o.recorded;
    }

    method Count() returns (n: nat)
      requires Valid()
      ensures n == |recorded|
    {
      n := 0;
      for i := 0 to BUCKETS
        invariant n == CountBelow(recorded, i)
      {
        n := n + buckets[i];
      }
      CountAll(recorded, BUCKETS);
    }

    /** The value at rank `target`, counting from 1, to within an eighth. */
    method Quantile(target: nat) returns (r: u64)
      requires Valid() && target >= 1
      ensures recorded == [] ==> r == 0
      ensures forall sorted: seq<u64> ::
        Orders(sorted, recorded) && target <= |sorted| ==>
          r == Lower(Index(sorted[target - 1])) && Within(r, sorted[target - 1])
    {
      var total := Count();
      if total == 0 {
        TooFew(recorded, target);
        return 0;
      }
      var seen := 0;
      for i := 0 to BUCKETS
        invariant seen == CountBelow(recorded, i) < target
      {
        seen := seen + buckets[i];
        if seen >= target {
          RankFound(recorded, target, i);
          return Lower(i);
        }
      }
      CountAll(recorded, BUCKETS);
      TooFew(recorded, target);
      return Lower(511);
    }
  }

  lemma TooFew(vals: seq<u64>, target: nat)
    requires |vals| < target
    ensures forall sorted: seq<u64> :: Orders(sorted, vals) ==> |sorted| < target
  {
    forall sorted: seq<u64> | Orders(sorted, vals)
      ensures |sorted| < target
    {
      OrdersLength(sorted, vals);
    }
  }

  /** The quantile's accuracy: at the bucket where the walk stops, for every way of sorting what was recorded. */
  lemma RankFound(vals: seq<u64>, target: nat, i: nat)
    requires target >= 1 && StopsAt(vals, target, i)
    ensures forall sorted: seq<u64> :: Orders(sorted, vals) && target <= |sorted| ==>
      Lower(i) == Lower(Index(sorted[target - 1])) && Within(Lower(i), sorted[target - 1])
  {
    forall sorted: seq<u64> | Orders(sorted, vals) && target <= |sorted|
      ensures i == Index(sorted[target - 1]) && Within(Lower(i), sorted[target - 1])
    {
      StopsAtRank(vals, sorted, target, i);
      Buckets(sorted[target - 1]);
    }
  }
}
