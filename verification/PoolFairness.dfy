/**
 What the pick of src/pool.rs promises over many picks: when a scan misses
 nobody, and how often each member is chosen.
 */
module PoolFairness {
  import opened Bytes
  import opened Pool

  /** `m` is the remainder of `x` by `n`, told by a quotient. */
  lemma Remainder(x: int, q: int, n: int, m: int)
    requires 0 <= m < n && x == q * n + m
    ensures x % n == m
  {
    var d := x / n - q;
    assert x == (x / n) * n + x % n;
    assert (x / n) * n - q * n == d * n by { Spread(x / n, q, n); }
    assert d * n == m - x % n;
    if d >= 1 {
      ProductAtLeast(d, n);
    } else if d <= -1 {
      ProductAtLeast(-d, n);
    }
  }

  lemma Spread(a: int, b: int, n: int)
    ensures (a - b) * n == a * n - b * n
  {
  }

  lemma ProductAtLeast(d: int, n: int)
    requires d >= 1 && n > 0
    ensures d * n >= n
  {
  }

  /** A later place of a scan without the counter's wrap, `k` looks after one at `p`. */
  lemma Onward(x: nat, k: nat, n: nat)
    requires 0 < n && k < n
    ensures (x + k) % n == if x % n + k < n then x % n + k else x % n + k - n
  {
    var q, p := x / n, x % n;
    assert x == q * n + p;
    if p + k < n {
      Remainder(x + k, q, n, p + k);
    } else {
      assert (q + 1) * n == q * n + n;
      Remainder(x + k, q + 1, n, p + k - n);
    }
  }

  /** Wrapping changes no place when the pool's size divides 2^64. */
  lemma WrapHarmless(x: nat, n: nat)
    requires 0 < n && WRAP % n == 0
    ensures x % WRAP % n == x % n
  {
    var a, b := x / WRAP, WRAP / n;
    assert WRAP == b * n;
    var y := x % WRAP;
    assert x == a * (b * n) + y;
    assert y == (y / n) * n + y % n;
    assert a * (b * n) == (a * b) * n by { Assoc(a, b, n); }
    assert (a * b) * n + (y / n) * n == (a * b + y / n) * n by { Spread(a * b + y / n, y / n, n); }
    Remainder(x, a * b + y / n, n, y % n);
  }

  lemma Assoc(a: int, b: int, c: int)
    ensures a * (b * c) == (a * b) * c
  {
  }

  // ----- a single scan ------------------------------------------------------------

  /** The scan from `start` looks at every member of a pool of `n`. */
  ghost predicate Covers(start: u64, n: nat)
    requires 0 < n
  {
    forall j :: 0 <= j < n ==> Looks(start, n, j)
  }

  ghost predicate Looks(start: u64, n: nat, j: nat)
    requires 0 < n
  {
    exists i :: 0 <= i < n && Place(start, i, n) == j
  }

  /** The counter does not wrap within `looks` looks, or its wrap is harmless. */
  predicate Steady(start: nat, looks: nat, n: nat)
    requires 0 < n
  {
    start + looks <= WRAP || WRAP % n == 0
  }

  lemma SteadyPlace(start: u64, i: nat, n: nat)
    requires i < n && Steady(start, n, n)
    ensures Place(start, i, n) == (start + i) % n
  {
    if WRAP % n == 0 {
      WrapHarmless(start + i, n);
    }
  }

  lemma SteadyCovers(start: u64, n: nat)
    requires 0 < n && Steady(start, n, n)
    ensures Covers(start, n)
  {
    forall j | 0 <= j < n
      ensures Looks(start, n, j)
    {
      var p := start % n;
      var i := if j >= p then j - p else j - p + n;
      Onward(start, i, n);
      SteadyPlace(start, i, n);
      assert Place(start, i, n) == j;
    }
  }

  /** The place of a look before the wrap, counted back from 2^64. */
  lemma BeforeWrap(n: nat, back: nat)
    requires 0 < back <= n <= WRAP
    ensures (WRAP - back) % n == if WRAP % n >= back then WRAP % n - back else WRAP % n + n - back
  {
    var q, r := WRAP / n, WRAP % n;
    assert WRAP == q * n + r;
    if r >= back {
      Remainder(WRAP - back, q, n, r - back);
    } else {
      assert (q - 1) * n == q * n - n;
      Remainder(WRAP - back, q - 1, n, r + n - back);
    }
  }

  /** A scan that wraps in a pool whose size does not divide 2^64 misses a member. */
  lemma UnsteadyMisses(start: u64, n: nat) returns (j: nat)
    requires 0 < n <= WRAP && !Steady(start, n, n)
    ensures j < n && !Looks(start, n, j)
  {
    var before, r := WRAP - start, WRAP % n;
    j := if r >= before then n - 1 else r + n - before - 1;
    forall i | 0 <= i < n
      ensures Place(start, i, n) != j
    {
      if i < before {
        assert start + i == WRAP - (before - i);
        BeforeWrap(n, before - i);
      } else {
        assert (start + i) % WRAP == i - before;
        Remainder(i - before, 0, n, i - before);
      }
    }
  }

  lemma {:induction false} PickFromNone(h: seq<bool>, start: u64, i: nat)
    requires i <= |h|
    ensures PickFrom(h, start, i) == None <==> forall k :: i <= k < |h| ==> !h[Place(start, k, |h|)]
    decreases |h| - i
  {
    if i < |h| {
      PickFromNone(h, start, i + 1);
    }
  }

  /**
   A pick finds a healthy member whenever there is one, in a pool of `n`
   members and whatever their health, exactly if the counter does not wrap
   during the scan or `n` divides 2^64.
   */
  lemma PickMissesNobody(start: u64, n: nat)
    requires 0 < n <= WRAP
    ensures Steady(start, n, n) <==>
      forall h: seq<bool> :: |h| == n ==> (PickFrom(h, start, 0) == None <==> forall j :: 0 <= j < n ==> !h[j])
  {
    if Steady(start, n, n) {
      SteadyCovers(start, n);
      forall h: seq<bool> | |h| == n
        ensures PickFrom(h, start, 0) == None <==> forall j :: 0 <= j < n ==> !h[j]
      {
        PickFromNone(h, start, 0);
        if PickFrom(h, start, 0) == None {
          forall j | 0 <= j < n ensures !h[j] {
            assert Looks(start, n, j);
            var i :| 0 <= i < n && Place(start, i, n) == j;
          }
        }
      }
    } else {
      var j := UnsteadyMisses(start, n);
      var h := seq(n, k => k == j);
      PickFromNone(h, start, 0);
      forall k | 0 <= k < n ensures !h[Place(start, k, n)] {
        assert Place(start, k, n) != j;
      }
      assert h[j];
    }
  }

  // ----- n picks in a row -----------------------------------------------------------

  /** Looking from position `x`, counted without wrap, finds member `j` first. */
  predicate Hits(h: seq<bool>, x: nat, j: nat)
    requires |h| > 0
  {
    HitsFrom(h, x, 0, j)
  }

  predicate HitsFrom(h: seq<bool>, x: nat, i: nat, j: nat)
    requires |h| > 0 && i <= |h|
    decreases |h| - i
  {
    i < |h| && if h[(x + i) % |h|] then (x + i) % |h| == j else HitsFrom(h, x, i + 1, j)
  }

  /** How many of the `k` positions from `x` on hit `j`. */
  function HitCount(h: seq<bool>, x: nat, k: nat, j: nat): nat
    requires |h| > 0
  {
    if k == 0 then 0 else HitCount(h, x, k - 1, j) + (if Hits(h, x + k - 1, j) then 1 else 0)
  }

  predicate HealthyAt(h: seq<bool>, x: nat)
    requires |h| > 0
  {
    h[x % |h|]
  }

  /** How many members just before position `x` are unhealthy, in a row, up to `most`. */
  function UnhealthyBefore(h: seq<bool>, x: nat, most: nat): (u: nat)
    requires |h| > 0 && most <= x
    ensures u <= most
  {
    if most == 0 || HealthyAt(h, x - 1) then 0 else 1 + UnhealthyBefore(h, x - 1, most - 1)
  }

  /** Those are unhealthy, and the one before them is not, unless there are `most` of them. */
  lemma {:induction false} BeforeAreUnhealthy(h: seq<bool>, x: nat, most: nat)
    requires |h| > 0 && most <= x
    ensures var u := UnhealthyBefore(h, x, most);
      (forall q: nat :: x - u <= q < x ==> !HealthyAt(h, q)) && (u < most ==> HealthyAt(h, x - u - 1))
  {
    if most > 0 && !HealthyAt(h, x - 1) {
      BeforeAreUnhealthy(h, x - 1, most - 1);
    }
  }

  /** A healthy member at position `y` is hit from an earlier position exactly if those between are unhealthy. */
  lemma {:induction false} HitFromBefore(h: seq<bool>, x: nat, y: nat, i: nat)
    requires |h| > 0 && x + i <= y < x + |h| && HealthyAt(h, y)
    ensures HitsFrom(h, x, i, y % |h|) <==> forall q: nat :: x + i <= q < y ==> !HealthyAt(h, q)
    decreases y - (x + i)
  {
    if x + i < y {
      if HealthyAt(h, x + i) {
        DifferentPlaces(x + i, y - (x + i), |h|);
      } else {
        HitFromBefore(h, x, y, i + 1);
      }
    }
  }

  lemma DifferentPlaces(x: nat, k: nat, n: nat)
    requires 0 < k < n
    ensures (x + k) % n != x % n
  {
    Onward(x, k, n);
  }

  /** Of the `n` positions up to `y`, those that hit its member are the last `u + 1`. */
  lemma {:induction false} CountUpTo(h: seq<bool>, y: nat, k: nat)
    requires |h| > 0 && k <= |h| && |h| - 1 <= y && HealthyAt(h, y)
    ensures var u := UnhealthyBefore(h, y, |h| - 1);
      HitCount(h, y - (|h| - 1), k, y % |h|) == if k + u + 1 <= |h| then 0 else k + u + 1 - |h|
  {
    if k > 0 {
      var u := UnhealthyBefore(h, y, |h| - 1);
      var x := y - (|h| - 1) + k - 1;
      CountUpTo(h, y, k - 1);
      HitFromBefore(h, x, y, 0);
      BeforeAreUnhealthy(h, y, |h| - 1);
      assert Hits(h, x, y % |h|) <==> x >= y - u;
    }
  }

  lemma {:induction false} HitsPeriodic(h: seq<bool>, x: nat, i: nat, j: nat)
    requires |h| > 0 && i <= |h|
    ensures HitsFrom(h, x + |h|, i, j) == HitsFrom(h, x, i, j)
    decreases |h| - i
  {
    if i < |h| {
      AddPeriod(x + i, |h|);
      HitsPeriodic(h, x, i + 1, j);
    }
  }

  lemma AddPeriod(x: nat, n: nat)
    requires 0 < n
    ensures (x + n) % n == x % n
  {
    var q := x / n;
    assert x == q * n + x % n;
    assert (q + 1) * n == q * n + n;
    Remainder(x + n, q + 1, n, x % n);
  }

  lemma {:induction false} CountTail(h: seq<bool>, x: nat, k: nat, j: nat)
    requires |h| > 0
    ensures HitCount(h, x, k + 1, j) == (if Hits(h, x, j) then 1 else 0) + HitCount(h, x + 1, k, j)
  {
    if k > 0 {
      CountTail(h, x, k - 1, j);
    }
  }

  /** A whole turn around the pool counts the same wherever it starts. */
  lemma {:induction false} WholeTurn(h: seq<bool>, x: nat, j: nat)
    requires |h| > 0
    ensures HitCount(h, x, |h|, j) == HitCount(h, 0, |h|, j)
  {
    if x > 0 {
      CountTail(h, x - 1, |h| - 1, j);
      CountTail(h, x - 1, |h|, j);
      HitsPeriodic(h, x - 1, 0, j);
      WholeTurn(h, x - 1, j);
    }
  }

  /** The counter after `k` picks. */
  function CounterAfter(start: u64, n: nat, k: nat): u64 {
    if k == 0 then start else Advanced(CounterAfter(start, n, k - 1), n)
  }

  lemma {:induction false} CounterIs(start: u64, n: nat, k: nat)
    requires n > 0
    ensures CounterAfter(start, n, k) == (start + k) % WRAP
  {
    if k > 0 {
      CounterIs(start, n, k - 1);
      Onward(start + k - 1, 1, WRAP);
      Onward((start + k - 1) % WRAP, 1, WRAP);
    }
  }

  /** How many of `k` picks in a row, the first at `start`, choose member `j`. */
  function Chosen(h: seq<bool>, start: u64, k: nat, j: nat): nat {
    if k == 0 then 0
    else Chosen(h, start, k - 1, j) + (if PickFrom(h, CounterAfter(start, |h|, k - 1), 0) == Some(j) then 1 else 0)
  }

  lemma {:induction false} PickIsHit(h: seq<bool>, start: u64, i: nat, j: nat)
    requires |h| > 0 && i <= |h| && Steady(start, |h|, |h|)
    ensures PickFrom(h, start, i) == Some(j) <==> HitsFrom(h, start, i, j)
    decreases |h| - i
  {
    if i < |h| {
      SteadyPlace(start, i, |h|);
      PickIsHit(h, start, i + 1, j);
    }
  }

  lemma {:induction false} ModSame(h: seq<bool>, x: nat, x': nat, i: nat, j: nat)
    requires |h| > 0 && i <= |h| && x % |h| == x' % |h|
    ensures HitsFrom(h, x, i, j) == HitsFrom(h, x', i, j)
    decreases |h| - i
  {
    if i < |h| {
      Onward(x, i, |h|);
      Onward(x', i, |h|);
      ModSame(h, x, x', i + 1, j);
    }
  }

  /** One of the picks, the counter at `x` if it did not wrap. */
  lemma WrappedPickIsHit(h: seq<bool>, x: nat, j: nat)
    requires |h| > 0 && (x + |h| <= WRAP || WRAP % |h| == 0)
    ensures PickFrom(h, x % WRAP, 0) == Some(j) <==> Hits(h, x, j)
  {
    if WRAP % |h| == 0 {
      WrapHarmless(x, |h|);
      ModSame(h, x % WRAP, x, 0, j);
    } else {
      Remainder(x, 0, WRAP, x);
    }
    PickIsHit(h, x % WRAP, 0, j);
  }

  lemma {:induction false} ChosenIsHitCount(h: seq<bool>, start: u64, k: nat, j: nat)
    requires |h| > 0 && k <= |h| && Steady(start, 2 * |h|, |h|)
    ensures Chosen(h, start, k, j) == HitCount(h, start, k, j)
  {
    if k > 0 {
      ChosenIsHitCount(h, start, k - 1, j);
      CounterIs(start, |h|, k - 1);
      WrappedPickIsHit(h, start + k - 1, j);
    }
  }

  /**
   Fairness: of as many picks as there are members, each healthy member gets
   one for itself and one for every unhealthy member just before it in the
   ring. So shares are equal exactly when the gaps between healthy members are.
   */
  lemma RoundRobinShare(h: seq<bool>, start: u64, j: nat)
    requires j < |h| && h[j] && Steady(start, 2 * |h|, |h|)
    ensures Chosen(h, start, |h|, j) == 1 + UnhealthyBefore(h, j + |h|, |h| - 1)
  {
    ChosenIsHitCount(h, start, |h|, j);
    WholeTurn(h, start, j);
    WholeTurn(h, j + 1, j);
    TurnBefore(h, j);
  }

  /** The turn that ends at member `j`. */
  lemma TurnBefore(h: seq<bool>, j: nat)
    requires j < |h| && h[j]
    ensures HitCount(h, j + 1, |h|, j) == 1 + UnhealthyBefore(h, j + |h|, |h| - 1)
  {
    var y := j + |h|;
    assert y % |h| == j by {
      Remainder(y, 1, |h|, j);
    }
    assert y - (|h| - 1) == j + 1;
    CountUpTo(h, y, |h|);
  }

  /** With every member healthy each is picked exactly once. */
  lemma AllHealthyOnceEach(h: seq<bool>, start: u64, j: nat)
    requires j < |h| && (forall k :: 0 <= k < |h| ==> h[k]) && Steady(start, 2 * |h|, |h|)
    ensures Chosen(h, start, |h|, j) == 1
  {
    RoundRobinShare(h, start, j);
    assert |h| > 1 ==> HealthyAt(h, j + |h| - 1);
  }
}
