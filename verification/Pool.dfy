/**
 The backend pool of src/pool.rs: a member list that can be replaced at
 runtime, and a round-robin pick over its healthy members. Members are heap
 objects: a health probe holds one and writes its flag later (src/health.rs).
 */
module Pool {
  import opened Bytes

  datatype Ip = V4(v4: Ipv4) | V6(v6: nat)
  datatype SocketAddr = SocketAddr(ip: Ip, port: u16)

  class Backend {
    const addr: SocketAddr
    var healthy: bool

    constructor (addr: SocketAddr)
      ensures this.addr == addr && !healthy
    {
      this.addr := addr;
      healthy := false;
    }

    /** What a probe does with its answer. */
    method SetHealthy(v: bool)
      modifies this
      ensures healthy == v
    {
      healthy := v;
    }
  }

  // ----- membership -----------------------------------------------------------

  /** The addresses without repetitions, each where it first occurs. */
  function Dedup(addrs: seq<SocketAddr>): (d: seq<SocketAddr>)
    ensures forall a :: a in d <==> a in addrs
  {
    if |addrs| == 0 then [] else
    var d := Dedup(addrs[..|addrs| - 1]);
    var last := addrs[|addrs| - 1];
    assert addrs == addrs[..|addrs| - 1] + [last];
    if last in d then d else d + [last]
  }

  /** Where `a` first occurs. */
  function FirstAt(addrs: seq<SocketAddr>, a: SocketAddr): (i: nat)
    requires a in addrs
    ensures i < |addrs| && addrs[i] == a && a !in addrs[..i]
  {
    if addrs[0] == a then 0 else 1 + FirstAt(addrs[1..], a)
  }

  ghost predicate Distinct<T(!new)>(s: seq<T>) {
    forall i, j :: 0 <= i < j < |s| ==> s[i] != s[j]
  }

  lemma FirstAtUnique(addrs: seq<SocketAddr>, a: SocketAddr, i: nat)
    requires i < |addrs| && addrs[i] == a && a !in addrs[..i]
    ensures FirstAt(addrs, a) == i
  {
  }

  /** Where an address first occurs does not depend on what comes after. */
  lemma FirstAtStays(addrs: seq<SocketAddr>, n: nat, a: SocketAddr)
    requires n <= |addrs| && a in addrs[..n]
    ensures FirstAt(addrs, a) == FirstAt(addrs[..n], a) < n
  {
    var f := FirstAt(addrs[..n], a);
    assert addrs[..f] == addrs[..n][..f];
    FirstAtUnique(addrs, a, f);
  }

  ghost predicate InFirstOrder(d: seq<SocketAddr>, addrs: seq<SocketAddr>) {
    && (forall a :: a in d ==> a in addrs)
    && forall i, j :: 0 <= i < j < |d| ==> FirstAt(addrs, d[i]) < FirstAt(addrs, d[j])
  }

  /** No address twice, and in the order of first occurrence. */
  lemma {:induction false} DedupOrder(addrs: seq<SocketAddr>)
    ensures Distinct(Dedup(addrs)) && InFirstOrder(Dedup(addrs), addrs)
  {
    if |addrs| > 0 {
      var n := |addrs| - 1;
      var init, last := addrs[..n], addrs[n];
      DedupOrder(init);
      assert addrs == init + [last];
      forall a | a in init
        ensures FirstAt(addrs, a) == FirstAt(init, a) < n
      {
        FirstAtStays(addrs, n, a);
      }
      if last !in init {
        FirstAtUnique(addrs, last, n);
      }
    }
  }

  function Addrs(members: seq<Backend>): (s: seq<SocketAddr>)
    ensures |s| == |members|
    ensures forall k :: 0 <= k < |s| ==> s[k] == members[k].addr
  {
    seq(|members|, k requires 0 <= k < |members| => members[k].addr)
  }

  function Health(members: seq<Backend>): (h: seq<bool>)
    reads members
    ensures |h| == |members|
    ensures forall k :: 0 <= k < |h| ==> h[k] == members[k].healthy
  {
    seq(|members|, k requires 0 <= k < |members| reads members => members[k].healthy)
  }

  // ----- picking ----------------------------------------------------------------

  /** The member looked at `i` places after `start`, with the counter's wrap. */
  function Place(start: u64, i: nat, n: nat): (p: nat)
    requires 0 < n
    ensures p < n
  {
    (start + i) % WRAP % n
  }

  /** The first healthy member from the `i`th look on. */
  function PickFrom(h: seq<bool>, start: u64, i: nat): (r: Option<nat>)
    requires i <= |h|
    ensures r.Some? ==> r.value < |h| && h[r.value]
    decreases |h| - i
  {
    if i == |h| then None
    else if h[Place(start, i, |h|)] then Some(Place(start, i, |h|))
    else PickFrom(h, start, i + 1)
  }

  /** The counter after a pick from `n` members. */
  function Advanced(next: u64, n: nat): u64 {
    if n == 0 then next else (next + 1) % WRAP
  }

  class Pool {
    var backends: seq<Backend>
    var next: u64

    ghost predicate Valid()
      reads this
    {
      Distinct(Addrs(backends))
    }

    constructor (addrs: seq<SocketAddr>)
      ensures Valid() && next == 0 && Addrs(backends) == Dedup(addrs)
      ensures forall b :: b in backends ==> fresh(b) && !b.healthy
    {
      backends, next := [], 0;
      new;
      SetAddrs(addrs);
    }

    /**
     Replaces the members. One whose address was there before is the same
     object, its health untouched; every other is new and unhealthy.
     */
    method SetAddrs(addrs: seq<SocketAddr>)
      requires Valid()
      modifies this`backends
      ensures Valid() && Addrs(backends) == Dedup(addrs)
      ensures forall k :: 0 <= k < |backends| ==>
        if backends[k].addr in Addrs(old(backends))
        then backends[k] in old(backends)
        else fresh(backends[k]) && !backends[k].healthy
    {
      var cur := backends;
      var members: seq<Backend> := [];
      for i := 0 to |addrs|
        invariant Addrs(members) == Dedup(addrs[..i])
        invariant forall k :: 0 <= k < |members| ==>
          if members[k].addr in Addrs(cur) then members[k] in cur else fresh(members[k]) && !members[k].healthy
      {
        var a := addrs[i];
        assert addrs[..i + 1][..i] == addrs[..i];
        var there := Find(members, a);
        if there == None {
          var be := Find(cur, a);
          if be.Some? {
            members := members + [cur[be.value]];
          } else {
            var b := new Backend(a);
            members := members + [b];
          }
        }
      }
      assert addrs[..|addrs|] == addrs;
      DedupOrder(addrs);
      backends := members;
    }

    /** The next healthy member; the counter moves on whatever it finds, unless the pool is empty. */
    method Pick() returns (r: Option<Backend>)
      requires Valid()
      modifies this`next
      ensures next == Advanced(old(next), |backends|)
      ensures r == match PickFrom(Health(backends), old(next), 0) case None => None case Some(k) => Some(backends[k])
    {
      var n := |backends|;
      if n == 0 {
        return None;
      }
      var start := next;
      next := (next + 1) % WRAP;
      for i := 0 to n
        invariant PickFrom(Health(backends), start, 0) == PickFrom(Health(backends), start, i)
      {
        var be := backends[Place(start, i, n)];
        if be.healthy {
          return Some(be);
        }
      }
      return None;
    }

    method HealthyCount() returns (c: nat)
      ensures c == |set k | 0 <= k < |backends| && backends[k].healthy|
      ensures c > 0 <==> exists k :: 0 <= k < |backends| && backends[k].healthy
    {
      c := 0;
      for i := 0 to |backends|
        invariant c == |set k | 0 <= k < i && backends[k].healthy|
      {
        ghost var before := set k | 0 <= k < i && backends[k].healthy;
        ghost var now := set k | 0 <= k < i + 1 && backends[k].healthy;
        if backends[i].healthy {
          assert now == before + {i};
          c := c + 1;
        } else {
          assert now == before;
        }
      }
      ghost var all := set k | 0 <= k < |backends| && backends[k].healthy;
      if k :| 0 <= k < |backends| && backends[k].healthy {
        assert k in all;
      } else {
        assert all == {};
      }
    }
  }

  method Find(members: seq<Backend>, a: SocketAddr) returns (k: Option<nat>)
    ensures k == None <==> a !in Addrs(members)
    ensures k.Some? ==> k.value < |members| && members[k.value].addr == a
  {
    for i := 0 to |members|
      invariant a !in Addrs(members)[..i]
    {
      if members[i].addr == a {
        assert Addrs(members)[i] == a;
        return Some(i);
      }
    }
    return None;
  }
}
