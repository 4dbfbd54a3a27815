/**
 A pool of src/pool.rs under changes of its member list and the probes of
 src/health.rs, in any interleaving: a probe holds the member it was begun for,
 which may have left the pool, or been followed by another of the same address,
 by the time the answer is written. The health loop's copy of the member list
 is a probe begun for each member, however late it gets to it.

 `Moment` is what there is between two events; a member is known by its object.
 `Interleave` runs any events on a real pool and its objects; the properties
 are proved of every trace.
 */
module PoolProbes {
  import opened Bytes
  import opened Pool

  /** A list is applied; a probe of member `k` is begun; probe `j` of those begun is answered. */
  datatype Event = Apply(addrs: seq<SocketAddr>) | Begin(k: nat) | Answer(j: nat, ok: bool)

  /** `probes` are the members that probes were begun for, `health` the flag of every object so far. */
  datatype Moment = Moment(members: seq<Backend>, probes: seq<Backend>, health: map<Backend, bool>)

  ghost predicate Step(m: Moment, e: Event, m': Moment) {
    match e
    case Apply(addrs) => Applied(m, addrs, m')
    case Begin(k) => m' == if k < |m.members| then m.(probes := m.probes + [m.members[k]]) else m
    case Answer(j, ok) => m' == if j < |m.probes| then m.(health := m.health[m.probes[j] := ok]) else m
  }

  /** A member whose address was there is the same object, every other is a new one, unhealthy. */
  ghost predicate Applied(m: Moment, addrs: seq<SocketAddr>, m': Moment) {
    && Addrs(m'.members) == Dedup(addrs) && m'.probes == m.probes
    && (forall b :: b in m'.members ==> if b.addr in Addrs(m.members) then b in m.members else b !in m.health)
    && m'.health.Keys == m.health.Keys + (set b | b in m'.members)
    && (forall b :: b in m'.health ==> m'.health[b] == (b in m.health && m.health[b]))
  }

  /** A pool with no probe begun. */
  ghost predicate AtRest(m: Moment) {
    && Distinct(Addrs(m.members)) && m.probes == []
    && forall b :: b in m.members ==> b in m.health
  }

  ghost predicate StepAt(events: seq<Event>, trace: seq<Moment>, n: nat)
    requires n < |events| && n + 1 < |trace|
  {
    Step(trace[n], events[n], trace[n + 1])
  }

  ghost predicate IsTrace(events: seq<Event>, trace: seq<Moment>) {
    && |trace| == |events| + 1 && AtRest(trace[0])
    && forall n: nat :: n < |events| ==> StepAt(events, trace, n)
  }

  // ----- the objects ------------------------------------------------------------

  /** The moment is how things are. */
  ghost predicate IsNow(m: Moment, pool: Pool, probes: seq<Backend>)
    reads pool, m.health.Keys
  {
    && m.members == pool.backends && m.probes == probes
    && (forall b :: b in pool.backends ==> b in m.health)
    && (forall b :: b in probes ==> b in m.health)
    && (forall b :: b in m.health ==> m.health[b] == b.healthy)
  }

  method SetMembers(pool: Pool, addrs: seq<SocketAddr>, ghost m: Moment) returns (ghost m': Moment)
    requires pool.Valid() && IsNow(m, pool, m.probes)
    modifies pool`backends
    ensures pool.Valid() && Applied(m, addrs, m') && IsNow(m', pool, m.probes)
    ensures forall b :: b in m'.health ==> b in m.health || fresh(b)
  {
    pool.SetAddrs(addrs);
    m' := Moment(pool.backends, m.probes, map b | b in m.health.Keys + (set c | c in pool.backends) :: b.healthy);
    forall b | b in m'.members
      ensures if b.addr in Addrs(m.members) then b in m.members else b !in m.health
    {
      var k :| 0 <= k < |pool.backends| && pool.backends[k] == b;
    }
  }

  /** One event, and the moment after it. */
  method Happen(pool: Pool, probes: seq<Backend>, e: Event, ghost m: Moment)
    returns (probes': seq<Backend>, ghost m': Moment)
    requires pool.Valid() && IsNow(m, pool, probes)
    modifies pool`backends, m.health.Keys
    ensures pool.Valid() && Step(m, e, m') && IsNow(m', pool, probes')
    ensures forall b :: b in m'.health ==> b in m.health || fresh(b)
  {
    probes', m' := probes, m;
    match e {
      case Apply(addrs) => m' := SetMembers(pool, addrs, m);
      case Begin(k) =>
        if k < |pool.backends| {
          probes' := probes + [pool.backends[k]];
          m' := m.(probes := probes');
        }
      case Answer(j, ok) =>
        if j < |probes| {
          probes[j].SetHealthy(ok);
          m' := m.(health := m.health[probes[j] := ok]);
        }
    }
  }

  lemma StepAdded(events: seq<Event>, trace: seq<Moment>, m': Moment)
    requires 0 < |trace| <= |events| && Step(trace[|trace| - 1], events[|trace| - 1], m')
    requires forall n: nat :: n < |trace| - 1 ==> StepAt(events, trace, n)
    ensures forall n: nat :: n < |trace| ==> StepAt(events, trace + [m'], n)
  {
    forall n: nat | n < |trace|
      ensures StepAt(events, trace + [m'], n)
    {
      if n < |trace| - 1 {
        assert StepAt(events, trace, n);
      }
    }
  }

  /** Any events, on a pool that no probe was begun for; `trace` is what it goes through. */
  method Interleave(pool: Pool, events: seq<Event>) returns (probes: seq<Backend>, ghost trace: seq<Moment>)
    requires pool.Valid()
    modifies pool`backends, pool.backends
    ensures IsTrace(events, trace) && IsNow(trace[|events|], pool, probes)
    ensures trace[0] == Moment(old(pool.backends), [], map b | b in old(pool.backends) :: old(b.healthy))
  {
    probes := [];
    trace := [Moment(pool.backends, [], map b | b in pool.backends :: b.healthy)];
    for i := 0 to |events|
      invariant |trace| == i + 1
      invariant trace[0] == Moment(old(pool.backends), [], map b | b in old(pool.backends) :: old(b.healthy))
      invariant pool.Valid() && IsNow(trace[i], pool, probes)
      invariant forall b :: b in trace[i].health ==> b in old(pool.backends) || fresh(b)
      invariant forall n: nat :: n < i ==> StepAt(events, trace, n)
    {
      ghost var m';
      probes, m' := Happen(pool, probes, events[i], trace[i]);
      StepAdded(events, trace, m');
      trace := trace + [m'];
    }
  }

  // ----- what every trace keeps -------------------------------------------------------

  /** Members are distinct, and every object that is held is accounted for. */
  ghost predicate Kept(m: Moment) {
    && Distinct(Addrs(m.members))
    && (forall b :: b in m.members ==> b in m.health)
    && (forall b :: b in m.probes ==> b in m.health)
  }

  lemma StepKeeps(m: Moment, e: Event, m': Moment)
    requires Kept(m) && Step(m, e, m')
    ensures Kept(m') && m.health.Keys <= m'.health.Keys
  {
    if e.Apply? {
      DedupOrder(e.addrs);
    }
  }

  lemma {:induction false} TraceKeeps(events: seq<Event>, trace: seq<Moment>, n: nat)
    requires IsTrace(events, trace) && n <= |events|
    ensures Kept(trace[n])
  {
    if n > 0 {
      TraceKeeps(events, trace, n - 1);
      assert StepAt(events, trace, n - 1);
      StepKeeps(trace[n - 1], events[n - 1], trace[n]);
    }
  }

  lemma {:induction false} KnownStays(events: seq<Event>, trace: seq<Moment>, n: nat, n': nat, b: Backend)
    requires IsTrace(events, trace) && n <= n' <= |events| && b in trace[n].health
    ensures b in trace[n'].health
    decreases n'
  {
    if n < n' {
      KnownStays(events, trace, n, n' - 1, b);
      TraceKeeps(events, trace, n' - 1);
      assert StepAt(events, trace, n' - 1);
      StepKeeps(trace[n' - 1], events[n' - 1], trace[n']);
    }
  }

  /**
   Applying a list: the members are its addresses in the order of their first
   occurrence, one whose address stays is the same object, and nobody's health
   changes; whoever is new is unhealthy.
   */
  lemma ApplyKeepsObjects(events: seq<Event>, trace: seq<Moment>, n: nat)
    requires IsTrace(events, trace) && n < |events| && events[n].Apply?
    ensures var m, m', addrs := trace[n], trace[n + 1], events[n].addrs;
      && Distinct(Addrs(m'.members)) && InFirstOrder(Addrs(m'.members), addrs)
      && (forall a :: a in Addrs(m'.members) <==> a in addrs)
      && (forall b :: b in m.members ==> (b in m'.members <==> b.addr in addrs))
      && (forall b :: b in m.health ==> b in m'.health && m'.health[b] == m.health[b])
      && (forall b :: b in m'.members && b !in m.members ==> b !in m.health && b in m'.health && !m'.health[b])
  {
    TraceKeeps(events, trace, n);
    assert StepAt(events, trace, n);
    DedupOrder(events[n].addrs);
    var m, m', addrs := trace[n], trace[n + 1], events[n].addrs;
    forall b | b in m.members
      ensures b in m'.members <==> b.addr in addrs
    {
      SameObject(m, addrs, m', b);
    }
    forall b | b in m'.members && b !in m.members
      ensures b !in m.health && b in m'.health && !m'.health[b]
    {
    }
  }

  lemma SameObject(m: Moment, addrs: seq<SocketAddr>, m': Moment, b: Backend)
    requires Kept(m) && Applied(m, addrs, m') && b in m.members
    ensures b in m'.members <==> b.addr in addrs
  {
    var i :| 0 <= i < |m.members| && m.members[i] == b;
    assert Addrs(m.members)[i] == b.addr;
    if b in m'.members {
      var k :| 0 <= k < |m'.members| && m'.members[k] == b;
      assert Addrs(m'.members)[k] == b.addr;
    }
    if b.addr in addrs {
      assert b.addr in Addrs(m'.members);
      var k :| 0 <= k < |m'.members| && Addrs(m'.members)[k] == b.addr;
      var c := m'.members[k];
      assert c in m'.members && c.addr in Addrs(m.members);
      var j :| 0 <= j < |m.members| && m.members[j] == c;
      assert Addrs(m.members)[j] == Addrs(m.members)[i];
    }
  }

  // ----- whose health a probe changes -----------------------------------------------------

  /** An object that has left the pool never comes back, though its address may. */
  lemma {:induction false} GoneForGood(events: seq<Event>, trace: seq<Moment>, n: nat, n': nat, b: Backend)
    requires IsTrace(events, trace) && n <= n' <= |events|
    requires b in trace[n].health && b !in trace[n].members
    ensures b !in trace[n'].members
    decreases n'
  {
    if n < n' {
      GoneForGood(events, trace, n, n' - 1, b);
      KnownStays(events, trace, n, n' - 1, b);
      assert StepAt(events, trace, n' - 1);
    }
  }

  /** Event `n` begins a probe of `b`, then a member. */
  predicate BeginsProbe(events: seq<Event>, trace: seq<Moment>, n: nat, b: Backend) {
    && n < |events| && n < |trace| && events[n].Begin?
    && events[n].k < |trace[n].members| && trace[n].members[events[n].k] == b
  }

  /** Every probe was begun for a member. */
  lemma {:induction false} ProbeBegun(events: seq<Event>, trace: seq<Moment>, n: nat, j: nat)
    requires IsTrace(events, trace) && n <= |events| && j < |trace[n].probes|
    ensures exists i: nat :: i < n && BeginsProbe(events, trace, i, trace[n].probes[j])
  {
    if n > 0 {
      assert StepAt(events, trace, n - 1);
      if j < |trace[n - 1].probes| {
        ProbeBegun(events, trace, n - 1, j);
        var i: nat :| i < n - 1 && BeginsProbe(events, trace, i, trace[n - 1].probes[j]);
        assert BeginsProbe(events, trace, i, trace[n].probes[j]);
      } else {
        assert BeginsProbe(events, trace, n - 1, trace[n].probes[j]);
      }
    }
  }

  /** Event `n` is an answer to a probe of `b`. */
  predicate Answers(events: seq<Event>, trace: seq<Moment>, n: nat, b: Backend) {
    && n < |events| && n < |trace| && events[n].Answer?
    && events[n].j < |trace[n].probes| && trace[n].probes[events[n].j] == b
  }

  /** The last answer to a probe of `b` before moment `n`. */
  function LastAnswer(events: seq<Event>, trace: seq<Moment>, n: nat, b: Backend): Option<bool>
    requires n <= |events|
  {
    if n == 0 then None
    else if Answers(events, trace, n - 1, b) then Some(events[n - 1].ok)
    else LastAnswer(events, trace, n - 1, b)
  }

  /**
   Health, exactly: whatever else happened, an object's health is the last
   answer to a probe of that very object, each begun while it was a member;
   without one it is what it was at the start, and unhealthy for one added
   since.
   */
  lemma {:induction false} HealthIsLastAnswer(events: seq<Event>, trace: seq<Moment>, n: nat, b: Backend)
    requires IsTrace(events, trace) && n <= |events| && b in trace[n].health
    ensures trace[n].health[b] ==
      match LastAnswer(events, trace, n, b)
      case Some(ok) => ok
      case None => b in trace[0].health && trace[0].health[b]
    ensures LastAnswer(events, trace, n, b).Some? ==> exists i: nat :: i < n && BeginsProbe(events, trace, i, b)
  {
    if n > 0 {
      assert StepAt(events, trace, n - 1);
      TraceKeeps(events, trace, n - 1);
      if Answers(events, trace, n - 1, b) {
        ProbeBegun(events, trace, n - 1, events[n - 1].j);
        var i: nat :| i < n - 1 && BeginsProbe(events, trace, i, b);
      } else if b in trace[n - 1].health {
        HealthIsLastAnswer(events, trace, n - 1, b);
        if LastAnswer(events, trace, n - 1, b).Some? {
          var i: nat :| i < n - 1 && BeginsProbe(events, trace, i, b);
        }
      } else {
        NoAnswerYet(events, trace, n, b);
      }
    }
  }

  /** An object that is new has been answered for by nobody. */
  lemma {:induction false} NoAnswerYet(events: seq<Event>, trace: seq<Moment>, n: nat, b: Backend)
    requires IsTrace(events, trace) && 0 < n <= |events| && b !in trace[n - 1].health
    ensures LastAnswer(events, trace, n, b) == None && b !in trace[0].health
    decreases n
  {
    TraceKeeps(events, trace, n - 1);
    if n > 1 {
      TraceKeeps(events, trace, n - 2);
      assert StepAt(events, trace, n - 2);
      StepKeeps(trace[n - 2], events[n - 2], trace[n - 1]);
      NoAnswerYet(events, trace, n - 1, b);
    }
  }

  /**
   A late answer: a probe begun for a member that has left by moment `n` is
   answered at any later event `n'`, with anything before, between and after.
   The answer changes no member's health, whether or not the address is back.
   */
  lemma LateAnswer(events: seq<Event>, trace: seq<Moment>, i: nat, n: nat, n': nat, b: Backend)
    requires IsTrace(events, trace) && i < n <= n' < |events|
    requires BeginsProbe(events, trace, i, b) && b !in trace[n].members
    requires Answers(events, trace, n', b)
    ensures var m, m' := trace[n'], trace[n' + 1];
      && m'.members == m.members
      && forall c :: c in m.members ==> c != b && c in m.health && c in m'.health && m'.health[c] == m.health[c]
  {
    TraceKeeps(events, trace, i);
    KnownStays(events, trace, i, n, b);
    GoneForGood(events, trace, n, n', b);
    TraceKeeps(events, trace, n');
    assert StepAt(events, trace, n');
  }
}
