/**
 Any number of Backups whose Master falls silent (src/vrrp.rs): the loops of
 `Election`'s nodes with the times of `VrrpTiming`, on one clock. Where one
 timer runs out far enough before all others, for the network's delay and what
 else arrives, its owner takes over alone, and the others hear it before any of
 theirs does.
 */
module VrrpTakeover {
  import opened Bytes
  import opened Vrrp
  import opened ControlLoop
  import opened VrrpTiming
  import opened Election
  import VrrpCodec

  // ----- a run cut in two ------------------------------------------------------------

  lemma {:induction false} TurnsConcat(p: Params, l: Loop, a: seq<Input>, b: seq<Input>)
    ensures Turns(p, l, a + b) == Then(Turns(p, l, a), Turns(p, Turns(p, l, a).to, b))
  {
    if |b| == 0 {
      assert a + b == a;
      assert Turns(p, l, a).acts + [] == Turns(p, l, a).acts;
    } else {
      var init, first := b[..|b| - 1], Turns(p, l, a);
      assert (a + b)[..|a + b| - 1] == a + init;
      TurnsConcat(p, l, a, init);
      var before := Turns(p, first.to, init);
      ThenAssoc(first, before, Turn(p, before.to, b[|b| - 1]));
    }
  }

  /** What is left of an idle run is an idle run. */
  lemma IdleSuffix(p: Params, l: Loop, from: Time, ins: seq<Input>, k: nat)
    requires IdleFrom(p, l, from, ins) && k <= |ins|
    ensures IdleFrom(p, Turns(p, l, ins[..k]).to, BeginsAt(from, ins, k), ins[k..])
  {
    forall j: nat | j < |ins[k..]|
      ensures IdleAt(p, Turns(p, l, ins[..k]).to, BeginsAt(from, ins, k), ins[k..], j)
    {
      assert IdleAt(p, l, from, ins, k + j);
      assert ins[..k + j] == ins[..k] + ins[k..][..j];
      TurnsConcat(p, l, ins[..k], ins[k..][..j]);
    }
  }

  // ----- a Backup that takes over ------------------------------------------------------

  /** An idle run that wakes in turn `k`, to claim, and next in its last turn, to advertise. */
  ghost predicate RunsToAdvert(n: Node, at: Time, ins: seq<Input>, k: nat) {
    && IdleFrom(n.p, n.l, at, ins) && k + 1 < |ins|
    && NoneWakes(ins, k, n.l.deadline) && Wakes(ins[k], n.l.deadline)
    && NoneWakes(ins[k + 1..], |ins| - (k + 2), ins[k].end) && Wakes(ins[|ins| - 1], ins[k].end)
  }

  /** The ignored datagrams that make it late: those after the deadline, and those after the claim in turn `k`. */
  function Delays(n: Node, ins: seq<Input>, k: nat): nat
    requires k + 1 < |ins|
  {
    Noise(ins, n.l.deadline, k) + Noise(ins[k + 1..], ins[k].end, |ins| - (k + 2))
  }

  /** `n` takes over: it claims, and its first advertisement leaves at `sent`. */
  predicate TakesOver(n: Node, ins: seq<Input>, sent: Time) {
    && |ins| > 0 && ins[|ins| - 1].end == sent
    && Turns(n.p, n.l, ins).acts == [Claim, Send(n.p.priority)]
    && Turns(n.p, n.l, ins).to.vr.state == Master
  }

  lemma ClaimsInTime(n: Node, at: Time, a: u16, ins: seq<Input>, k: nat)
    requires Restarted(n.l, at, a) && RunsToAdvert(n, at, ins, k)
    ensures var d := Turns(n.p, n.l, ins[..k + 1]);
      d.acts == [Claim] && d.to.vr.state == Master && d.to.outcome == Running && d.to.nextAdvert == ins[k].end
    ensures n.l.deadline <= ins[k].end < n.l.deadline + 10 * (Noise(ins, n.l.deadline, k) + 1)
  {
    SkewBound(n.l.vr);
    FirstWakeIs(ins, k, n.l.deadline);
    ActsWhenWoken(n.p, n.l, at, ins);
    ActsInTime(n.p, n.l, at, ins);
  }

  lemma TurnsCut(p: Params, l: Loop, ins: seq<Input>, k: nat)
    requires k <= |ins|
    ensures Turns(p, l, ins) == Then(Turns(p, l, ins[..k]), Turns(p, Turns(p, l, ins[..k]).to, ins[k..]))
  {
    assert ins[..k] + ins[k..] == ins;
    TurnsConcat(p, l, ins[..k], ins[k..]);
  }

  lemma RestAdvertises(n: Node, at: Time, ins: seq<Input>, k: nat)
    requires RunsToAdvert(n, at, ins, k)
    requires var l := Turns(n.p, n.l, ins[..k + 1]).to;
      l.outcome == Running && l.vr.state == Master && l.nextAdvert == ins[k].end
    ensures var d := Turns(n.p, Turns(n.p, n.l, ins[..k + 1]).to, ins[k + 1..]);
      d.acts == [Send(n.p.priority)] && d.to.vr.state == Master
    ensures var late := Noise(ins[k + 1..], ins[k].end, |ins| - (k + 2));
      ins[k].end <= ins[|ins| - 1].end <= ins[k].end + 10 * (late + 1)
  {
    var rest := ins[k + 1..];
    IdleSuffix(n.p, n.l, at, ins, k + 1);
    FirstWakeIs(rest, |rest| - 1, ins[k].end);
    NewMasterAdvertises(n.p, Turns(n.p, n.l, ins[..k + 1]).to, ins[k].end, rest);
  }

  lemma Joined(n: Node, ins: seq<Input>, k: nat)
    requires 0 < k <= |ins| && Turns(n.p, n.l, ins[..k]).acts == [Claim]
    requires var d := Turns(n.p, Turns(n.p, n.l, ins[..k]).to, ins[k..]);
      d.acts == [Send(n.p.priority)] && d.to.vr.state == Master
    ensures TakesOver(n, ins, ins[|ins| - 1].end)
  {
    TurnsCut(n.p, n.l, ins, k);
  }

  /** It advertises at most 20 ms after its deadline, and 10 ms for each such datagram. */
  lemma AdvertisesInTime(n: Node, at: Time, a: u16, ins: seq<Input>, k: nat)
    requires Restarted(n.l, at, a) && RunsToAdvert(n, at, ins, k)
    ensures var sent := ins[|ins| - 1].end;
      TakesOver(n, ins, sent) && n.l.deadline <= sent < n.l.deadline + 10 * (Delays(n, ins, k) + 2)
  {
    ClaimsInTime(n, at, a, ins, k);
    RestAdvertises(n, at, ins, k);
    Joined(n, ins, k + 1);
  }

  lemma NewMasterAdvertises(p: Params, l: Loop, from: Time, ins: seq<Input>)
    requires l.outcome == Running && l.vr.state == Master && l.nextAdvert == from && IdleFrom(p, l, from, ins)
    requires |ins| > 0 && FirstWake(ins, from) == |ins| - 1
    ensures var d := Turns(p, l, ins);
      && d.acts == [Send(p.priority)] && d.to.vr.state == Master
      && from <= ins[|ins| - 1].end <= from + 10 * (Noise(ins, from, |ins| - 1) + 1)
  {
    ActsWhenWoken(p, l, from, ins);
    ActsInTime(p, l, from, ins);
    assert ins[..|ins| - 1 + 1] == ins;
  }

  // ----- a Backup that hears it ----------------------------------------------------------

  /** Nothing to heed arrives but, at the end of the last turn and between `sent` and `late`, the packet. */
  ghost predicate HearsOnly(n: Node, at: Time, ins: seq<Input>, pkt: Packet, sent: Time, late: Time) {
    |ins| > 0 &&
    var init, last := ins[..|ins| - 1], ins[|ins| - 1];
    && IdleFrom(n.p, n.l, at, init)
    && !last.stop && last.recv.Datagram? && Carries(last.recv.bytes, pkt)
    && last.begin == EndsAt(at, init) && last.begin <= last.end && sent <= last.end <= late
  }

  lemma {:induction false} IdleRises(p: Params, l: Loop, from: Time, ins: seq<Input>, j: nat, k: nat)
    requires IdleFrom(p, l, from, ins) && j <= k < |ins|
    ensures ins[j].end <= ins[k].end
  {
    if j < k {
      IdleRises(p, l, from, ins, j, k - 1);
      assert IdleAt(p, l, from, ins, k);
      IdleTurnEnds(p, Turns(p, l, ins[..k]).to, ins[k]);
    }
  }

  lemma NoneWakesBefore(p: Params, l: Loop, from: Time, ins: seq<Input>, t: Time)
    requires IdleFrom(p, l, from, ins) && EndsAt(from, ins) < t
    ensures NoneWakes(ins, |ins|, t)
  {
    forall j | 0 <= j < |ins|
      ensures !Wakes(ins[j], t)
    {
      IdleRises(p, l, from, ins, j, |ins| - 1);
    }
  }

  /** What ends before the deadline is waited through. */
  lemma WaitsThrough(n: Node, at: Time, a: u16, ins: seq<Input>)
    requires Restarted(n.l, at, a) && IdleFrom(n.p, n.l, at, ins) && EndsAt(at, ins) < n.l.deadline
    ensures Waits(n.l, Turns(n.p, n.l, ins))
  {
    NoneWakesBefore(n.p, n.l, at, ins, n.l.deadline);
    WaitsUntilWoken(n.p, n.l, at, ins, |ins|);
    assert ins[..|ins|] == ins;
  }

  /** What a Backup hears as the new Master's advertisement. */
  lemma HearsNewMaster(p: Params, n: Node, bytes: seq<byte>)
    requires n.p.vrid == p.vrid && n.p.us != p.us && Follows(n.l.vr, p.priority)
    requires Carries(bytes, Packet(p.us, Wire(p, p.priority)))
    ensures MasterAdvert(n.p, n.l, bytes, IntervalCentis(p.secs))
  {
    var h: seq<byte> :| VrrpCodec.IpHeader(h, p.us) && bytes == h + Wire(p, p.priority);
    WireParses(h, p, p.priority);
  }

  /** It only restarts the timer. */
  lemma YieldsTurn(p: Params, n: Node, at: Time, a: u16, d: Did, i: Input)
    requires n.p.vrid == p.vrid && n.p.us != p.us && Follows(n.l.vr, p.priority)
    requires Restarted(n.l, at, a) && Waits(n.l, d)
    requires !i.stop && i.recv.Datagram? && Carries(i.recv.bytes, Packet(p.us, Wire(p, p.priority)))
    ensures Turn(n.p, d.to, i).acts == [] && Restarted(Turn(n.p, d.to, i).to, i.end, IntervalCentis(p.secs))
  {
    HearsNewMaster(p, Node(n.p, d.to), i.recv.bytes);
    HeardRestarts(n.p, d.to, i, IntervalCentis(p.secs));
  }

  /** The timer was last restarted by the advertisement heard in the last turn, and nothing else was done. */
  predicate Yields(n: Node, ins: seq<Input>, interval: u16) {
    && |ins| > 0
    && Turns(n.p, n.l, ins).acts == []
    && Restarted(Turns(n.p, n.l, ins).to, ins[|ins| - 1].end, interval)
  }

  lemma HearerYields(p: Params, n: Node, at: Time, a: u16, ins: seq<Input>, sent: Time, late: Time)
    requires n.p.vrid == p.vrid && n.p.us != p.us && Follows(n.l.vr, p.priority)
    requires Restarted(n.l, at, a) && late < n.l.deadline
    requires HearsOnly(n, at, ins, Packet(p.us, Wire(p, p.priority)), sent, late)
    ensures Yields(n, ins, IntervalCentis(p.secs))
  {
    var k := |ins| - 1;
    WaitsThrough(n, at, a, ins[..k]);
    YieldsTurn(p, n, at, a, Turns(n.p, n.l, ins[..k]), ins[k]);
    NextTurn(n.p, n.l, ins, k);
    assert ins[..k + 1] == ins;
  }

  // ----- all of them ------------------------------------------------------------------

  /** Standing by for one virtual router: each last heard a Master of interval `a` at its own time. */
  ghost predicate StandBy(nodes: map<Ipv4, Node>, vrid: byte, heard: map<Ipv4, Time>, a: u16) {
    && heard.Keys == nodes.Keys
    && forall x :: x in nodes ==> IsNode(vrid, x, nodes[x]) && Restarted(nodes[x].l, heard[x], a)
  }

  /**
   Its timer runs out before the other's by the two turns of a claim and an
   advertisement, 10 ms for each of `m` ignored datagrams, and the delay; and
   the other follows it.
   */
  predicate WellAhead(top: Node, other: Node, m: nat, delay: nat) {
    top.l.deadline + 10 * (m + 2) + delay <= other.l.deadline && Follows(other.l.vr, top.p.priority)
  }

  /** Where all are `delay` after `sent`: `top`, which claimed in turn `claim`, has advertised then, and everyone else has heard it. */
  ghost predicate Reached(nodes: map<Ipv4, Node>, top: Ipv4, heard: map<Ipv4, Time>, delay: nat,
                          runs: map<Ipv4, seq<Input>>, claim: nat, sent: Time) {
    && runs.Keys == nodes.Keys == heard.Keys && top in nodes
    && RunsToAdvert(nodes[top], heard[top], runs[top], claim) && sent == EndsAt(heard[top], runs[top])
    && (forall x :: x in nodes && x != top ==>
          HearsOnly(nodes[x], heard[x], runs[x], Packet(top, Wire(nodes[top].p, nodes[top].p.priority)), sent, sent + delay))
  }

  lemma OtherYields(nodes: map<Ipv4, Node>, vrid: byte, top: Ipv4, heard: map<Ipv4, Time>, a: u16, delay: nat,
                    runs: map<Ipv4, seq<Input>>, claim: nat, sent: Time, x: Ipv4)
    requires StandBy(nodes, vrid, heard, a) && Reached(nodes, top, heard, delay, runs, claim, sent)
    requires x in nodes && x != top && WellAhead(nodes[top], nodes[x], Delays(nodes[top], runs[top], claim), delay)
    ensures Yields(nodes[x], runs[x], IntervalCentis(nodes[top].p.secs))
    ensures sent + delay < heard[x] + 4 * (10 * a)
  {
    AdvertisesInTime(nodes[top], heard[top], a, runs[top], claim);
    SkewBound(nodes[x].l.vr);
    HearerYields(nodes[top].p, nodes[x], heard[x], a, runs[x], sent, sent + delay);
  }

  /** Who is Master after the runs. */
  function MastersAfter(nodes: map<Ipv4, Node>, runs: map<Ipv4, seq<Input>>): set<Ipv4>
    requires runs.Keys == nodes.Keys
  {
    set x | x in nodes && Turns(nodes[x].p, nodes[x].l, runs[x]).to.vr.state == Master
  }

  lemma OnlyMaster(nodes: map<Ipv4, Node>, runs: map<Ipv4, seq<Input>>, top: Ipv4, sent: Time, interval: u16)
    requires runs.Keys == nodes.Keys && top in nodes && TakesOver(nodes[top], runs[top], sent)
    requires forall x :: x in nodes && x != top ==> Yields(nodes[x], runs[x], interval)
    ensures MastersAfter(nodes, runs) == {top}
  {
  }

  /**
   Takeover: a Master falls silent, and one Backup's timer runs out well ahead
   of every other's, which follow it. By the time its first advertisement is
   heard, within four of the Master's intervals for anyone who hears it, it is
   Master, the only one; everyone else has done nothing but restart the timer.
   Each Backup may have last heard the Master at its own time, and ignored
   datagrams may arrive anywhere.
   */
  lemma OneTakesOver(nodes: map<Ipv4, Node>, vrid: byte, top: Ipv4, heard: map<Ipv4, Time>, a: u16, delay: nat,
                     runs: map<Ipv4, seq<Input>>, claim: nat, sent: Time)
    requires StandBy(nodes, vrid, heard, a) && Reached(nodes, top, heard, delay, runs, claim, sent)
    requires forall x :: x in nodes && x != top ==> WellAhead(nodes[top], nodes[x], Delays(nodes[top], runs[top], claim), delay)
    ensures TakesOver(nodes[top], runs[top], sent) && MastersAfter(nodes, runs) == {top}
    ensures forall x :: x in nodes && x != top ==>
      Yields(nodes[x], runs[x], IntervalCentis(nodes[top].p.secs)) && sent + delay < heard[x] + 4 * (10 * a)
  {
    AdvertisesInTime(nodes[top], heard[top], a, runs[top], claim);
    forall x | x in nodes && x != top
      ensures Yields(nodes[x], runs[x], IntervalCentis(nodes[top].p.secs)) && sent + delay < heard[x] + 4 * (10 * a)
    {
      OtherYields(nodes, vrid, top, heard, a, delay, runs, claim, sent, x);
    }
    OnlyMaster(nodes, runs, top, sent, IntervalCentis(nodes[top].p.secs));
  }

  /** A smaller skew is a higher priority. */
  lemma SkewTellsPriority(high: Router, low: Router)
    requires high.learned == low.learned && Skew(high) < Skew(low)
    ensures high.priority > low.priority
  {
    if low.priority >= high.priority {
      MulMono(256 - low.priority, 256 - high.priority, high.learned);
    }
  }

  /** Of two that heard the Master at the same time, the one is well ahead if its skew is that much smaller. */
  lemma SkewsWellAhead(top: Node, other: Node, at: Time, a: u16, m: nat, delay: nat)
    requires Restarted(top.l, at, a) && Restarted(other.l, at, a) && top.l.vr.priority == top.p.priority
    ensures WellAhead(top, other, m, delay)
       <==> 10 * Skew(top.l.vr) + 10 * (m + 2) + delay <= 10 * Skew(other.l.vr)
  {
    if Skew(top.l.vr) < Skew(other.l.vr) {
      SkewTellsPriority(top.l.vr, other.l.vr);
    }
  }
}
