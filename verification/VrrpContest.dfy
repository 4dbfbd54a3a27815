/**
 Backups whose timers run out close together (src/vrrp.rs): several claim the
 address before they hear of each other. Whatever their timers, once each has
 heard the greatest of those that claimed, that one alone is left Master.
 */
module VrrpContest {
  import opened Bytes
  import opened Vrrp
  import opened ControlLoop
  import opened VrrpReplacement
  import opened Election
  import opened VrrpTakeover
  import VrrpCodec

  /** Those that claimed the address in their runs. */
  function Claimants(nodes: map<Ipv4, Node>, runs: map<Ipv4, seq<Input>>): set<Ipv4>
    requires runs.Keys == nodes.Keys
  {
    set x | x in nodes && Claim in Turns(nodes[x].p, nodes[x].l, runs[x]).acts
  }

  /** The advertisement that a node sends as Master. */
  function AdvertOf(n: Node): Packet {
    Packet(n.p.us, Wire(n.p, n.p.priority))
  }

  /** A healthy turn that hears, if anything for this router, the advertisement of one of `senders`. */
  ghost predicate HearsOf(nodes: map<Ipv4, Node>, senders: set<Ipv4>, p: Params, i: Input)
    requires senders <= nodes.Keys
  {
    && !i.stop && i.healthy && i.recv != Error
    && (i.recv.Datagram? && VrrpCodec.ParseAdvertisement(i.recv.bytes, p.vrid).Some? ==>
          exists z :: z in senders && Carries(i.recv.bytes, AdvertOf(nodes[z])))
  }

  ghost predicate AllHearOf(nodes: map<Ipv4, Node>, senders: set<Ipv4>, p: Params, ins: seq<Input>)
    requires senders <= nodes.Keys
  {
    forall k :: 0 <= k < |ins| ==> HearsOf(nodes, senders, p, ins[k])
  }

  /** Nodes of one virtual router. */
  ghost predicate OneRouter(nodes: map<Ipv4, Node>, vrid: byte) {
    forall x :: x in nodes ==> IsNode(vrid, x, nodes[x])
  }

  /** What such a turn hears, parsed. */
  lemma HeardParses(nodes: map<Ipv4, Node>, vrid: byte, senders: set<Ipv4>, p: Params, i: Input) returns (z: Ipv4)
    requires OneRouter(nodes, vrid) && senders <= nodes.Keys && p.vrid == vrid && HearsOf(nodes, senders, p, i)
    requires i.recv.Datagram? && VrrpCodec.ParseAdvertisement(i.recv.bytes, p.vrid).Some?
    ensures z in senders
    ensures VrrpCodec.ParseAdvertisement(i.recv.bytes, p.vrid).value
         == VrrpCodec.Advert(nodes[z].p.priority, z, IntervalCentis(nodes[z].p.secs))
  {
    z :| z in senders && Carries(i.recv.bytes, AdvertOf(nodes[z]));
    AdvertParses(vrid, nodes[z], i.recv.bytes);
  }

  lemma AdvertParses(vrid: byte, n: Node, bytes: seq<byte>)
    requires n.p.vrid == vrid && Carries(bytes, AdvertOf(n))
    ensures VrrpCodec.ParseAdvertisement(bytes, vrid)
         == Some(VrrpCodec.Advert(n.p.priority, n.p.us, IntervalCentis(n.p.secs)))
  {
    var h: seq<byte> :| VrrpCodec.IpHeader(h, n.p.us) && bytes == h + Wire(n.p, n.p.priority);
    WireParses(h, n.p, n.p.priority);
  }

  // ----- every run: who is Master claimed -------------------------------------------

  /** A running loop that is Master or Backup, and was a Backup if it claimed nothing yet. */
  ghost predicate InContest(p: Params, d: Did) {
    && Good(p, d.to) && d.to.outcome == Running
    && (d.to.vr.state == Master ==> Claim in d.acts)
  }

  lemma ContestTurn(p: Params, d: Did, i: Input)
    requires InContest(p, d) && !i.stop && i.healthy && i.recv != Error
    ensures InContest(p, Then(d, Turn(p, d.to, i)))
    ensures Claim in Turn(p, d.to, i).acts ==> Turn(p, d.to, i).to.vr.state == Master
  {
    TurnSends(p, d.to, i);
    if d.to.vr.state == Backup && Turn(p, d.to, i).to.vr.state == Master {
      BackupClaims(p, d.to, i);
    }
    ClaimMakesMaster(p, d.to, i);
  }

  lemma BackupClaims(p: Params, l: Loop, i: Input)
    requires l.outcome == Running && l.vr.state == Backup && !i.stop && Turn(p, l, i).to.vr.state == Master
    ensures Turn(p, l, i).acts == [Claim]
  {
    var l1 := l.(shown := l.vr.state);
    assert OnHealthCheck(l, i.healthy, i.begin) == Did(l1, []);
    assert i.recv == TimedOut;
  }

  lemma ClaimMakesMaster(p: Params, l: Loop, i: Input)
    requires l.outcome == Running && l.vr.state != Initialize && !i.stop && i.healthy && i.recv != Error
    ensures Turn(p, l, i).to.outcome == Running
    ensures Claim in Turn(p, l, i).acts ==> Turn(p, l, i).to.vr.state == Master
  {
    var l1 := l.(shown := l.vr.state);
    assert OnHealthCheck(l, i.healthy, i.begin) == Did(l1, []);
    if i.recv.Datagram? {
      assert Claim !in OnDatagram(p, l1, i.recv.bytes, i.end).acts;
    }
  }

  lemma {:induction false} RunInContest(nodes: map<Ipv4, Node>, senders: set<Ipv4>, n: Node, ins: seq<Input>)
    requires senders <= nodes.Keys && AllHearOf(nodes, senders, n.p, ins)
    requires Good(n.p, n.l) && n.l.outcome == Running && n.l.vr.state == Backup
    ensures InContest(n.p, Turns(n.p, n.l, ins))
  {
    if |ins| > 0 {
      var k := |ins| - 1;
      PrefixHears(nodes, senders, n.p, ins, k);
      RunInContest(nodes, senders, n, ins[..k]);
      assert HearsOf(nodes, senders, n.p, ins[k]);
      ContestTurn(n.p, Turns(n.p, n.l, ins[..k]), ins[k]);
    }
  }

  lemma PrefixHears(nodes: map<Ipv4, Node>, senders: set<Ipv4>, p: Params, ins: seq<Input>, k: nat)
    requires senders <= nodes.Keys && AllHearOf(nodes, senders, p, ins) && k <= |ins|
    ensures AllHearOf(nodes, senders, p, ins[..k])
  {
    assert forall j :: 0 <= j < k ==> ins[..k][j] == ins[j];
  }

  // ----- the greatest stays Master -----------------------------------------------------

  /** Above everyone else in `senders`. */
  ghost predicate Greatest(nodes: map<Ipv4, Node>, senders: set<Ipv4>, top: Ipv4)
    requires senders <= nodes.Keys
  {
    && top in senders
    && forall z :: z in senders && z != top ==> Outranks(nodes[top].p.priority, top, nodes[z].p.priority, z)
  }

  lemma TopKeepsTurn(nodes: map<Ipv4, Node>, vrid: byte, senders: set<Ipv4>, top: Ipv4, l: Loop, i: Input)
    requires OneRouter(nodes, vrid) && senders <= nodes.Keys && Greatest(nodes, senders, top)
    requires Good(nodes[top].p, l) && l.outcome == Running && l.vr.state == Master
    requires HearsOf(nodes, senders, nodes[top].p, i)
    ensures Turn(nodes[top].p, l, i).to.vr.state == Master
  {
    var p := nodes[top].p;
    assert IsNode(vrid, top, nodes[top]);
    MasterTurn(p, l, i);
    if i.recv.Datagram? && VrrpCodec.ParseAdvertisement(i.recv.bytes, p.vrid).Some? {
      var z := HeardParses(nodes, vrid, senders, p, i);
      NotOutranked(nodes[top].p.priority, top, nodes[z].p.priority, z);
    }
  }

  lemma NotOutranked(a: byte, x: Ipv4, b: byte, z: Ipv4)
    ensures Outranks(a, x, b, z) ==> !Outranks(b, z, a, x)
  {
  }

  lemma {:induction false} TopKeeps(nodes: map<Ipv4, Node>, vrid: byte, senders: set<Ipv4>, top: Ipv4, ins: seq<Input>)
    requires OneRouter(nodes, vrid) && senders <= nodes.Keys && Greatest(nodes, senders, top)
    requires nodes[top].l.outcome == Running && nodes[top].l.vr.state == Backup
    requires AllHearOf(nodes, senders, nodes[top].p, ins)
    requires Claim in Turns(nodes[top].p, nodes[top].l, ins).acts
    ensures Turns(nodes[top].p, nodes[top].l, ins).to.vr.state == Master
  {
    var n, k := nodes[top], |ins| - 1;
    assert IsNode(vrid, top, n);
    PrefixHears(nodes, senders, n.p, ins, k);
    RunInContest(nodes, senders, n, ins[..k]);
    assert HearsOf(nodes, senders, n.p, ins[k]);
    var d := Turns(n.p, n.l, ins[..k]);
    if Claim in d.acts {
      TopKeeps(nodes, vrid, senders, top, ins[..k]);
      TopKeepsTurn(nodes, vrid, senders, top, d.to, ins[k]);
    } else {
      ContestTurn(n.p, d, ins[k]);
    }
  }

  // ----- everyone else gives way ---------------------------------------------------------

  /** The node has heard the greatest, in turn `j`, less than three seconds before the run's end. */
  ghost predicate HasHeard(top: Node, ins: seq<Input>, from: Time, j: nat) {
    j < |ins| && ins[j].recv.Datagram? && Carries(ins[j].recv.bytes, AdvertOf(top)) && Ended(from, ins) < ins[j].end + 3000
  }

  /** A node below, Master or Backup, is a waiting Backup after it hears the advertisement. */
  lemma GivesWay(vrid: byte, top: Node, p: Params, l: Loop, i: Input)
    requires top.p.vrid == vrid == p.vrid && top.p.us != p.us && 0 < top.p.priority
    requires Outranks(top.p.priority, top.p.us, p.priority, p.us)
    requires Good(p, l) && l.outcome == Running
    requires !i.stop && i.healthy && i.recv.Datagram? && Carries(i.recv.bytes, AdvertOf(top))
    ensures Waiting(Turn(p, l, i).to, i.end)
  {
    AdvertParses(vrid, top, i.recv.bytes);
    var l1 := l.(shown := l.vr.state);
    assert OnHealthCheck(l, i.healthy, i.begin) == Did(l1, []);
    PeerDemotes(p, l1, VrrpCodec.Advert(top.p.priority, top.p.us, IntervalCentis(top.p.secs)), i.end);
  }

  lemma PeerDemotes(p: Params, l: Loop, a: VrrpCodec.Advert, end: Time)
    requires Good(p, l) && a.priority > 0 && a.interval >= 100 && Outranks(a.priority, a.src, p.priority, p.us)
    ensures Waiting(OnPeer(p, l, a, end).to, end)
  {
  }

  lemma HeardIsCalm(nodes: map<Ipv4, Node>, vrid: byte, senders: set<Ipv4>, p: Params, i: Input)
    requires OneRouter(nodes, vrid) && senders <= nodes.Keys && p.vrid == vrid && HearsOf(nodes, senders, p, i)
    ensures CalmTurn(p, i)
  {
    if i.recv.Datagram? && VrrpCodec.ParseAdvertisement(i.recv.bytes, p.vrid).Some? {
      var z := HeardParses(nodes, vrid, senders, p, i);
      assert IsNode(vrid, z, nodes[z]);
    }
  }

  /** And it waits for the rest of its run. */
  lemma {:induction false} WaitsOn(nodes: map<Ipv4, Node>, vrid: byte, senders: set<Ipv4>, top: Ipv4, x: Ipv4, ins: seq<Input>,
                                   from: Time, j: nat, t: Time)
    requires OneRouter(nodes, vrid) && senders <= nodes.Keys && Greatest(nodes, senders, top)
    requires x in senders && x != top && nodes[x].l.outcome == Running && nodes[x].l.vr.state == Backup
    requires AllHearOf(nodes, senders, nodes[x].p, ins) && InOrder(from, ins)
    requires j < |ins| && ins[j].recv.Datagram? && Carries(ins[j].recv.bytes, AdvertOf(nodes[top]))
    requires Ended(from, ins) <= t < ins[j].end + 3000
    ensures Waiting(Turns(nodes[x].p, nodes[x].l, ins).to, ins[j].end)
    ensures ins[j].end <= Ended(from, ins)
  {
    var n, k := nodes[x], |ins| - 1;
    assert IsNode(vrid, x, n) && IsNode(vrid, top, nodes[top]);
    PrefixHears(nodes, senders, n.p, ins, k);
    RunInContest(nodes, senders, n, ins[..k]);
    assert HearsOf(nodes, senders, n.p, ins[k]);
    var l := Turns(n.p, n.l, ins[..k]).to;
    if j == k {
      GivesWay(vrid, nodes[top], n.p, l, ins[k]);
    } else {
      WaitsOn(nodes, vrid, senders, top, x, ins[..k], from, j, t);
      HeardIsCalm(nodes, vrid, senders, n.p, ins[k]);
      WaitingTurn(n.p, l, ins[k], ins[j].end, t);
    }
  }

  // ----- all of them ------------------------------------------------------------------------

  /** All start as Backups, and hear nothing for this router but those that claimed. */
  ghost predicate Contest(nodes: map<Ipv4, Node>, vrid: byte, from: map<Ipv4, Time>, runs: map<Ipv4, seq<Input>>) {
    && OneRouter(nodes, vrid) && runs.Keys == nodes.Keys == from.Keys
    && forall x :: x in nodes ==>
         && nodes[x].l.outcome == Running && nodes[x].l.vr.state == Backup
         && InOrder(from[x], runs[x]) && AllHearOf(nodes, Claimants(nodes, runs), nodes[x].p, runs[x])
  }

  lemma ClaimedExactlyWhenTop(nodes: map<Ipv4, Node>, vrid: byte, from: map<Ipv4, Time>, runs: map<Ipv4, seq<Input>>, top: Ipv4, x: Ipv4)
    requires Contest(nodes, vrid, from, runs) && Greatest(nodes, Claimants(nodes, runs), top) && x in nodes
    requires x in Claimants(nodes, runs) && x != top ==> exists j :: HasHeard(nodes[top], runs[x], from[x], j)
    ensures Turns(nodes[x].p, nodes[x].l, runs[x]).to.vr.state == Master <==> x == top
  {
    var senders := Claimants(nodes, runs);
    assert IsNode(vrid, x, nodes[x]);
    if x == top {
      TopKeeps(nodes, vrid, senders, top, runs[top]);
    } else if x in senders {
      var j :| HasHeard(nodes[top], runs[x], from[x], j);
      WaitsOn(nodes, vrid, senders, top, x, runs[x], from[x], j, Ended(from[x], runs[x]));
    } else {
      RunInContest(nodes, senders, nodes[x], runs[x]);
    }
  }

  /**
   Whatever their timers: of any number of Backups exactly the greatest of
   those that claimed is Master in the end, if each other that claimed has
   heard it within the last three seconds. Before and after that they may have
   heard anyone who claimed, in any order, and been Master or not.
   */
  lemma GreatestClaimantLeft(nodes: map<Ipv4, Node>, vrid: byte, from: map<Ipv4, Time>, runs: map<Ipv4, seq<Input>>, top: Ipv4)
    requires Contest(nodes, vrid, from, runs) && Greatest(nodes, Claimants(nodes, runs), top)
    requires forall x :: x in Claimants(nodes, runs) && x != top ==> exists j :: HasHeard(nodes[top], runs[x], from[x], j)
    ensures MastersAfter(nodes, runs) == {top}
  {
    forall x | x in nodes
      ensures Turns(nodes[x].p, nodes[x].l, runs[x]).to.vr.state == Master <==> x == top
    {
      ClaimedExactlyWhenTop(nodes, vrid, from, runs, top, x);
    }
  }
}
