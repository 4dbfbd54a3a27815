/**
 Any number of nodes running the control loop of src/vrrp.rs for one virtual
 router. The network keeps every packet ever sent and may deliver any of them
 to any node, any number of times, in any order, or never; a node may also
 receive datagrams that do not parse. A node takes arbitrary turns and may be
 restarted with its own settings.
 */
module Election {
  import opened Bytes
  import opened Vrrp
  import opened ControlLoop
  import VrrpCodec

  datatype Node = Node(p: Params, l: Loop)

  datatype Packet = Packet(src: Ipv4, payload: seq<byte>)

  datatype Net = Net(nodes: map<Ipv4, Node>, sent: set<Packet>)

  datatype Step = Takes(at: Ipv4, i: Input) | Restarts(at: Ipv4, healthy: bool, now: Time)

  /** The advertisement that `p` sends with this priority. */
  function Wire(p: Params, priority: byte): seq<byte> {
    VrrpCodec.Encode(p.vrid, priority, IntervalCentis(p.secs), [p.vip], p.us)
  }

  function Packets(p: Params, actions: seq<Action>): set<Packet> {
    set k | 0 <= k < |actions| && actions[k].Send? :: Packet(p.us, Wire(p, actions[k].priority))
  }

  function After(net: Net, s: Step): Net
    requires s.at in net.nodes
  {
    var n := net.nodes[s.at];
    var did := if s.Takes? then Turn(n.p, n.l, s.i) else Begin(n.p, s.healthy, s.now);
    Net(net.nodes[s.at := Node(n.p, did.to)], net.sent + Packets(n.p, did.acts))
  }

  /** The datagram is the packet, behind an IP header that tells its sender. */
  ghost predicate Carries(bytes: seq<byte>, pkt: Packet) {
    exists h: seq<byte> {:trigger VrrpCodec.IpHeader(h, pkt.src)} ::
      VrrpCodec.IpHeader(h, pkt.src) && bytes == h + pkt.payload
  }

  /** The network delivers only what was sent; a restart needs a loop that has ended. */
  ghost predicate Allowed(net: Net, s: Step) {
    && s.at in net.nodes
    && match s
       case Takes(at, i) =>
         i.recv.Datagram? ==>
           || VrrpCodec.ParseAdvertisement(i.recv.bytes, net.nodes[at].p.vrid) == None
           || exists pkt :: pkt in net.sent && Carries(i.recv.bytes, pkt)
       case Restarts(at, _, _) => net.nodes[at].l.outcome != Running
  }

  /** A run: every step is allowed where it is taken. */
  ghost predicate IsRun(net: Net, steps: seq<Step>)
    decreases |steps|
  {
    |steps| == 0 || (Allowed(net, steps[0]) && IsRun(After(net, steps[0]), steps[1..]))
  }

  ghost function Final(net: Net, steps: seq<Step>): Net
    requires IsRun(net, steps)
    decreases |steps|
  {
    if |steps| == 0 then net else Final(After(net, steps[0]), steps[1..])
  }

  ghost predicate IsNode(vrid: byte, at: Ipv4, n: Node) {
    n.p.us == at && 0 < n.p.priority && n.p.vrid == vrid && Good(n.p, n.l)
  }

  /** A packet is an advertisement of its sender: its own priority, or zero. */
  ghost predicate IsAdvert(net: Net, pkt: Packet) {
    && pkt.src in net.nodes
    && var p := net.nodes[pkt.src].p;
       pkt.payload == Wire(p, p.priority) || pkt.payload == Wire(p, 0)
  }

  ghost predicate Inv(net: Net, vrid: byte) {
    && (forall at :: at in net.nodes ==> IsNode(vrid, at, net.nodes[at]))
    && (forall pkt :: pkt in net.sent ==> IsAdvert(net, pkt))
  }

  predicate IsMaster(net: Net, at: Ipv4) {
    at in net.nodes && net.nodes[at].l.outcome == Running && net.nodes[at].l.vr.state == Master
  }

  function Masters(net: Net): set<Ipv4> {
    set at | at in net.nodes && IsMaster(net, at)
  }

  /** The election order on nodes. */
  predicate Above(net: Net, a: Ipv4, b: Ipv4)
    requires a in net.nodes && b in net.nodes
  {
    Outranks(net.nodes[a].p.priority, a, net.nodes[b].p.priority, b)
  }

  // ----- every run -------------------------------------------------------------

  /** Advertisements of our own priority, or resignations. */
  ghost predicate OwnSends(p: Params, a: seq<Action>) {
    forall k :: 0 <= k < |a| && a[k].Send? ==> a[k].priority == 0 || a[k].priority == p.priority
  }

  lemma TurnSends(p: Params, l: Loop, i: Input)
    requires Good(p, l)
    ensures OwnSends(p, Turn(p, l, i).acts) && Good(p, Turn(p, l, i).to)
  {
    if l.outcome == Running && !i.stop {
      var l1 := OnHealthCheck(l, i.healthy, i.begin).to;
      assert Good(p, l1) && OwnSends(p, OnHealthCheck(l, i.healthy, i.begin).acts);
      SocketSends(p, l1, i);
    }
  }

  lemma SocketSends(p: Params, l: Loop, i: Input)
    requires Good(p, l)
    ensures OwnSends(p, OnSocket(p, l, i).acts) && Good(p, OnSocket(p, l, i).to)
  {
    match i.recv {
      case Datagram(bytes) =>
        var parsed := VrrpCodec.ParseAdvertisement(bytes, p.vrid);
        if parsed.Some? {
          PeerSends(p, l, parsed.value, i.end);
        }
      case TimedOut => TimeoutSends(p, l, i.end, i.stillHealthy);
      case Error =>
    }
  }

  lemma PeerSends(p: Params, l: Loop, a: VrrpCodec.Advert, end: Time)
    requires Good(p, l)
    ensures OwnSends(p, OnPeer(p, l, a, end).acts) && Good(p, OnPeer(p, l, a, end).to)
  {
  }

  lemma TimeoutSends(p: Params, l: Loop, end: Time, healthy: bool)
    requires Good(p, l)
    ensures OwnSends(p, OnTimeout(p, l, end, healthy).acts) && Good(p, OnTimeout(p, l, end, healthy).to)
  {
  }

  /** The same nodes with the same settings. */
  ghost predicate SameNodes(net: Net, net': Net) {
    && net'.nodes.Keys == net.nodes.Keys
    && forall at :: at in net.nodes ==> net'.nodes[at].p == net.nodes[at].p
  }

  lemma StepKeepsInv(net: Net, vrid: byte, s: Step)
    requires Inv(net, vrid) && s.at in net.nodes
    ensures Inv(After(net, s), vrid) && SameNodes(net, After(net, s))
  {
    var n := net.nodes[s.at];
    var net' := After(net, s);
    if s.Takes? {
      TurnSends(n.p, n.l, s.i);
    } else {
      BeginKept(n.p, s.healthy, s.now);
    }
    forall pkt | pkt in net'.sent
      ensures IsAdvert(net', pkt)
    {
      if pkt in net.sent {
        assert IsAdvert(net, pkt);
      }
    }
  }

  /** A network of freshly started loops has sent nothing yet, and is such a network. */
  lemma StartsInv(net: Net, vrid: byte)
    requires net.sent == {}
    requires forall at :: at in net.nodes ==>
      && net.nodes[at].p.us == at && 0 < net.nodes[at].p.priority && net.nodes[at].p.vrid == vrid
      && exists healthy, now :: net.nodes[at].l == Begin(net.nodes[at].p, healthy, now).to
    ensures Inv(net, vrid)
  {
    forall at | at in net.nodes
      ensures IsNode(vrid, at, net.nodes[at])
    {
      var healthy, now :| net.nodes[at].l == Begin(net.nodes[at].p, healthy, now).to;
      BeginKept(net.nodes[at].p, healthy, now);
    }
  }

  lemma {:induction false} RunKeepsInv(net: Net, vrid: byte, steps: seq<Step>)
    requires Inv(net, vrid) && IsRun(net, steps)
    ensures Inv(Final(net, steps), vrid) && Final(net, steps).nodes.Keys == net.nodes.Keys
    decreases |steps|
  {
    if |steps| > 0 {
      StepKeepsInv(net, vrid, steps[0]);
      RunKeepsInv(After(net, steps[0]), vrid, steps[1..]);
    }
  }

  /** What a delivered packet parses to, from end to end. */
  lemma DeliveredParses(net: Net, vrid: byte, bytes: seq<byte>, pkt: Packet)
    requires Inv(net, vrid) && IsAdvert(net, pkt) && Carries(bytes, pkt)
    ensures var p := net.nodes[pkt.src].p;
      var parsed := VrrpCodec.ParseAdvertisement(bytes, vrid);
      && parsed.Some? && parsed.value.src == pkt.src
      && parsed.value.interval == IntervalCentis(p.secs)
      && ((pkt.payload == Wire(p, p.priority) && parsed.value.priority == p.priority)
          || (pkt.payload == Wire(p, 0) && parsed.value.priority == 0))
  {
    var p := net.nodes[pkt.src].p;
    assert IsNode(vrid, pkt.src, net.nodes[pkt.src]);
    var h :| VrrpCodec.IpHeader(h, pkt.src) && bytes == h + pkt.payload;
    WireParses(h, p, if pkt.payload == Wire(p, p.priority) then p.priority else 0);
  }

  /** A sent advertisement, behind its IP header, parses to what was sent. */
  lemma WireParses(h: seq<byte>, p: Params, priority: byte)
    requires VrrpCodec.IpHeader(h, p.us)
    ensures VrrpCodec.ParseAdvertisement(h + Wire(p, priority), p.vrid)
         == Some(VrrpCodec.Advert(priority, p.us, IntervalCentis(p.secs)))
  {
    var centis := IntervalCentis(p.secs);
    assert centis % 0x1000 == centis;
    VrrpCodec.RoundTrip(h, p.vrid, priority, centis, [p.vip], p.us, p.vrid);
  }

  /**
   In every run, a healthy Master that is not told to stop gives up the
   address only to a node strictly above it whose advertisement it received.
   */
  lemma DemotedOnlyByGreater(net: Net, vrid: byte, steps: seq<Step>, at: Ipv4, i: Input) returns (winner: Ipv4)
    requires Inv(net, vrid) && IsRun(net, steps)
    requires IsMaster(Final(net, steps), at) && Allowed(Final(net, steps), Takes(at, i))
    requires !i.stop && i.healthy && i.recv != Error
    requires !IsMaster(After(Final(net, steps), Takes(at, i)), at)
    ensures winner in Final(net, steps).nodes && Above(Final(net, steps), winner, at)
    ensures var p := Final(net, steps).nodes[winner].p; Packet(winner, Wire(p, p.priority)) in Final(net, steps).sent
    decreases |steps|
  {
    if |steps| > 0 {
      StepKeepsInv(net, vrid, steps[0]);
      winner := DemotedOnlyByGreater(After(net, steps[0]), vrid, steps[1..], at, i);
    } else {
      winner := DemotingStep(net, vrid, at, i);
    }
  }

  lemma DemotingStep(net: Net, vrid: byte, at: Ipv4, i: Input) returns (winner: Ipv4)
    requires Inv(net, vrid) && IsMaster(net, at) && Allowed(net, Takes(at, i))
    requires !i.stop && i.healthy && i.recv != Error
    requires !IsMaster(After(net, Takes(at, i)), at)
    ensures winner in net.nodes && Above(net, winner, at)
    ensures var p := net.nodes[winner].p; Packet(winner, Wire(p, p.priority)) in net.sent
  {
    var n := net.nodes[at];
    assert IsNode(vrid, at, n);
    MasterTurn(n.p, n.l, i);
    var pkt :| pkt in net.sent && Carries(i.recv.bytes, pkt);
    assert IsAdvert(net, pkt);
    DeliveredParses(net, vrid, i.recv.bytes, pkt);
    winner := pkt.src;
  }

  /** Only the advertisement of a node above it takes a healthy running Master out of the state. */
  lemma MasterTurn(p: Params, l: Loop, i: Input)
    requires Good(p, l) && l.outcome == Running && l.vr.state == Master
    requires !i.stop && i.healthy && i.recv != Error
    ensures var l' := Turn(p, l, i).to;
      l'.outcome == Running && (l'.vr.state != Master ==>
        && i.recv.Datagram?
        && var parsed := VrrpCodec.ParseAdvertisement(i.recv.bytes, p.vrid);
           && parsed.Some? && parsed.value.priority != 0
           && Outranks(parsed.value.priority, parsed.value.src, p.priority, p.us))
  {
  }

  /** Every turn or restart of the node `at` leaves it alone: it is healthy, not stopped, its socket works. */
  ghost predicate Undisturbed(at: Ipv4, steps: seq<Step>) {
    forall k :: 0 <= k < |steps| && steps[k].at == at ==>
      steps[k].Takes? && !steps[k].i.stop && steps[k].i.healthy && steps[k].i.recv != Error
  }

  ghost predicate IsTop(net: Net, top: Ipv4)
    requires top in net.nodes
  {
    forall at :: at in net.nodes && at != top ==> Above(net, top, at)
  }

  lemma NoneAbove(net: Net, top: Ipv4, x: Ipv4)
    requires top in net.nodes && IsTop(net, top) && x in net.nodes
    ensures !Above(net, x, top)
  {
  }

  lemma StillTop(net: Net, net': Net, top: Ipv4)
    requires top in net.nodes && IsTop(net, top) && SameNodes(net, net')
    ensures IsTop(net', top)
  {
  }

  lemma StepLeavesTop(net: Net, vrid: byte, top: Ipv4, s: Step)
    requires Inv(net, vrid) && Allowed(net, s) && IsMaster(net, top) && IsTop(net, top)
    requires s.at == top ==> s.Takes? && !s.i.stop && s.i.healthy && s.i.recv != Error
    ensures IsMaster(After(net, s), top)
  {
    if s.at == top && !IsMaster(After(net, Takes(top, s.i)), top) {
      var winner := DemotingStep(net, vrid, top, s.i);
      NoneAbove(net, top, winner);
    }
  }

  /** The node above all others, once Master, is Master in every run that leaves it alone. */
  lemma {:induction false} TopStaysMaster(net: Net, vrid: byte, top: Ipv4, steps: seq<Step>)
    requires Inv(net, vrid) && IsRun(net, steps) && Undisturbed(top, steps)
    requires IsMaster(net, top) && IsTop(net, top)
    ensures IsMaster(Final(net, steps), top)
    decreases |steps|
  {
    if |steps| > 0 {
      var s := steps[0];
      var net' := After(net, s);
      StepKeepsInv(net, vrid, s);
      StepLeavesTop(net, vrid, top, s);
      StillTop(net, net', top);
      assert forall k :: 0 <= k < |steps[1..]| ==> steps[1..][k] == steps[k + 1];
      TopStaysMaster(net', vrid, top, steps[1..]);
    }
  }

  // ----- the election ------------------------------------------------------------

  /** `s` is the delivery to its node of the advertisement of `from`. */
  ghost predicate Delivers(net: Net, s: Step, from: Ipv4) {
    && s.Takes? && !s.i.stop && s.i.healthy && s.i.recv.Datagram?
    && from in net.nodes && s.at in net.nodes && s.at != from
    && Carries(s.i.recv.bytes, Packet(from, Wire(net.nodes[from].p, net.nodes[from].p.priority)))
  }

  ghost predicate FromOne(net: Net, senders: set<Ipv4>, s: Step) {
    exists from :: from in senders && Delivers(net, s, from)
  }

  /** Each step delivers one advertisement of one of `senders`. */
  ghost predicate Deliveries(net: Net, senders: set<Ipv4>, steps: seq<Step>) {
    forall k :: 0 <= k < |steps| ==> FromOne(net, senders, steps[k])
  }

  /** The advertisement of `from` is among those delivered to `to`. */
  ghost predicate Delivered(net: Net, steps: seq<Step>, from: Ipv4, to: Ipv4) {
    exists k :: 0 <= k < |steps| && steps[k].at == to && Delivers(net, steps[k], from)
  }

  ghost predicate AllRun(net: Net) {
    forall at :: at in net.nodes ==> net.nodes[at].l.outcome == Running
  }

  /** A healthy turn that hears a peer: a Master yields exactly if outranked, and nobody becomes Master. */
  lemma HearingTurn(p: Params, l: Loop, i: Input, a: VrrpCodec.Advert)
    requires Good(p, l) && l.outcome == Running && !i.stop && i.healthy && i.recv.Datagram?
    requires VrrpCodec.ParseAdvertisement(i.recv.bytes, p.vrid) == Some(a) && a.priority != 0 && a.src != p.us
    ensures var l' := Turn(p, l, i).to;
      && l'.outcome == Running
      && (l'.vr.state == Master <==> l.vr.state == Master && !Outranks(a.priority, a.src, p.priority, p.us))
  {
    assert OnHealthCheck(l, i.healthy, i.begin).to.vr == l.vr;
  }

  /** One delivery: a Master yields to a node above it, and nothing else changes state. */
  lemma DeliveryElects(net: Net, vrid: byte, s: Step, from: Ipv4)
    requires Inv(net, vrid) && Delivers(net, s, from) && AllRun(net)
    ensures var net' := After(net, s);
      && Inv(net', vrid) && SameNodes(net, net') && AllRun(net')
      && (forall at :: at in net.nodes ==>
            (IsMaster(net', at) <==> IsMaster(net, at) && !(at == s.at && Above(net, from, at))))
  {
    StepKeepsInv(net, vrid, s);
    var n, m := net.nodes[s.at], net.nodes[from];
    assert IsNode(vrid, s.at, n) && IsNode(vrid, from, m);
    AdvertParses(net, vrid, s.i.recv.bytes, from);
    HearingTurn(n.p, n.l, s.i, VrrpCodec.Advert(m.p.priority, from, IntervalCentis(m.p.secs)));
  }

  lemma AdvertParses(net: Net, vrid: byte, bytes: seq<byte>, from: Ipv4)
    requires from in net.nodes && IsNode(vrid, from, net.nodes[from])
    requires Carries(bytes, Packet(from, Wire(net.nodes[from].p, net.nodes[from].p.priority)))
    ensures var p := net.nodes[from].p;
      VrrpCodec.ParseAdvertisement(bytes, vrid)
      == Some(VrrpCodec.Advert(p.priority, from, IntervalCentis(p.secs)))
  {
    var p := net.nodes[from].p;
    var h :| VrrpCodec.IpHeader(h, from) && bytes == h + Wire(p, p.priority);
    WireParses(h, p, p.priority);
  }

  /** The network after the steps, allowed or not. */
  ghost function Moved(net: Net, steps: seq<Step>): Net
    requires forall k :: 0 <= k < |steps| ==> steps[k].at in net.nodes
    ensures Moved(net, steps).nodes.Keys == net.nodes.Keys
  {
    if |steps| == 0 then net else
    var before := Moved(net, steps[..|steps| - 1]);
    assert steps[|steps| - 1].at in net.nodes;
    After(before, steps[|steps| - 1])
  }

  /** A node above `at` was heard by it. */
  ghost predicate Beaten(net: Net, steps: seq<Step>, at: Ipv4)
    requires at in net.nodes
  {
    exists from :: from in net.nodes && Above(net, from, at) && Delivered(net, steps, from, at)
  }

  lemma DeliversStill(net: Net, net': Net, s: Step, from: Ipv4)
    requires SameNodes(net, net')
    ensures Delivers(net, s, from) <==> Delivers(net', s, from)
  {
  }

  lemma DeliveriesPrefix(net: Net, senders: set<Ipv4>, steps: seq<Step>, n: nat)
    requires Deliveries(net, senders, steps) && n <= |steps|
    ensures Deliveries(net, senders, steps[..n])
  {
    assert forall k :: 0 <= k < n ==> steps[..n][k] == steps[k];
  }

  lemma AllMove(net: Net, senders: set<Ipv4>, steps: seq<Step>)
    requires Deliveries(net, senders, steps)
    ensures forall k :: 0 <= k < |steps| ==> steps[k].at in net.nodes
  {
    assert forall k :: 0 <= k < |steps| ==> FromOne(net, senders, steps[k]);
  }

  /** In `net'` a node is Master exactly if it was in `net` and heard nobody above it. */
  ghost predicate Elected(net: Net, vrid: byte, steps: seq<Step>, net': Net) {
    && Inv(net', vrid) && SameNodes(net, net') && AllRun(net')
    && (forall at :: at in net.nodes ==> (IsMaster(net', at) <==> IsMaster(net, at) && !Beaten(net, steps, at)))
  }

  lemma NextDelivery(net: Net, vrid: byte, steps: seq<Step>, mid: Net, from: Ipv4)
    requires Inv(net, vrid) && |steps| > 0 && Delivers(net, steps[|steps| - 1], from)
    requires Elected(net, vrid, steps[..|steps| - 1], mid)
    ensures steps[|steps| - 1].at in mid.nodes && Elected(net, vrid, steps, After(mid, steps[|steps| - 1]))
  {
    var s := steps[|steps| - 1];
    DeliversStill(net, mid, s, from);
    DeliveryElects(mid, vrid, s, from);
    forall at | at in net.nodes
      ensures IsMaster(After(mid, s), at) <==> IsMaster(net, at) && !Beaten(net, steps, at)
    {
      BeatenSplit(net, vrid, steps, at, from);
      assert Above(mid, from, at) <==> Above(net, from, at);
    }
  }

  /** What any deliveries, in any order, lead to. */
  lemma {:induction false} DeliveriesElect(net: Net, vrid: byte, senders: set<Ipv4>, steps: seq<Step>)
    requires Inv(net, vrid) && Deliveries(net, senders, steps) && AllRun(net)
    ensures forall k :: 0 <= k < |steps| ==> steps[k].at in net.nodes
    ensures Elected(net, vrid, steps, Moved(net, steps))
  {
    AllMove(net, senders, steps);
    if |steps| > 0 {
      var n := |steps| - 1;
      DeliveriesPrefix(net, senders, steps, n);
      DeliveriesElect(net, vrid, senders, steps[..n]);
      assert FromOne(net, senders, steps[n]);
      var from :| from in senders && Delivers(net, steps[n], from);
      NextDelivery(net, vrid, steps, Moved(net, steps[..n]), from);
    }
  }

  lemma BeatenSplit(net: Net, vrid: byte, steps: seq<Step>, at: Ipv4, from: Ipv4)
    requires Inv(net, vrid) && at in net.nodes && |steps| > 0 && Delivers(net, steps[|steps| - 1], from)
    ensures Beaten(net, steps, at) <==>
      Beaten(net, steps[..|steps| - 1], at) || (steps[|steps| - 1].at == at && Above(net, from, at))
  {
    forall f | f in net.nodes
      ensures Delivered(net, steps, f, at) <==> Delivered(net, steps[..|steps| - 1], f, at) || (f == from && steps[|steps| - 1].at == at)
    {
      DeliveredSplit(net, vrid, steps, at, from, f);
    }
  }

  /** A datagram delivers one sender's advertisement only. */
  lemma OneSender(net: Net, vrid: byte, s: Step, f: Ipv4, g: Ipv4)
    requires Inv(net, vrid) && Delivers(net, s, f) && Delivers(net, s, g)
    ensures f == g
  {
    assert IsNode(vrid, f, net.nodes[f]) && IsNode(vrid, g, net.nodes[g]);
    AdvertParses(net, vrid, s.i.recv.bytes, f);
    AdvertParses(net, vrid, s.i.recv.bytes, g);
  }

  lemma DeliveredSplit(net: Net, vrid: byte, steps: seq<Step>, at: Ipv4, from: Ipv4, f: Ipv4)
    requires Inv(net, vrid) && f in net.nodes && |steps| > 0 && Delivers(net, steps[|steps| - 1], from)
    ensures Delivered(net, steps, f, at) <==>
      Delivered(net, steps[..|steps| - 1], f, at) || (f == from && steps[|steps| - 1].at == at)
  {
    var n := |steps| - 1;
    if Delivers(net, steps[n], f) {
      OneSender(net, vrid, steps[n], f, from);
    }
    if Delivered(net, steps, f, at) {
      var k :| 0 <= k < |steps| && steps[k].at == at && Delivers(net, steps[k], f);
      assert k < n ==> steps[..n][k] == steps[k];
    }
    if Delivered(net, steps[..n], f, at) {
      var k :| 0 <= k < n && steps[..n][k].at == at && Delivers(net, steps[..n][k], f);
      assert steps[k] == steps[..n][k];
    }
  }

  /** Every nonempty set of nodes has one above all its others. */
  lemma Greatest(net: Net, nodes: set<Ipv4>) returns (top: Ipv4)
    requires nodes != {} && nodes <= net.nodes.Keys
    ensures top in nodes && forall at :: at in nodes && at != top ==> Above(net, top, at)
    decreases nodes
  {
    var one :| one in nodes;
    if nodes == {one} {
      top := one;
    } else {
      var rest := Greatest(net, nodes - {one});
      top := if Above(net, one, rest) then one else rest;
      forall at | at in nodes && at != top
        ensures Above(net, top, at)
      {
        if at != one && at != rest {
          assert at in nodes - {one} && Above(net, rest, at);
        }
      }
    }
  }

  /**
   The election: all nodes run, each of a nonempty set of Masters has its
   advertisement delivered to every other of them, in any order and any number
   of times. Then exactly one Master is left, the one above all the others.
   */
  lemma ElectionLeavesTheGreatest(net: Net, vrid: byte, steps: seq<Step>) returns (top: Ipv4)
    requires Inv(net, vrid) && Masters(net) != {} && AllRun(net)
    requires Deliveries(net, Masters(net), steps)
    requires forall from, to :: from in Masters(net) && to in Masters(net) && from != to ==> Delivered(net, steps, from, to)
    ensures forall k :: 0 <= k < |steps| ==> steps[k].at in net.nodes
    ensures top in Masters(net) && forall at :: at in Masters(net) && at != top ==> Above(net, top, at)
    ensures Masters(Moved(net, steps)) == {top}
  {
    top := Greatest(net, Masters(net));
    DeliveriesElect(net, vrid, Masters(net), steps);
    TopUnbeaten(net, vrid, Masters(net), steps, top);
    var net' := Moved(net, steps);
    forall at | at in net.nodes
      ensures IsMaster(net', at) <==> at == top
    {
      if IsMaster(net, at) && at != top {
        assert at in Masters(net) && Delivered(net, steps, top, at) && Above(net, top, at);
        assert Beaten(net, steps, at);
      }
    }
    OneLeft(net', top);
  }

  lemma OneLeft(net: Net, top: Ipv4)
    requires top in net.nodes && forall at :: at in net.nodes ==> (IsMaster(net, at) <==> at == top)
    ensures Masters(net) == {top}
  {
  }

  /** Nobody above the top sends. */
  lemma TopUnbeaten(net: Net, vrid: byte, senders: set<Ipv4>, steps: seq<Step>, top: Ipv4)
    requires Inv(net, vrid) && Deliveries(net, senders, steps) && senders <= net.nodes.Keys
    requires top in senders && forall at :: at in senders && at != top ==> Above(net, top, at)
    ensures !Beaten(net, steps, top)
  {
    forall from | from in net.nodes && Delivered(net, steps, from, top)
      ensures !Above(net, from, top)
    {
      HeardFromSender(net, vrid, senders, steps, top, from);
    }
  }

  lemma HeardFromSender(net: Net, vrid: byte, senders: set<Ipv4>, steps: seq<Step>, at: Ipv4, from: Ipv4)
    requires Inv(net, vrid) && Deliveries(net, senders, steps) && Delivered(net, steps, from, at)
    ensures from in senders && from != at
  {
    var k :| 0 <= k < |steps| && steps[k].at == at && Delivers(net, steps[k], from);
    assert FromOne(net, senders, steps[k]);
    var sender :| sender in senders && Delivers(net, steps[k], sender);
    OneSender(net, vrid, steps[k], from, sender);
  }
}
