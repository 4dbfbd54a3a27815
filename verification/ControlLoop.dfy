/**
 The VRRP control loop of src/vrrp.rs (`run_loop`): the machine of module
 `Vrrp` driven by a socket, a clock, a stop flag and backend health, claiming
 and releasing the address.

 `Turn` is one pass of the loop. What the pass is given (`Input`) is arbitrary:
 every read of the flag, of health, of the clock and of the socket is an input.
 A turn reads the clock twice: `begin` before the socket is read, `end` after.
 Times are milliseconds.
 */
module ControlLoop {
  import opened Bytes
  import opened Vrrp
  import VrrpCodec

  /** The instance's settings; `us` is the interface's own address. */
  datatype Params = Params(vrid: byte, priority: byte, preempt: bool, secs: nat, vip: Ipv4, us: Ipv4)

  /** What the loop does to the world. */
  datatype Action = Claim | Release | Send(priority: byte)

  datatype Recv = Datagram(bytes: seq<byte>) | TimedOut | Error

  datatype Input = Input(stop: bool, healthy: bool, begin: Time, recv: Recv, end: Time, stillHealthy: bool)

  datatype Outcome = Running | Stopped | Failed

  /** `shown` is the state the handle reports. */
  datatype Loop = Loop(vr: Router, nextAdvert: Time, deadline: Time, shown: State, outcome: Outcome)

  /** A step of the loop: where it comes to, and what it does on the way. */
  datatype Did = Did(to: Loop, acts: seq<Action>)

  function Begin(p: Params, healthy: bool, now: Time): Did {
    var vr := Started(NewRouter(p.vrid, p.priority, p.preempt, p.secs), healthy);
    Did(Loop(vr, now, now + 10 * MasterDown(vr), vr.state, Running), if vr.state == Master then [Claim] else [])
  }

  function OnDatagram(p: Params, l: Loop, bytes: seq<byte>, end: Time): Did {
    match VrrpCodec.ParseAdvertisement(bytes, p.vrid)
    case None => Did(l, [])
    case Some(a) => if a.src == p.us then Did(l, []) else OnPeer(p, l, a, end)
  }

  /** An advertisement of somebody else. */
  function OnPeer(p: Params, l: Loop, a: VrrpCodec.Advert, end: Time): Did {
    var (vr, what) := AfterAdvert(l.vr, a.priority, a.src, p.us, a.interval);
    match what
    case Ignore => Did(l.(vr := vr), [])
    case ResetTimer(c) => Did(l.(vr := vr, deadline := end + 10 * c), [])
    case AdvertiseNow => Did(l.(vr := vr, nextAdvert := end), [])
    case Demoted(c) => Did(l.(vr := vr, deadline := end + 10 * c), [Release])
  }

  function OnTimeout(p: Params, l: Loop, end: Time, healthy: bool): Did {
    if l.vr.state == Master && end >= l.nextAdvert then
      Did(l.(nextAdvert := end + 10 * l.vr.interval), [Send(p.priority)])
    else if l.vr.state == Backup && end >= l.deadline then
      var (vr, takeOver) := AfterTimeout(l.vr, healthy);
      if takeOver then Did(l.(vr := vr, nextAdvert := end), [Claim])
      else Did(l.(vr := vr, deadline := end + 10 * MasterDown(vr)), [])
    else Did(l, [])
  }

  /** The health check that starts every turn. */
  function OnHealthCheck(l: Loop, healthy: bool, begin: Time): Did {
    var (vr, resign) := AfterHealth(l.vr, healthy);
    if resign then Did(l.(vr := vr, deadline := begin + 10 * MasterDown(vr), shown := vr.state), [Send(0), Release])
    else Did(l.(vr := vr, shown := vr.state), [])
  }

  /** What the socket brought. */
  function OnSocket(p: Params, l: Loop, i: Input): Did {
    match i.recv
    case Datagram(bytes) => OnDatagram(p, l, bytes, i.end)
    case TimedOut => OnTimeout(p, l, i.end, i.stillHealthy)
    case Error => Did(l.(outcome := Failed, shown := Initialize), [])
  }

  /** The stop flag was found set: a Master resigns and lets go. */
  function OnStop(l: Loop): Did {
    Did(l.(outcome := Stopped, shown := Initialize), if l.vr.state == Master then [Send(0), Release] else [])
  }

  /** One pass of the loop; a loop that has ended does nothing more. */
  function Turn(p: Params, l: Loop, i: Input): Did {
    if l.outcome != Running then Did(l, [])
    else if i.stop then OnStop(l)
    else
      var checked := OnHealthCheck(l, i.healthy, i.begin);
      Then(checked, OnSocket(p, checked.to, i))
  }

  function Then(first: Did, second: Did): Did {
    Did(second.to, first.acts + second.acts)
  }

  /** The loop after the turns `ins`, and everything it did. */
  function Turns(p: Params, l: Loop, ins: seq<Input>): Did {
    if |ins| == 0 then Did(l, []) else
    var before := Turns(p, l, ins[..|ins| - 1]);
    Then(before, Turn(p, before.to, ins[|ins| - 1]))
  }

  /** A whole run: the start, then the turns. */
  function Run(p: Params, healthy: bool, now: Time, ins: seq<Input>): Did {
    var first := Begin(p, healthy, now);
    Then(first, Turns(p, first.to, ins))
  }

  /** The source's loop, with the calls it makes in order. */
  class Instance {
    const p: Params
    const vr: VirtualRouter
    var nextAdvert: Time
    var deadline: Time
    var shown: State
    var outcome: Outcome
    var actions: seq<Action>

    ghost function Value(): Loop
      reads this, vr
    {
      Loop(vr.Value(), nextAdvert, deadline, shown, outcome)
    }

    /** Where the loop is, and everything it did. */
    ghost function SoFar(): Did
      reads this, vr
    {
      Did(Value(), actions)
    }

    constructor (p: Params, healthy: bool, now: Time)
      ensures SoFar() == Begin(p, healthy, now) && this.p == p
      ensures fresh(vr)
    {
      this.p := p;
      var r := new VirtualRouter(p.vrid, p.priority, p.preempt, p.secs);
      var state := r.Start(healthy);
      var down := r.MasterDownCentis();
      vr := r;
      shown := state;
      nextAdvert := now;
      deadline := now + 10 * (down as int);
      actions := if state == Master then [Claim] else [];
      outcome := Running;
    }

    method CheckHealth(healthy: bool, begin: Time)
      modifies this, vr
      ensures SoFar() == Then(old(SoFar()), OnHealthCheck(old(Value()), healthy, begin))
    {
      var resign := vr.OnHealth(healthy);
      if resign {
        actions := actions + [Send(0), Release];
        var down := vr.MasterDownCentis();
        deadline := begin + 10 * (down as int);
      }
      shown := vr.state;
    }

    method Receive(bytes: seq<byte>, end: Time)
      modifies this, vr
      ensures SoFar() == Then(old(SoFar()), OnDatagram(p, old(Value()), bytes, end))
    {
      match VrrpCodec.ParseAdvertisement(bytes, p.vrid) {
        case None =>
        case Some(a) =>
          if a.src != p.us {
            Hear(a, end);
          }
      }
    }

    method Hear(a: VrrpCodec.Advert, end: Time)
      modifies this, vr
      ensures SoFar() == Then(old(SoFar()), OnPeer(p, old(Value()), a, end))
    {
      var what := vr.OnAdvertisement(a.priority, a.src, p.us, a.interval);
      match what {
        case Ignore =>
        case ResetTimer(c) => deadline := end + 10 * (c as int);
        case AdvertiseNow => nextAdvert := end;
        case Demoted(c) =>
          actions := actions + [Release];
          deadline := end + 10 * (c as int);
      }
    }

    method Wake(end: Time, healthy: bool)
      modifies this, vr
      ensures SoFar() == Then(old(SoFar()), OnTimeout(p, old(Value()), end, healthy))
    {
      if vr.state == Master && end >= nextAdvert {
        actions := actions + [Send(p.priority)];
        nextAdvert := end + 10 * (vr.interval as int);
      } else if vr.state == Backup && end >= deadline {
        var takeOver := vr.OnMasterDownTimeout(healthy);
        if takeOver {
          actions := actions + [Claim];
          nextAdvert := end;
        } else {
          var down := vr.MasterDownCentis();
          deadline := end + 10 * (down as int);
        }
      }
    }

    method Listen(i: Input)
      modifies this, vr
      ensures SoFar() == Then(old(SoFar()), OnSocket(p, old(Value()), i))
    {
      match i.recv {
        case Datagram(bytes) => Receive(bytes, i.end);
        case TimedOut => Wake(i.end, i.stillHealthy);
        case Error => outcome, shown := Failed, Initialize;
      }
    }

    method Stop()
      modifies this
      ensures SoFar() == Then(old(SoFar()), OnStop(old(Value())))
    {
      if vr.state == Master {
        actions := actions + [Send(0), Release];
      }
      outcome, shown := Stopped, Initialize;
    }

    /** Turn after turn, until the loop ends or the inputs do. */
    method RunLoop(ins: seq<Input>)
      modifies this, vr
      ensures SoFar() == Then(old(SoFar()), Turns(p, old(Value()), ins))
    {
      var k := 0;
      while k < |ins| && outcome == Running
        invariant 0 <= k <= |ins|
        invariant SoFar() == Then(old(SoFar()), Turns(p, old(Value()), ins[..k]))
      {
        ghost var d := SoFar();
        if ins[k].stop {
          Stop();
        } else {
          CheckHealth(ins[k].healthy, ins[k].begin);
          ghost var checked := OnHealthCheck(d.to, ins[k].healthy, ins[k].begin);
          Listen(ins[k]);
          ThenAssoc(d, checked, OnSocket(p, checked.to, ins[k]));
        }
        assert SoFar() == Then(d, Turn(p, d.to, ins[k]));
        TurnsStep(p, old(SoFar()), ins, k);
        k := k + 1;
      }
      EndedStays(p, old(Value()), ins, k);
    }
  }

  lemma ThenAssoc(a: Did, b: Did, c: Did)
    ensures Then(Then(a, b), c) == Then(a, Then(b, c))
  {
  }

  /** One more turn after `start` and the first `k`. */
  lemma TurnsStep(p: Params, start: Did, ins: seq<Input>, k: nat)
    requires k < |ins|
    ensures var d := Then(start, Turns(p, start.to, ins[..k]));
      Then(start, Turns(p, start.to, ins[..k + 1])) == Then(d, Turn(p, d.to, ins[k]))
  {
    assert ins[..k + 1][..k] == ins[..k];
    var before := Turns(p, start.to, ins[..k]);
    ThenAssoc(start, before, Turn(p, before.to, ins[k]));
  }

  lemma {:induction false} EndedStays(p: Params, l: Loop, ins: seq<Input>, k: nat)
    requires k <= |ins| && (k < |ins| ==> Turns(p, l, ins[..k]).to.outcome != Running)
    ensures Turns(p, l, ins) == Turns(p, l, ins[..k])
  {
    if k == |ins| {
      assert ins[..k] == ins;
    } else {
      var init := ins[..|ins| - 1];
      assert init[..k] == ins[..k];
      EndedStays(p, l, init, k);
      assert Turns(p, l, init).acts + [] == Turns(p, l, init).acts;
    }
  }

  // ----- what every run keeps ------------------------------------------------

  /** The address calls among the actions. */
  function Calls(actions: seq<Action>): (c: seq<Action>)
    ensures |c| <= |actions|
  {
    if |actions| == 0 then []
    else
      var last := actions[|actions| - 1];
      Calls(actions[..|actions| - 1]) + (if last.Send? then [] else [last])
  }

  /** Claim, release, claim, release, and so on. */
  ghost predicate Alternate(calls: seq<Action>) {
    forall k :: 0 <= k < |calls| ==> calls[k] == if k % 2 == 0 then Claim else Release
  }

  /** The last address call was a claim. */
  predicate Held(actions: seq<Action>) {
    |Calls(actions)| > 0 && Calls(actions)[|Calls(actions)| - 1] == Claim
  }

  /** Where a trace stands: nothing held, the address held, or resigning (priority 0 sent, release due). */
  datatype Phase = Idle | Holding | Resigning | Broken

  function Next(ph: Phase, a: Action, priority: byte): Phase {
    match (ph, a)
    case (Idle, Claim) => Holding
    case (Holding, Send(x)) => if x == 0 then Resigning else if x == priority then Holding else Broken
    case (Holding, Release) => Idle
    case (Resigning, Release) => Idle
    case _ => Broken
  }

  /** The grammar of a trace: it reads ((Claim, Send(priority)*, Send(0)?, Release))*, or a prefix of that. */
  function Reads(actions: seq<Action>, priority: byte): Phase {
    if |actions| == 0 then Idle
    else Next(Reads(actions[..|actions| - 1], priority), actions[|actions| - 1], priority)
  }

  lemma ReadsOne(actions: seq<Action>, a: Action, priority: byte)
    ensures Reads(actions + [a], priority) == Next(Reads(actions, priority), a, priority)
  {
    assert (actions + [a])[..|actions|] == actions;
  }

  lemma ReadsTwo(actions: seq<Action>, a: Action, b: Action, priority: byte)
    ensures Reads(actions + [a, b], priority) == Next(Next(Reads(actions, priority), a, priority), b, priority)
  {
    assert actions + [a, b] == (actions + [a]) + [b];
    ReadsOne(actions, a, priority);
    ReadsOne(actions + [a], b, priority);
  }

  /** A trace that follows the grammar alternates, and holds the address exactly between a claim and its release. */
  lemma {:induction false} GrammarAlternates(actions: seq<Action>, priority: byte)
    requires Reads(actions, priority) != Broken
    ensures Alternate(Calls(actions))
    ensures Held(actions) <==> Reads(actions, priority) != Idle
    ensures |Calls(actions)| % 2 == if Reads(actions, priority) == Idle then 0 else 1
  {
    if |actions| > 0 {
      GrammarAlternates(actions[..|actions| - 1], priority);
    }
  }

  /** What every loop head has. */
  predicate Good(p: Params, l: Loop) {
    && l.vr.vrid == p.vrid && l.vr.priority == p.priority && l.vr.preempt == p.preempt
    && l.vr.interval == IntervalCentis(p.secs)
    && l.vr.learned >= 1
    && l.vr.state != Initialize
    && (l.vr.state == Master ==> l.vr.learned == l.vr.interval)
  }

  predicate HoldsAddress(l: Loop) {
    l.vr.state == Master && l.outcome != Stopped
  }

  /** The loop and what it has done so far agree. */
  predicate Kept(p: Params, d: Did) {
    Good(p, d.to) && Reads(d.acts, p.priority) == if HoldsAddress(d.to) then Holding else Idle
  }

  lemma BeginKept(p: Params, healthy: bool, now: Time)
    ensures Kept(p, Begin(p, healthy, now))
  {
  }

  lemma NothingDone(d: Did, l: Loop)
    ensures Then(d, Did(l, [])).acts == d.acts
  {
  }

  lemma HealthCheckKeeps(p: Params, d: Did, healthy: bool, begin: Time)
    requires 0 < p.priority && Kept(p, d) && d.to.outcome == Running
    ensures var d' := Then(d, OnHealthCheck(d.to, healthy, begin));
      Kept(p, d') && d'.to.outcome == Running
  {
    ReadsTwo(d.acts, Send(0), Release, p.priority);
    NothingDone(d, OnHealthCheck(d.to, healthy, begin).to);
  }

  lemma PeerKeeps(p: Params, d: Did, a: VrrpCodec.Advert, end: Time)
    requires Kept(p, d) && d.to.outcome == Running
    ensures Kept(p, Then(d, OnPeer(p, d.to, a, end)))
  {
    ReadsOne(d.acts, Release, p.priority);
    NothingDone(d, OnPeer(p, d.to, a, end).to);
  }

  lemma TimeoutKeeps(p: Params, d: Did, end: Time, healthy: bool)
    requires 0 < p.priority && Kept(p, d) && d.to.outcome == Running
    ensures Kept(p, Then(d, OnTimeout(p, d.to, end, healthy)))
  {
    ReadsOne(d.acts, Claim, p.priority);
    ReadsOne(d.acts, Send(p.priority), p.priority);
    NothingDone(d, OnTimeout(p, d.to, end, healthy).to);
  }

  lemma SocketKeeps(p: Params, d: Did, i: Input)
    requires 0 < p.priority && Kept(p, d) && d.to.outcome == Running
    ensures Kept(p, Then(d, OnSocket(p, d.to, i)))
  {
    NothingDone(d, OnSocket(p, d.to, i).to);
    match i.recv {
      case Datagram(bytes) =>
        var parsed := VrrpCodec.ParseAdvertisement(bytes, p.vrid);
        if parsed.Some? && parsed.value.src != p.us {
          PeerKeeps(p, d, parsed.value, i.end);
        }
      case TimedOut => TimeoutKeeps(p, d, i.end, i.stillHealthy);
      case Error =>
    }
  }

  lemma StopKeeps(p: Params, d: Did)
    requires 0 < p.priority && Kept(p, d) && d.to.outcome == Running
    ensures Kept(p, Then(d, OnStop(d.to)))
  {
    ReadsTwo(d.acts, Send(0), Release, p.priority);
    NothingDone(d, OnStop(d.to).to);
  }

  lemma TurnKeeps(p: Params, d: Did, i: Input)
    requires 0 < p.priority && Kept(p, d)
    ensures Kept(p, Then(d, Turn(p, d.to, i)))
  {
    if d.to.outcome != Running {
      NothingDone(d, d.to);
    } else if i.stop {
      StopKeeps(p, d);
    } else {
      var checked := OnHealthCheck(d.to, i.healthy, i.begin);
      HealthCheckKeeps(p, d, i.healthy, i.begin);
      SocketKeeps(p, Then(d, checked), i);
      ThenAssoc(d, checked, OnSocket(p, checked.to, i));
    }
  }

  lemma RunStep(p: Params, healthy: bool, now: Time, ins: seq<Input>)
    requires |ins| > 0
    ensures var before := Run(p, healthy, now, ins[..|ins| - 1]);
      Run(p, healthy, now, ins) == Then(before, Turn(p, before.to, ins[|ins| - 1]))
  {
    assert ins[..|ins|] == ins;
    TurnsStep(p, Begin(p, healthy, now), ins, |ins| - 1);
  }

  lemma {:induction false} RunKeeps(p: Params, healthy: bool, now: Time, ins: seq<Input>)
    requires 0 < p.priority
    ensures Kept(p, Run(p, healthy, now, ins))
  {
    if |ins| == 0 {
      BeginKept(p, healthy, now);
      NothingDone(Begin(p, healthy, now), Begin(p, healthy, now).to);
    } else {
      RunKeeps(p, healthy, now, ins[..|ins| - 1]);
      RunStep(p, healthy, now, ins);
      TurnKeeps(p, Run(p, healthy, now, ins[..|ins| - 1]), ins[|ins| - 1]);
    }
  }

  /**
   The held-address invariant, in every run: claims and releases strictly
   alternate, starting with a claim, and at every loop head the address is
   held exactly while the state is Master, when the learned interval is our
   own. After a clean stop it is not held; after an error it is held exactly
   if the loop was Master, since that exit releases nothing.
   */
  lemma HeldExactlyWhileMaster(p: Params, healthy: bool, now: Time, ins: seq<Input>)
    requires 0 < p.priority
    ensures var Did(l, a) := Run(p, healthy, now, ins);
      && Alternate(Calls(a))
      && Reads(a, p.priority) != Broken
      && (l.outcome == Running ==> (Held(a) <==> l.vr.state == Master))
      && (l.outcome == Stopped ==> !Held(a))
      && (l.outcome == Failed ==> (Held(a) <==> l.vr.state == Master))
      && (l.vr.state == Master ==> l.vr.learned == l.vr.interval)
  {
    RunKeeps(p, healthy, now, ins);
    GrammarAlternates(Run(p, healthy, now, ins).acts, p.priority);
  }

  /** A Master told to stop resigns and then releases, last; a Backup does nothing. */
  lemma StopResigns(p: Params, healthy: bool, now: Time, ins: seq<Input>, i: Input)
    requires 0 < p.priority && i.stop
    requires Run(p, healthy, now, ins).to.outcome == Running
    ensures var Did(l, a) := Run(p, healthy, now, ins);
      var Did(l', a') := Run(p, healthy, now, ins + [i]);
      && l'.outcome == Stopped && l'.shown == Initialize && !Held(a')
      && a' == (if Held(a) then a + [Send(0), Release] else a)
  {
    assert (ins + [i])[..|ins + [i]| - 1] == ins;
    RunStep(p, healthy, now, ins + [i]);
    NothingDone(Run(p, healthy, now, ins), OnStop(Run(p, healthy, now, ins).to).to);
    HeldExactlyWhileMaster(p, healthy, now, ins);
    HeldExactlyWhileMaster(p, healthy, now, ins + [i]);
  }

  /**
   What one turn's health answers allow: an advertisement of our priority only
   if it began healthy, a claim only if the second answer was good, at or past
   the deadline.
   */
  lemma TurnNeedsHealth(p: Params, l: Loop, i: Input)
    requires 0 < p.priority && Good(p, l)
    ensures var Did(l', a) := Turn(p, l, i);
      && (Send(p.priority) in a ==> i.healthy)
      && (Claim in a ==> i.stillHealthy && i.recv == TimedOut && i.end >= OnHealthCheck(l, i.healthy, i.begin).to.deadline)
      && (!i.healthy && !i.stillHealthy && l.outcome == Running ==> !HoldsAddress(l'))
  {
    if l.outcome == Running && !i.stop {
      var l1 := OnHealthCheck(l, i.healthy, i.begin).to;
      match i.recv {
        case Datagram(bytes) =>
          assert Claim !in OnDatagram(p, l1, bytes, i.end).acts;
        case _ =>
      }
    }
  }

  /**
   What the handle shows: a loop that has ended shows Initialize, and a running
   one whether it was Master, and healthy, when its last turn began.
   */
  lemma ShownExactlyWhen(p: Params, healthy: bool, now: Time, ins: seq<Input>, i: Input)
    requires 0 < p.priority && Run(p, healthy, now, ins).to.outcome == Running
    ensures Run(p, healthy, now, []).to.shown == if p.priority == 255 && healthy then Master else Backup
    ensures Run(p, healthy, now, ins + [i]).to.shown
         == if i.stop || i.recv == Error then Initialize
            else if Held(Run(p, healthy, now, ins).acts) && i.healthy then Master else Backup
  {
    assert (ins + [i])[..|ins + [i]| - 1] == ins;
    RunKeeps(p, healthy, now, ins);
    HeldExactlyWhileMaster(p, healthy, now, ins);
    RunStep(p, healthy, now, ins + [i]);
    TurnShows(p, Run(p, healthy, now, ins).to, i);
  }

  lemma TurnShows(p: Params, l: Loop, i: Input)
    requires l.outcome == Running && l.vr.state != Initialize
    ensures Turn(p, l, i).to.shown
         == if i.stop || i.recv == Error then Initialize else if l.vr.state == Master && i.healthy then Master else Backup
  {
  }

  /** The address's owner, healthy, claims it when it starts, and advertises as soon as its socket has been quiet. */
  lemma OwnerStarts(p: Params, now: Time, i: Input)
    requires p.priority == 255 && !i.stop && i.healthy && i.recv == TimedOut && i.end >= now
    ensures Run(p, true, now, [i]).acts == [Claim, Send(255)]
  {
    RunStep(p, true, now, [i]);
    var l := Begin(p, true, now).to;
    assert OnHealthCheck(l, true, i.begin) == Did(l, []);
  }

  /** What a Master does in a turn that begins unhealthy. */
  lemma UnhealthyTurn(p: Params, l: Loop, i: Input)
    requires Good(p, l) && l.outcome == Running && l.vr.state == Master && !i.healthy
    ensures HoldsAddress(Turn(p, l, i).to)
       <==> !i.stop && i.recv == TimedOut && i.stillHealthy && i.end >= i.begin + 10 * MasterDown(l.vr)
  {
    if !i.stop {
      var l1 := OnHealthCheck(l, false, i.begin).to;
      assert l1.vr.state == Backup && l1.deadline == i.begin + 10 * MasterDown(l.vr);
      if i.recv.Datagram? {
        assert OnDatagram(p, l1, i.recv.bytes, i.end).to.vr.state == Backup;
      }
    }
  }

  /**
   A Master that finds no healthy backend at the start of a turn lets go of the
   address, and has it again at the turn's end exactly if the turn lasts for
   the whole master-down time, at least three seconds, and health is back then.
   */
  lemma UnhealthyMasterLetsGo(p: Params, healthy: bool, now: Time, ins: seq<Input>, i: Input)
    requires 0 < p.priority && !i.healthy
    requires Run(p, healthy, now, ins).to.outcome == Running && Held(Run(p, healthy, now, ins).acts)
    ensures var down := 10 * MasterDown(Run(p, healthy, now, ins).to.vr);
      && down >= 3000
      && (Held(Run(p, healthy, now, ins + [i]).acts)
          <==> !i.stop && i.recv == TimedOut && i.stillHealthy && i.end >= i.begin + down)
  {
    assert (ins + [i])[..|ins + [i]| - 1] == ins;
    RunKeeps(p, healthy, now, ins);
    HeldExactlyWhileMaster(p, healthy, now, ins);
    UnhealthyTurn(p, Run(p, healthy, now, ins).to, i);
    RunStep(p, healthy, now, ins + [i]);
    HeldExactlyWhileMaster(p, healthy, now, ins + [i]);
  }

  /** Ownership follows health: however a turn that found no healthy backend ends, even by an error, the address is let go. */
  lemma OwnershipFollowsHealth(p: Params, healthy: bool, now: Time, ins: seq<Input>, i: Input)
    requires 0 < p.priority && !i.healthy && !i.stillHealthy
    requires Run(p, healthy, now, ins).to.outcome == Running
    ensures !Held(Run(p, healthy, now, ins + [i]).acts)
  {
    assert (ins + [i])[..|ins + [i]| - 1] == ins;
    RunKeeps(p, healthy, now, ins);
    TurnNeedsHealth(p, Run(p, healthy, now, ins).to, i);
    RunStep(p, healthy, now, ins + [i]);
    HeldExactlyWhileMaster(p, healthy, now, ins + [i]);
  }
}
