/**
 Replacing a VIP's VRRP instance (src/vips.rs): the old loop is told to stop
 and the new one is started at once, on its own thread, so the two act on one
 address in any order of time. This module says exactly when the address ends up
 with the new instance.
 */
module VrrpReplacement {
  import opened Bytes
  import opened Vrrp
  import opened ControlLoop
  import opened VrrpTiming
  import VrrpCodec

  /** An action and when it was done. */
  datatype Stamped = Stamped(at: Time, action: Action)

  function StampAll(at: Time, actions: seq<Action>): (s: seq<Stamped>)
    ensures |s| == |actions|
    ensures forall k :: 0 <= k < |s| ==> s[k] == Stamped(at, actions[k])
  {
    seq(|actions|, k requires 0 <= k < |actions| => Stamped(at, actions[k]))
  }

  function Actions(s: seq<Stamped>): (a: seq<Action>)
    ensures |a| == |s|
    ensures forall k :: 0 <= k < |s| ==> a[k] == s[k].action
  {
    seq(|s|, k requires 0 <= k < |s| => s[k].action)
  }

  /** A turn's actions: those of the stop and of the health check first, those of the socket after it was read. */
  function StampedTurn(p: Params, l: Loop, i: Input): seq<Stamped> {
    var a := Turn(p, l, i).acts;
    var early := if i.stop || l.outcome != Running then |a| else |OnHealthCheck(l, i.healthy, i.begin).acts|;
    StampAll(i.begin, a[..early]) + StampAll(i.end, a[early..])
  }

  function StampedTurns(p: Params, l: Loop, ins: seq<Input>): seq<Stamped> {
    if |ins| == 0 then [] else
    StampedTurns(p, l, ins[..|ins| - 1]) + StampedTurn(p, Turns(p, l, ins[..|ins| - 1]).to, ins[|ins| - 1])
  }

  function StampedRun(p: Params, healthy: bool, now: Time, ins: seq<Input>): seq<Stamped> {
    var first := Begin(p, healthy, now);
    StampAll(now, first.acts) + StampedTurns(p, first.to, ins)
  }

  lemma {:induction false} StampedTurnsActions(p: Params, l: Loop, ins: seq<Input>)
    ensures Actions(StampedTurns(p, l, ins)) == Turns(p, l, ins).acts
  {
    if |ins| > 0 {
      var init := ins[..|ins| - 1];
      StampedTurnsActions(p, l, init);
      var l1 := Turns(p, l, init).to;
      StampedTurnActions(p, l1, ins[|ins| - 1]);
      ActionsConcat(StampedTurns(p, l, init), StampedTurn(p, l1, ins[|ins| - 1]));
    }
  }

  lemma ActionsConcat(a: seq<Stamped>, b: seq<Stamped>)
    ensures Actions(a + b) == Actions(a) + Actions(b)
  {
  }

  lemma StampedTurnActions(p: Params, l: Loop, i: Input)
    ensures Actions(StampedTurn(p, l, i)) == Turn(p, l, i).acts
  {
    var a := Turn(p, l, i).acts;
    var early := if i.stop || l.outcome != Running then |a| else |OnHealthCheck(l, i.healthy, i.begin).acts|;
    SplitStamps(a, early, i.begin, i.end);
  }

  lemma SplitStamps(a: seq<Action>, early: nat, begin: Time, end: Time)
    requires early <= |a|
    ensures Actions(StampAll(begin, a[..early]) + StampAll(end, a[early..])) == a
  {
  }

  lemma StampedRunActions(p: Params, healthy: bool, now: Time, ins: seq<Input>)
    ensures Actions(StampedRun(p, healthy, now, ins)) == Run(p, healthy, now, ins).acts
  {
    var first := Begin(p, healthy, now);
    StampedTurnsActions(p, first.to, ins);
    StampAllActions(now, first.acts);
    ActionsConcat(StampAll(now, first.acts), StampedTurns(p, first.to, ins));
  }

  lemma StampAllActions(at: Time, actions: seq<Action>)
    ensures Actions(StampAll(at, actions)) == actions
  {
  }

  lemma OneMore(p: Params, healthy: bool, from: Time, ins: seq<Input>)
    requires |ins| > 0
    ensures var n := |ins| - 1;
      StampedRun(p, healthy, from, ins)
      == StampedRun(p, healthy, from, ins[..n]) + StampedTurn(p, Run(p, healthy, from, ins[..n]).to, ins[n])
  {
    var n, first := |ins| - 1, Begin(p, healthy, from);
    Regroup(StampAll(from, first.acts), StampedTurns(p, first.to, ins[..n]),
            StampedTurn(p, Turns(p, first.to, ins[..n]).to, ins[n]));
  }

  // ----- two threads, one address ---------------------------------------------

  ghost predicate InTimeOrder(z: seq<Stamped>) {
    forall j, k :: 0 <= j < k < |z| ==> z[j].at <= z[k].at
  }

  predicate NoLater(s: seq<Stamped>, t: Time) {
    forall k :: 0 <= k < |s| ==> s[k].at <= t
  }

  predicate NoEarlier(s: seq<Stamped>, t: Time) {
    forall k :: 0 <= k < |s| ==> s[k].at >= t
  }

  lemma BoundsAppend(a: seq<Stamped>, b: seq<Stamped>, from: Time, t: Time)
    ensures NoEarlier(a, from) && NoEarlier(b, from) ==> NoEarlier(a + b, from)
    ensures NoLater(a, t) && NoLater(b, t) ==> NoLater(a + b, t)
  {
  }

  /** `z` has the elements of `x` and of `y`, each in its own order. */
  ghost predicate Shuffle(x: seq<Stamped>, y: seq<Stamped>, z: seq<Stamped>)
    decreases |z|
  {
    if |z| == 0 then |x| == 0 && |y| == 0 else
    var init, last := z[..|z| - 1], z[|z| - 1];
    || (|x| > 0 && x[|x| - 1] == last && Shuffle(x[..|x| - 1], y, init))
    || (|y| > 0 && y[|y| - 1] == last && Shuffle(x, y[..|y| - 1], init))
  }

  lemma {:induction false} ShuffleContains(x: seq<Stamped>, y: seq<Stamped>, z: seq<Stamped>, e: Stamped)
    requires Shuffle(x, y, z) && e in y
    ensures e in z
    decreases |z|
  {
    var init, last := z[..|z| - 1], z[|z| - 1];
    if |x| > 0 && x[|x| - 1] == last && Shuffle(x[..|x| - 1], y, init) {
      ShuffleContains(x[..|x| - 1], y, init, e);
    } else if e != last {
      assert y == y[..|y| - 1] + [last];
      ShuffleContains(x, y[..|y| - 1], init, e);
    }
  }

  lemma {:induction false} ShuffleRefl(x: seq<Stamped>)
    ensures Shuffle(x, [], x)
  {
    if |x| > 0 {
      ShuffleRefl(x[..|x| - 1]);
    }
  }

  /** The one thread may go on alone. */
  lemma {:induction false} ShuffleLeft(x: seq<Stamped>, y: seq<Stamped>, z: seq<Stamped>, more: seq<Stamped>)
    requires Shuffle(x, y, z)
    ensures Shuffle(x + more, y, z + more)
  {
    if |more| == 0 {
      assert x + more == x && z + more == z;
    } else {
      var init := more[..|more| - 1];
      ShuffleLeft(x, y, z, init);
      assert (x + more)[..|x + more| - 1] == x + init && (z + more)[..|z + more| - 1] == z + init;
    }
  }

  /** So may the other. */
  lemma {:induction false} ShuffleRight(x: seq<Stamped>, y: seq<Stamped>, z: seq<Stamped>, more: seq<Stamped>)
    requires Shuffle(x, y, z)
    ensures Shuffle(x, y + more, z + more)
  {
    if |more| == 0 {
      assert y + more == y && z + more == z;
    } else {
      var init := more[..|more| - 1];
      ShuffleRight(x, y, z, init);
      assert (y + more)[..|y + more| - 1] == y + init && (z + more)[..|z + more| - 1] == z + init;
    }
  }

  // ----- the last call decides --------------------------------------------------

  /** The last claim or release, and when. */
  function LastCall(s: seq<Stamped>): Option<Stamped> {
    if |s| == 0 then None
    else if s[|s| - 1].action.Send? then LastCall(s[..|s| - 1])
    else Some(s[|s| - 1])
  }

  lemma {:induction false} LastCallHeld(s: seq<Stamped>)
    ensures Held(Actions(s)) <==> LastCall(s).Some? && LastCall(s).value.action == Claim
  {
    if |s| > 0 {
      assert Actions(s)[..|s| - 1] == Actions(s[..|s| - 1]);
      LastCallHeld(s[..|s| - 1]);
    }
  }

  lemma {:induction false} LastCallIn(s: seq<Stamped>)
    requires LastCall(s).Some?
    ensures LastCall(s).value in s
  {
    if s[|s| - 1].action.Send? {
      LastCallIn(s[..|s| - 1]);
    }
  }

  lemma {:induction false} LastCallAppend(a: seq<Stamped>, b: seq<Stamped>)
    ensures LastCall(a + b) == if LastCall(b).Some? then LastCall(b) else LastCall(a)
  {
    if |b| == 0 {
      assert a + b == a;
    } else {
      assert (a + b)[..|a + b| - 1] == a + b[..|b| - 1];
      LastCallAppend(a, b[..|b| - 1]);
    }
  }

  /** In order of time, the last call of two threads is the later of theirs. */
  lemma {:induction false} LastCallWins(x: seq<Stamped>, y: seq<Stamped>, z: seq<Stamped>, t: Time)
    requires Shuffle(x, y, z) && InTimeOrder(z)
    requires NoLater(x, t)
    ensures LastCall(z) == LastCall(x) || LastCall(z) == LastCall(y)
    ensures LastCall(y).Some? && LastCall(y).value.at > t ==> LastCall(z) == LastCall(y)
    decreases |z|
  {
    if |z| > 0 {
      var init, last := z[..|z| - 1], z[|z| - 1];
      if |x| > 0 && x[|x| - 1] == last && Shuffle(x[..|x| - 1], y, init) {
        LastCallWins(x[..|x| - 1], y, init, t);
        if LastCall(y).Some? {
          LastCallIn(y);
          ShuffleContains(x[..|x| - 1], y, init, LastCall(y).value);
          assert LastCall(y).value.at <= last.at <= t;
        }
      } else {
        LastCallWins(x, y[..|y| - 1], init, t);
      }
    }
  }

  // ----- when the new instance acts -------------------------------------------

  /** When the last turn ended. */
  function Ended(from: Time, ins: seq<Input>): Time {
    if |ins| == 0 then from else ins[|ins| - 1].end
  }

  /** Each turn after the one before, none before `from`. */
  predicate InOrder(from: Time, ins: seq<Input>) {
    |ins| == 0 ||
    var init, last := ins[..|ins| - 1], ins[|ins| - 1];
    InOrder(from, init) && Ended(from, init) <= last.begin <= last.end
  }

  lemma {:induction false} EndsAfter(from: Time, ins: seq<Input>)
    requires InOrder(from, ins)
    ensures from <= Ended(from, ins)
  {
    if |ins| > 0 {
      EndsAfter(from, ins[..|ins| - 1]);
    }
  }

  /** What this turn hears is no resignation and no Master faster than once a second. */
  predicate CalmTurn(p: Params, i: Input) {
    i.recv.Datagram? ==>
      var parsed := VrrpCodec.ParseAdvertisement(i.recv.bytes, p.vrid);
      parsed.Some? ==> parsed.value.priority != 0 && parsed.value.interval >= 100
  }

  /** Everything heard up to time `t` is calm. */
  ghost predicate Calm(p: Params, ins: seq<Input>, t: Time) {
    forall k :: 0 <= k < |ins| && ins[k].end <= t ==> CalmTurn(p, ins[k])
  }

  /** Waiting: still a Backup, its timer at least three seconds from the start. */
  predicate Waiting(l: Loop, from: Time) {
    l.vr.state == Backup && (l.outcome == Running ==> l.deadline >= from + 3000)
  }

  lemma WaitingTurn(p: Params, l: Loop, i: Input, from: Time, t: Time)
    requires Good(p, l) && Waiting(l, from) && from <= i.begin <= i.end
    requires CalmTurn(p, i) && i.end <= t < from + 3000
    ensures Waiting(Turn(p, l, i).to, from) && Turn(p, l, i).acts == []
  {
    if l.outcome == Running && !i.stop {
      var l1 := OnHealthCheck(l, i.healthy, i.begin).to;
      assert Waiting(l1, from) && OnHealthCheck(l, i.healthy, i.begin).acts == [];
      match i.recv {
        case Datagram(bytes) =>
          var parsed := VrrpCodec.ParseAdvertisement(bytes, p.vrid);
          assert parsed.Some? ==> Waiting(OnPeer(p, l1, parsed.value, i.end).to, from);
        case _ =>
      }
    }
  }

  lemma CalmPrefix(p: Params, ins: seq<Input>, n: nat, t: Time)
    requires Calm(p, ins, t) && n <= |ins|
    ensures Calm(p, ins[..n], t)
  {
    assert forall k :: 0 <= k < n ==> ins[..n][k] == ins[k];
  }

  /** Until `t` the new instance waits. */
  lemma {:induction false} WaitsUntil(p: Params, healthy: bool, from: Time, ins: seq<Input>, t: Time)
    requires 0 < p.priority && !(p.priority == 255 && healthy)
    requires InOrder(from, ins) && Calm(p, ins, t) && from <= t < from + 3000
    requires Ended(from, ins) <= t
    ensures Waiting(Run(p, healthy, from, ins).to, from)
  {
    if |ins| > 0 {
      var n := |ins| - 1;
      EndsAfter(from, ins[..n]);
      CalmPrefix(p, ins, n, t);
      WaitsUntil(p, healthy, from, ins[..n], t);
      RunKeeps(p, healthy, from, ins[..n]);
      WaitingTurn(p, Run(p, healthy, from, ins[..n]).to, ins[n], from, t);
    }
  }

  /** So whatever it does, it does after `t`. */
  lemma {:induction false} ActsLate(p: Params, healthy: bool, from: Time, ins: seq<Input>, t: Time)
    requires 0 < p.priority && !(p.priority == 255 && healthy)
    requires InOrder(from, ins) && Calm(p, ins, t) && from <= t < from + 3000
    ensures NoEarlier(StampedRun(p, healthy, from, ins), t + 1)
  {
    if |ins| > 0 {
      var n := |ins| - 1;
      CalmPrefix(p, ins, n, t);
      ActsLate(p, healthy, from, ins[..n], t);
      LastTurnLate(p, healthy, from, ins, t);
      OneMore(p, healthy, from, ins);
      BoundsAppend(StampedRun(p, healthy, from, ins[..n]), StampedTurn(p, Run(p, healthy, from, ins[..n]).to, ins[n]), t + 1, 0);
    }
  }

  lemma LastTurnLate(p: Params, healthy: bool, from: Time, ins: seq<Input>, t: Time)
    requires 0 < p.priority && !(p.priority == 255 && healthy) && |ins| > 0
    requires InOrder(from, ins) && Calm(p, ins, t) && from <= t < from + 3000
    ensures NoEarlier(StampedTurn(p, Run(p, healthy, from, ins[..|ins| - 1]).to, ins[|ins| - 1]), t + 1)
  {
    var n := |ins| - 1;
    var l := Run(p, healthy, from, ins[..n]).to;
    EndsAfter(from, ins[..n]);
    if Ended(from, ins[..n]) > t {
      StampsOfTurn(p, l, ins[n]);
    } else {
      CalmPrefix(p, ins, n, t);
      WaitsUntil(p, healthy, from, ins[..n], t);
      if ins[n].end > t {
        LateTurn(p, l, ins[n], from, t);
      } else {
        RunKeeps(p, healthy, from, ins[..n]);
        WaitingTurn(p, l, ins[n], from, t);
      }
    }
  }

  lemma StampsOfTurn(p: Params, l: Loop, i: Input)
    ensures forall k :: 0 <= k < |StampedTurn(p, l, i)| ==> StampedTurn(p, l, i)[k].at in {i.begin, i.end}
  {
  }

  /** A turn that starts waiting and ends after `t` acts, if at all, after `t`. */
  lemma LateTurn(p: Params, l: Loop, i: Input, from: Time, t: Time)
    requires Waiting(l, from) && i.end > t
    ensures NoEarlier(StampedTurn(p, l, i), t + 1)
  {
  }

  /** A run's actions are in order of time, none before it begins or after its last turn. */
  lemma {:induction false} StampsInOrder(p: Params, healthy: bool, from: Time, ins: seq<Input>)
    requires InOrder(from, ins)
    ensures var s := StampedRun(p, healthy, from, ins);
      InTimeOrder(s) && NoEarlier(s, from) && NoLater(s, Ended(from, ins))
  {
    if |ins| > 0 {
      var n := |ins| - 1;
      StampsInOrder(p, healthy, from, ins[..n]);
      EndsAfter(from, ins[..n]);
      var l := Run(p, healthy, from, ins[..n]).to;
      TurnInOrder(p, l, ins[n]);
      OrderedAppend(StampedRun(p, healthy, from, ins[..n]), StampedTurn(p, l, ins[n]), ins[n].begin);
      BoundsAppend(StampedRun(p, healthy, from, ins[..n]), StampedTurn(p, l, ins[n]), from, ins[n].end);
      OneMore(p, healthy, from, ins);
    }
  }

  lemma TurnInOrder(p: Params, l: Loop, i: Input)
    requires i.begin <= i.end
    ensures var s := StampedTurn(p, l, i);
      InTimeOrder(s) && NoEarlier(s, i.begin) && NoLater(s, i.end)
  {
    var a := Turn(p, l, i).acts;
    SplitInOrder(a, if i.stop || l.outcome != Running then |a| else |OnHealthCheck(l, i.healthy, i.begin).acts|, i.begin, i.end);
  }

  lemma SplitInOrder(a: seq<Action>, early: nat, begin: Time, end: Time)
    requires early <= |a| && begin <= end
    ensures var s := StampAll(begin, a[..early]) + StampAll(end, a[early..]);
      InTimeOrder(s) && NoEarlier(s, begin) && NoLater(s, end)
  {
  }

  lemma OrderedAppend(a: seq<Stamped>, b: seq<Stamped>, t: Time)
    requires InTimeOrder(a) && InTimeOrder(b) && NoLater(a, t) && NoEarlier(b, t)
    ensures InTimeOrder(a + b)
  {
  }

  // ----- handing over --------------------------------------------------------------

  /** An instance and its life so far. */
  datatype Life = Life(p: Params, healthy: bool, from: Time, ins: seq<Input>)

  function End(v: Life): Loop {
    Run(v.p, v.healthy, v.from, v.ins).to
  }

  function Acts(v: Life): seq<Stamped> {
    StampedRun(v.p, v.healthy, v.from, v.ins)
  }

  function Until(v: Life): Time {
    Ended(v.from, v.ins)
  }

  ghost predicate IsLife(v: Life) {
    0 < v.p.priority && InOrder(v.from, v.ins)
  }

  /** The instance has stopped by time `t`. */
  ghost predicate StoppedBy(v: Life, t: Time) {
    IsLife(v) && End(v).outcome == Stopped && Until(v) <= t
  }

  /** The last call of the instance is a claim, made at or before `t`. */
  predicate ClaimedBy(v: Life, t: Time) {
    var c := LastCall(Acts(v));
    c.Some? && c.value.action == Claim && c.value.at <= t
  }

  /** One order of time that the two threads' actions can come in. */
  ghost predicate Interleaved(was: Life, young: Life, t: Time, z: seq<Stamped>) {
    StoppedBy(was, t) && Shuffle(Acts(was), Acts(young), z) && InTimeOrder(z)
  }

  lemma LifeHeld(v: Life)
    requires 0 < v.p.priority
    ensures Held(Actions(Acts(v))) <==> HoldsAddress(End(v))
  {
    StampedRunActions(v.p, v.healthy, v.from, v.ins);
    HeldExactlyWhileMaster(v.p, v.healthy, v.from, v.ins);
  }

  /**
   Once the old instance has stopped the address is held exactly if the new
   one holds it, unless the new one holds it by a claim from before that.
   */
  lemma HandsOver(was: Life, young: Life, t: Time, z: seq<Stamped>)
    requires IsLife(young) && Interleaved(was, young, t, z) && !ClaimedBy(young, t)
    ensures Held(Actions(z)) <==> HoldsAddress(End(young))
  {
    StampsInOrder(was.p, was.healthy, was.from, was.ins);
    LastCallWins(Acts(was), Acts(young), z, t);
    LastCallHeld(z);
    LastCallHeld(Acts(was));
    LastCallHeld(Acts(young));
    LifeHeld(was);
    LifeHeld(young);
  }

  /** However the instance `was` goes on until it stops, by `t`, and the threads interleave, the new one decides. */
  ghost predicate HandedOver(was: Life, young: Life, t: Time) {
    forall all, z :: was.ins <= all && Interleaved(was.(ins := all), young, t, z)
      ==> (Held(Actions(z)) <==> HoldsAddress(End(young)))
  }

  /** A Master that is still running. */
  ghost predicate IsMaster(v: Life) {
    IsLife(v) && End(v).outcome == Running && HoldsAddress(End(v))
  }

  /**
   Exactly when a Master hands over to the instance that replaces it, by time
   `t` at the latest: unless the new one holds the address by a claim made at
   or before `t`, which the old one's release can follow.
   */
  lemma HandedOverExactlyWhen(was: Life, young: Life, t: Time)
    requires IsMaster(was) && IsLife(young) && Until(was) <= young.from <= t
    ensures HandedOver(was, young, t) <==> !ClaimedBy(young, t)
  {
    if ClaimedBy(young, t) {
      ReleaseAfter(was, young, t);
    } else {
      forall all, z | was.ins <= all && Interleaved(was.(ins := all), young, t, z)
        ensures Held(Actions(z)) <==> HoldsAddress(End(young))
      {
        HandsOver(was.(ins := all), young, t, z);
      }
    }
  }

  /** How many of the actions, in order of time, are at or before `t`. */
  function UpTo(s: seq<Stamped>, t: Time): (n: nat)
    ensures n <= |s|
    ensures n > 0 ==> s[n - 1].at <= t
    ensures n < |s| ==> s[n].at > t
  {
    if |s| == 0 then 0 else if s[|s| - 1].at <= t then |s| else UpTo(s[..|s| - 1], t)
  }

  lemma UpToSplits(s: seq<Stamped>, t: Time)
    requires InTimeOrder(s)
    ensures var n := UpTo(s, t);
      NoLater(s[..n], t) && NoEarlier(s[n..], t + 1)
  {
  }

  lemma PartsInOrder(s: seq<Stamped>, n: nat)
    requires InTimeOrder(s) && n <= |s|
    ensures InTimeOrder(s[..n]) && InTimeOrder(s[n..])
  {
  }

  /** A stop at `t`, as a Master makes it. */
  function Stops(t: Time): seq<Stamped> {
    [Stamped(t, Send(0)), Stamped(t, Release)]
  }

  /** What the one did, the other up to `t`, the one's stop, and the rest of the other. */
  function StopsBetween(x: seq<Stamped>, y: seq<Stamped>, t: Time): seq<Stamped> {
    ((x + y[..UpTo(y, t)]) + Stops(t)) + y[UpTo(y, t)..]
  }

  lemma BetweenInOrder(x: seq<Stamped>, y: seq<Stamped>, from: Time, t: Time)
    requires InTimeOrder(x) && InTimeOrder(y) && from <= t
    requires NoLater(x, from) && NoEarlier(y, from)
    ensures InTimeOrder(StopsBetween(x, y, t))
  {
    UpToSplits(y, t);
    PartsInOrder(y, UpTo(y, t));
    SandwichInOrder(x, y[..UpTo(y, t)], y[UpTo(y, t)..], from, t);
  }

  lemma ReleaseComesLast(x: seq<Stamped>, y: seq<Stamped>, t: Time)
    requires InTimeOrder(y) && LastCall(y).Some? && LastCall(y).value.at <= t
    ensures Shuffle(x + Stops(t), y, StopsBetween(x, y, t)) && !Held(Actions(StopsBetween(x, y, t)))
  {
    var n := UpTo(y, t);
    UpToSplits(y, t);
    assert y == y[..n] + y[n..];
    Sandwich(x, y[..n], Stops(t), y[n..]);
    ReleasedLast(x, y[..n], y[n..], t);
  }

  /** The old instance stops at `t`, after the new one's claim. */
  lemma ReleaseAfter(was: Life, young: Life, t: Time)
    requires IsMaster(was) && IsLife(young) && Until(was) <= young.from <= t && ClaimedBy(young, t)
    ensures var all := was.ins + [Input(true, true, t, TimedOut, t, true)];
      var z := StopsBetween(Acts(was), Acts(young), t);
      Interleaved(was.(ins := all), young, t, z) && HoldsAddress(End(young)) && !Held(Actions(z))
  {
    StopsAt(was, Input(true, true, t, TimedOut, t, true));
    StampsInOrder(was.p, was.healthy, was.from, was.ins);
    StampsInOrder(young.p, young.healthy, young.from, young.ins);
    BetweenInOrder(Acts(was), Acts(young), young.from, t);
    ReleaseComesLast(Acts(was), Acts(young), t);
    LastCallHeld(Acts(young));
    LifeHeld(young);
  }

  lemma StopsAt(was: Life, stop: Input)
    requires IsMaster(was) && stop.stop && Until(was) <= stop.begin == stop.end
    ensures var v := was.(ins := was.ins + [stop]);
      StoppedBy(v, stop.end) && Acts(v) == Acts(was) + Stops(stop.begin)
  {
    var all := was.ins + [stop];
    assert all[..|all| - 1] == was.ins;
    OneMore(was.p, was.healthy, was.from, all);
    StopTurn(was.p, End(was), stop);
  }

  lemma StopTurn(p: Params, l: Loop, stop: Input)
    requires stop.stop && l.outcome == Running && l.vr.state == Master
    ensures StampedTurn(p, l, stop) == Stops(stop.begin)
    ensures Turn(p, l, stop).to.outcome == Stopped
  {
  }

  lemma Sandwich(x: seq<Stamped>, y1: seq<Stamped>, more: seq<Stamped>, y2: seq<Stamped>)
    ensures Shuffle(x + more, y1 + y2, ((x + y1) + more) + y2)
  {
    Inserted(x, more, y1);
    ShuffleRight(x + more, y1, (x + y1) + more, y2);
  }

  lemma SandwichInOrder(x: seq<Stamped>, y1: seq<Stamped>, y2: seq<Stamped>, from: Time, t: Time)
    requires InTimeOrder(x) && InTimeOrder(y1) && InTimeOrder(y2) && from <= t
    requires NoLater(x, from) && NoEarlier(y1, from) && NoLater(y1, t) && NoEarlier(y2, t)
    ensures InTimeOrder(((x + y1) + Stops(t)) + y2)
  {
    OrderedAppend(x, y1, from);
    BoundsAppend(x, y1, 0, t);
    OrderedAppend(x + y1, Stops(t), t);
    BoundsAppend(x + y1, Stops(t), 0, t);
    OrderedAppend((x + y1) + Stops(t), y2, t);
  }

  lemma ReleasedLast(x: seq<Stamped>, y1: seq<Stamped>, y2: seq<Stamped>, t: Time)
    requires LastCall(y1 + y2).Some? && LastCall(y1 + y2).value.at <= t
    requires NoEarlier(y2, t + 1)
    ensures !Held(Actions(((x + y1) + Stops(t)) + y2))
  {
    var z := (x + y1) + Stops(t);
    LastCallAppend(y1, y2);
    if LastCall(y2).Some? {
      LastCallIn(y2);
    }
    LastCallAppend(z, y2);
    LastCallHeld(z + y2);
  }

  // ----- which replacements are safe -------------------------------------------------

  /** Less than three seconds in, and nothing but calm heard up to then. */
  ghost predicate CalmUpTo(young: Life, t: Time) {
    young.from <= t < young.from + 3000 && Calm(young.p, young.ins, t)
  }

  /** Whatever is heard that is calm, and however long under three seconds the old instance takes to stop. */
  ghost predicate AlwaysHandsOver(was: Life, p: Params, healthy: bool, from: Time) {
    forall ins, t :: InOrder(from, ins) && CalmUpTo(Life(p, healthy, from, ins), t)
      ==> HandedOver(was, Life(p, healthy, from, ins), t)
  }

  lemma NoClaimBy(p: Params, healthy: bool, from: Time, ins: seq<Input>, t: Time)
    requires 0 < p.priority && !(p.priority == 255 && healthy)
    requires InOrder(from, ins) && Calm(p, ins, t) && from <= t < from + 3000
    ensures !ClaimedBy(Life(p, healthy, from, ins), t)
  {
    var young := Life(p, healthy, from, ins);
    ActsLate(p, healthy, from, ins, t);
    if LastCall(Acts(young)).Some? {
      LastCallIn(Acts(young));
    }
  }

  /**
   Exactly which new instances are safe after a Master when all is calm: every
   one but a healthy priority-255 one, which claims at once, so that the old
   one's release comes after its claim.
   */
  lemma CalmHandsOverExactlyWhen(was: Life, p: Params, healthy: bool, from: Time)
    requires IsMaster(was) && Until(was) <= from && 0 < p.priority
    ensures AlwaysHandsOver(was, p, healthy, from) <==> !(p.priority == 255 && healthy)
  {
    if p.priority == 255 && healthy {
      var young := Life(p, healthy, from, []);
      OwnerClaims(young);
      HandedOverExactlyWhen(was, young, from);
    } else {
      forall ins, t | InOrder(from, ins) && CalmUpTo(Life(p, healthy, from, ins), t)
        ensures HandedOver(was, Life(p, healthy, from, ins), t)
      {
        NoClaimBy(p, healthy, from, ins, t);
        HandedOverExactlyWhen(was, Life(p, healthy, from, ins), t);
      }
    }
  }

  lemma OwnerClaims(young: Life)
    requires young.p.priority == 255 && young.healthy && young.ins == []
    ensures Acts(young) == [Stamped(young.from, Claim)] && ClaimedBy(young, young.from)
  {
  }

  // ----- how soon the old one has stopped --------------------------------------------

  /** The turn's read returns within its timeout. */
  predicate Prompt(l: Loop, i: Input) {
    i.end <= i.begin + ReadTimeout(OnHealthCheck(l, i.healthy, i.begin).to, i.begin)
  }

  /**
   A Master whose stop flag is set at `from`: its last turn began before that,
   read promptly, and ended after; the next will find the flag.
   */
  ghost predicate Flagged(was: Life, from: Time) {
    && IsMaster(was) && |was.ins| > 0 && from <= Until(was)
    && var k := |was.ins| - 1;
       was.ins[k].begin < from && Prompt(Run(was.p, was.healthy, was.from, was.ins[..k]).to, was.ins[k])
  }

  /** It stops at once in that turn. */
  function Stopping(was: Life): Life {
    was.(ins := was.ins + [Input(true, true, Until(was), TimedOut, Until(was), true)])
  }

  /** So it has stopped within half a second of the flag. */
  lemma StopsSoon(was: Life, from: Time)
    requires Flagged(was, from)
    ensures Until(was) < from + 500 && StoppedBy(Stopping(was), Until(was))
    ensures Acts(Stopping(was)) == Acts(was) + Stops(Until(was))
  {
    StopsAt(was, Input(true, true, Until(was), TimedOut, Until(was), true));
  }

  /** Whatever the new instance hears that is calm, and however the threads interleave. */
  ghost predicate SoonHandsOver(was: Life, p: Params, healthy: bool, from: Time) {
    forall ins, z :: InOrder(from, ins) && Calm(p, ins, from + 500)
        && Interleaved(Stopping(was), Life(p, healthy, from, ins), from + 500, z)
      ==> (Held(Actions(z)) <==> HoldsAddress(End(Life(p, healthy, from, ins))))
  }

  /**
   So a replacement is safe if half a second is calm, exactly if the new
   instance is not a healthy one of priority 255.
   */
  lemma SoonHandsOverExactlyWhen(was: Life, p: Params, healthy: bool, from: Time)
    requires Flagged(was, from) && 0 < p.priority
    ensures SoonHandsOver(was, p, healthy, from) <==> !(p.priority == 255 && healthy)
  {
    if p.priority == 255 && healthy {
      OwnerLosesIt(was, Life(p, healthy, from, []));
    } else {
      forall ins, z | InOrder(from, ins) && Calm(p, ins, from + 500)
          && Interleaved(Stopping(was), Life(p, healthy, from, ins), from + 500, z)
        ensures Held(Actions(z)) <==> HoldsAddress(End(Life(p, healthy, from, ins)))
      {
        SoonHandsOne(was, p, healthy, from, ins, z);
      }
    }
  }

  lemma SoonHandsOne(was: Life, p: Params, healthy: bool, from: Time, ins: seq<Input>, z: seq<Stamped>)
    requires 0 < p.priority && !(p.priority == 255 && healthy)
    requires InOrder(from, ins) && Calm(p, ins, from + 500)
    requires Interleaved(Stopping(was), Life(p, healthy, from, ins), from + 500, z)
    ensures Held(Actions(z)) <==> HoldsAddress(End(Life(p, healthy, from, ins)))
  {
    NoClaimBy(p, healthy, from, ins, from + 500);
    HandsOver(Stopping(was), Life(p, healthy, from, ins), from + 500, z);
  }

  /** The old one's actions around the new one's claim, and then its stop. */
  function ClaimBetween(x: seq<Stamped>, from: Time, t: Time): seq<Stamped> {
    (x[..UpTo(x, from)] + [Stamped(from, Claim)]) + (x[UpTo(x, from)..] + Stops(t))
  }

  lemma BetweenShuffles(x: seq<Stamped>, from: Time, t: Time)
    ensures Shuffle(x + Stops(t), [Stamped(from, Claim)], ClaimBetween(x, from, t))
  {
    InsertedAt(x, UpTo(x, from), [Stamped(from, Claim)], Stops(t));
  }

  lemma InsertedAt(x: seq<Stamped>, n: nat, y: seq<Stamped>, more: seq<Stamped>)
    requires n <= |x|
    ensures Shuffle(x + more, y, (x[..n] + y) + (x[n..] + more))
  {
    Inserted(x[..n], x[n..] + more, y);
    Regroup(x[..n], x[n..], more);
    Cut(x, n);
  }

  lemma Cut(x: seq<Stamped>, n: nat)
    requires n <= |x|
    ensures x[..n] + x[n..] == x
  {
  }

  lemma Inserted(a: seq<Stamped>, b: seq<Stamped>, y: seq<Stamped>)
    ensures Shuffle(a + b, y, (a + y) + b)
  {
    ShuffleRefl(a);
    ShuffleRight(a, [], a, y);
    assert [] + y == y;
    ShuffleLeft(a, y, a + y, b);
  }

  lemma ClaimInOrder(x: seq<Stamped>, from: Time, t: Time)
    requires InTimeOrder(x) && NoLater(x, t) && from <= t
    ensures InTimeOrder(ClaimBetween(x, from, t))
  {
    var n, claim := UpTo(x, from), [Stamped(from, Claim)];
    UpToSplits(x, from);
    PartsInOrder(x, n);
    PartBounds(x, n, t);
    OrderedAround(x[..n], claim, x[n..], Stops(t), from, t);
  }

  lemma PartBounds(x: seq<Stamped>, n: nat, t: Time)
    requires NoLater(x, t) && n <= |x|
    ensures NoLater(x[n..], t)
  {
  }

  lemma OrderedAround(a: seq<Stamped>, b: seq<Stamped>, c: seq<Stamped>, d: seq<Stamped>, from: Time, t: Time)
    requires InTimeOrder(a) && InTimeOrder(b) && InTimeOrder(c) && InTimeOrder(d) && from <= t
    requires NoLater(a, from) && NoEarlier(b, from) && NoLater(b, from)
    requires NoEarlier(c, from) && NoLater(c, t) && NoEarlier(d, t)
    ensures InTimeOrder((a + b) + (c + d))
  {
    OrderedAppend(c, d, t);
    BoundsAppend(c, d, from, t);
    OrderedAppend(a, b, from);
    BoundsAppend(a, b, 0, from);
    OrderedAppend(a + b, c + d, from);
  }

  lemma StopIsLast(x: seq<Stamped>, t: Time)
    ensures !Held(Actions(x + Stops(t)))
  {
    LastCallAppend(x, Stops(t));
    LastCallHeld(x + Stops(t));
  }

  lemma OwnerLosesIt(was: Life, young: Life)
    requires Flagged(was, young.from) && young.p.priority == 255 && young.healthy && young.ins == []
    ensures var z := ClaimBetween(Acts(was), young.from, Until(was));
      && Interleaved(Stopping(was), young, young.from + 500, z)
      && HoldsAddress(End(young)) && !Held(Actions(z))
  {
    var x, t := Acts(was), Until(was);
    StopsSoon(was, young.from);
    OwnerClaims(young);
    StampsInOrder(was.p, was.healthy, was.from, was.ins);
    BetweenShuffles(x, young.from, t);
    ClaimInOrder(x, young.from, t);
    var n := UpTo(x, young.from);
    StopIsLast((x[..n] + [Stamped(young.from, Claim)]) + x[n..], t);
    Regroup(x[..n] + [Stamped(young.from, Claim)], x[n..], Stops(t));
  }

  /** A new instance that starts as a Backup. */
  function NewBackup(p: Params): Router {
    NewRouter(p.vrid, p.priority, p.preempt, p.secs).(state := Backup)
  }

  /** A resignation, or an advertisement of a Master that the new Backup follows. */
  predicate SetsTimer(p: Params, bytes: seq<byte>) {
    var parsed := VrrpCodec.ParseAdvertisement(bytes, p.vrid);
    parsed.Some? && parsed.value.src != p.us && (parsed.value.priority == 0 || Follows(NewBackup(p), parsed.value.priority))
  }

  /** How long it then waits: Skew_Time, or the master-down time of that Master's interval; in milliseconds. */
  function WaitAfter(p: Params, bytes: seq<byte>): nat
    requires SetsTimer(p, bytes)
  {
    var a := VrrpCodec.ParseAdvertisement(bytes, p.vrid).value;
    10 * if a.priority == 0 then Skew(NewBackup(p)) else MasterDown(NewBackup(p).(learned := Max(a.interval, 1)))
  }

  /** Two turns of a new instance: it hears `bytes` at once, and nothing more before `wake`. */
  function HearsThenWaits(bytes: seq<byte>, from: Time, wake: Time): seq<Input> {
    [Input(false, true, from, Datagram(bytes), from, true), Input(false, true, from, TimedOut, wake, true)]
  }

  /**
   Calm is needed: a new Backup that at its start hears a resignation, or a
   Master it follows, claims the address as soon as the wait that sets is over.
   If the old instance can still be running then, the address can be lost.
   */
  lemma EarlyClaimLosesIt(was: Life, p: Params, healthy: bool, from: Time, bytes: seq<byte>, wake: Time, t: Time)
    requires IsMaster(was) && Until(was) <= from && 0 < p.priority && !(p.priority == 255 && healthy)
    requires SetsTimer(p, bytes) && from + WaitAfter(p, bytes) == wake <= t
    ensures var young := Life(p, healthy, from, HearsThenWaits(bytes, from, wake));
      IsLife(young) && !HandedOver(was, young, t)
  {
    ClaimsEarly(p, healthy, from, bytes, wake);
    HandedOverExactlyWhen(was, Life(p, healthy, from, HearsThenWaits(bytes, from, wake)), t);
  }

  /** Such an instance: one of priority 255 that starts unhealthy, advertises every one or two seconds, and hears a resignation. */
  lemma ResignationLosesIt(was: Life, p: Params, from: Time, bytes: seq<byte>)
    requires IsMaster(was) && Until(was) <= from && p.priority == 255 && p.secs <= 2
    requires SetsTimer(p, bytes) && VrrpCodec.ParseAdvertisement(bytes, p.vrid).value.priority == 0
    ensures !HandedOver(was, Life(p, false, from, HearsThenWaits(bytes, from, from)), from)
  {
    NoWait(p, bytes);
    EarlyClaimLosesIt(was, p, false, from, bytes, from, from);
  }

  lemma NoWait(p: Params, bytes: seq<byte>)
    requires p.priority == 255 && p.secs <= 2
    requires SetsTimer(p, bytes) && VrrpCodec.ParseAdvertisement(bytes, p.vrid).value.priority == 0
    ensures WaitAfter(p, bytes) == 0
  {
    assert Product(1, NewBackup(p).learned) == NewBackup(p).learned;
  }

  lemma ClaimsEarly(p: Params, healthy: bool, from: Time, bytes: seq<byte>, wake: Time)
    requires 0 < p.priority && !(p.priority == 255 && healthy)
    requires SetsTimer(p, bytes) && from + WaitAfter(p, bytes) == wake
    ensures var young := Life(p, healthy, from, HearsThenWaits(bytes, from, wake));
      IsLife(young) && ClaimedBy(young, wake)
  {
    var ins := HearsThenWaits(bytes, from, wake);
    TwoTurns(p, healthy, from, ins[0], ins[1]);
    HeardTurn(p, Begin(p, healthy, from).to, bytes, from);
    WakeTurn(p, Turn(p, Begin(p, healthy, from).to, ins[0]).to, ins[1]);
  }

  lemma TwoTurns(p: Params, healthy: bool, from: Time, i: Input, j: Input)
    requires from <= i.begin <= i.end <= j.begin <= j.end
    ensures InOrder(from, [i, j])
    ensures var l := Begin(p, healthy, from).to;
      LastCall(StampedTurn(p, Turn(p, l, i).to, j)).Some? ==>
        LastCall(StampedRun(p, healthy, from, [i, j])) == LastCall(StampedTurn(p, Turn(p, l, i).to, j))
  {
    assert [i, j][..1] == [i];
    InOrderAppend(from, [], i);
    assert [] + [i] == [i];
    InOrderAppend(from, [i], j);
    assert [i] + [j] == [i, j];
    OneTurn(p, Begin(p, healthy, from).to, i);
    OneMore(p, healthy, from, [i, j]);
    LastCallAppend(StampedRun(p, healthy, from, [i]), StampedTurn(p, Turn(p, Begin(p, healthy, from).to, i).to, j));
  }

  lemma InOrderAppend(from: Time, ins: seq<Input>, i: Input)
    requires InOrder(from, ins) && Ended(from, ins) <= i.begin <= i.end
    ensures InOrder(from, ins + [i])
  {
    assert (ins + [i])[..|ins|] == ins;
  }

  lemma OneTurn(p: Params, l: Loop, i: Input)
    ensures Turns(p, l, [i]).to == Turn(p, l, i).to
  {
    assert [i][..0] == [];
  }

  lemma HeardTurn(p: Params, l: Loop, bytes: seq<byte>, from: Time)
    requires SetsTimer(p, bytes) && l.vr == NewBackup(p) && l.outcome == Running
    ensures var l' := Turn(p, l, Input(false, true, from, Datagram(bytes), from, true)).to;
      l'.vr.state == Backup && l'.outcome == Running && l'.deadline == from + WaitAfter(p, bytes)
  {
  }

  lemma WakeTurn(p: Params, l: Loop, i: Input)
    requires l.vr.state == Backup && l.outcome == Running && !i.stop && i.recv == TimedOut
    requires i.stillHealthy && i.end >= l.deadline
    ensures LastCall(StampedTurn(p, l, i)) == Some(Stamped(i.end, Claim))
  {
    var l1 := l.(shown := l.vr.state);
    assert OnHealthCheck(l, i.healthy, i.begin) == Did(l1, []);
    assert OnTimeout(p, l1, i.end, true).acts == [Claim];
    assert Turn(p, l, i).acts == [Claim];
    assert StampedTurn(p, l, i) == [Stamped(i.end, Claim)];
  }
}
