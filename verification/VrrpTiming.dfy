/**
 Timed properties of the control loop of src/vrrp.rs: how soon a silent Master
 is replaced, when a live one is not, and in which order Backups wake.

 The loop looks at its timers only when a read times out, so what arrives and
 changes nothing still counts: an idle run may bring any number of datagrams
 that the loop ignores, and how late it acts is told by how many of them come
 after the time it was due.
 */
module VrrpTiming {
  import opened Bytes
  import opened Vrrp
  import opened ControlLoop
  import VrrpCodec

  // ----- idle runs -----------------------------------------------------------

  /** The socket's read timeout: until the next wake, at least 10 ms and at most 500 ms. */
  function ReadTimeout(l: Loop, now: Time): Time {
    var wake := if l.vr.state == Master then l.nextAdvert else l.deadline;
    Max(10, Min(500, wake - now))
  }

  /**
   A datagram that is nothing to the router: not an advertisement for it, its
   own, or one that it neither follows nor yields to.
   */
  predicate Ignored(p: Params, vr: Router, bytes: seq<byte>) {
    var parsed := VrrpCodec.ParseAdvertisement(bytes, p.vrid);
    || parsed == None || parsed.value.src == p.us
    || (&& parsed.value.priority != 0
        && match vr.state
           case Backup => !Follows(vr, parsed.value.priority)
           case Master => !Outranks(parsed.value.priority, parsed.value.src, vr.priority, p.us)
           case Initialize => true)
  }

  lemma IgnoredDoesNothing(p: Params, l: Loop, bytes: seq<byte>, end: Time)
    requires Ignored(p, l.vr, bytes)
    ensures OnDatagram(p, l, bytes, end) == Did(l, [])
  {
  }

  /** A turn with good health in which the socket times out, on time, or brings such a datagram before that. */
  predicate IdleTurn(p: Params, l: Loop, i: Input) {
    && !i.stop && i.healthy && i.stillHealthy
    && match i.recv
       case TimedOut => i.end == i.begin + ReadTimeout(l, i.begin)
       case Datagram(bytes) => Ignored(p, l.vr, bytes) && i.begin <= i.end <= i.begin + ReadTimeout(l, i.begin)
       case Error => false
  }

  /** Turn `k` is idle and begins when the one before it ends. */
  ghost predicate IdleAt(p: Params, l: Loop, from: Time, ins: seq<Input>, k: nat)
    requires k < |ins|
  {
    IdleTurn(p, Turns(p, l, ins[..k]).to, ins[k]) && ins[k].begin == BeginsAt(from, ins, k)
  }

  /** Idle turns, one right after the other, starting at `from`. */
  ghost predicate IdleFrom(p: Params, l: Loop, from: Time, ins: seq<Input>) {
    forall k: nat :: k < |ins| ==> IdleAt(p, l, from, ins, k)
  }

  function BeginsAt(from: Time, ins: seq<Input>, k: nat): Time
    requires k <= |ins|
  {
    if k == 0 then from else ins[k - 1].end
  }

  /** When the run is over. */
  function EndsAt(from: Time, ins: seq<Input>): Time {
    BeginsAt(from, ins, |ins|)
  }

  /** When a loop next acts on its own: a Master advertises, a Backup takes over. */
  function Due(l: Loop): Time {
    if l.vr.state == Master then l.nextAdvert else l.deadline
  }

  function OwnAct(p: Params, l: Loop): Action {
    if l.vr.state == Master then Send(p.priority) else Claim
  }

  lemma NothingBefore(l: Loop, d: Did)
    ensures Then(Did(l, []), d) == d
  {
  }

  /** The loop is awake at or after `due`: only then does it look at its timers. */
  predicate Wakes(i: Input, due: Time) {
    i.recv == TimedOut && i.end >= due
  }

  lemma IdleTurnEnds(p: Params, l: Loop, i: Input)
    requires IdleTurn(p, l, i)
    ensures i.begin <= i.end && (i.recv == TimedOut ==> i.begin + 10 <= i.end)
    ensures i.begin < Due(l) ==> i.end < Due(l) + 10
    ensures i.begin >= Due(l) ==> i.end <= i.begin + 10
  {
    var wait := Due(l) - i.begin;
    assert ReadTimeout(l, i.begin) == if wait < 10 then 10 else if wait > 500 then 500 else wait;
  }

  /** A turn does nothing if it does not wake at or after the time due, and what is due if it does. */
  lemma IdleTurnActs(p: Params, l: Loop, i: Input)
    requires l.outcome == Running && l.vr.state != Initialize && IdleTurn(p, l, i)
    ensures !Wakes(i, Due(l)) ==> Turn(p, l, i) == Did(l.(shown := l.vr.state), [])
    ensures Wakes(i, Due(l)) ==>
      var Did(l', a) := Turn(p, l, i);
      && a == [OwnAct(p, l)] && l'.vr.state == Master && l'.outcome == Running
      && l'.nextAdvert == if l.vr.state == Master then i.end + 10 * l.vr.interval else i.end
  {
    var l1 := l.(shown := l.vr.state);
    assert OnHealthCheck(l, i.healthy, i.begin) == Did(l1, []);
    if i.recv.Datagram? {
      IgnoredDoesNothing(p, l1, i.recv.bytes, i.end);
    }
    NothingBefore(l1, OnSocket(p, l1, i));
  }

  /** A turn after others that did nothing. */
  lemma NextTurn(p: Params, l: Loop, ins: seq<Input>, k: nat)
    requires k < |ins| && Turns(p, l, ins[..k]).acts == []
    ensures Turns(p, l, ins[..k + 1]) == Turn(p, Turns(p, l, ins[..k]).to, ins[k])
  {
    assert ins[..k + 1][..k] == ins[..k];
    NothingBefore(Turns(p, l, ins[..k]).to, Turn(p, Turns(p, l, ins[..k]).to, ins[k]));
  }

  /** Nothing happened to the loop but that it showed its state. */
  predicate Waits(l: Loop, d: Did) {
    d.acts == [] && (d.to == l || d.to == l.(shown := l.vr.state))
  }

  predicate NoneWakes(ins: seq<Input>, k: nat, due: Time)
    requires k <= |ins|
  {
    forall j :: 0 <= j < k ==> !Wakes(ins[j], due)
  }

  /** Until a turn wakes at or after the time due the loop waits, however late that is. */
  lemma {:induction false} WaitsUntilWoken(p: Params, l: Loop, from: Time, ins: seq<Input>, k: nat)
    requires l.outcome == Running && l.vr.state != Initialize
    requires IdleFrom(p, l, from, ins) && k <= |ins| && NoneWakes(ins, k, Due(l))
    ensures Waits(l, Turns(p, l, ins[..k]))
  {
    if k == 0 {
      assert ins[..k] == [];
    } else {
      WaitsUntilWoken(p, l, from, ins, k - 1);
      assert IdleAt(p, l, from, ins, k - 1);
      IdleTurnActs(p, Turns(p, l, ins[..k - 1]).to, ins[k - 1]);
      NextTurn(p, l, ins, k - 1);
    }
  }

  /** The first turn that wakes at or after `due`, or their number. */
  function FirstWake(ins: seq<Input>, due: Time): (k: nat)
    ensures k <= |ins| && NoneWakes(ins, k, due)
    ensures k < |ins| ==> Wakes(ins[k], due)
  {
    if |ins| == 0 then 0
    else
      var k := FirstWake(ins[..|ins| - 1], due);
      if k == |ins| - 1 && !Wakes(ins[k], due) then |ins| else k
  }

  /** How many of the first `k` turns bring a datagram at or after `due`. */
  function Noise(ins: seq<Input>, due: Time, k: nat): nat
    requires k <= |ins|
  {
    if k == 0 then 0 else Noise(ins, due, k - 1) + if ins[k - 1].recv.Datagram? && ins[k - 1].end >= due then 1 else 0
  }

  /** While none wakes, each datagram from the time due on makes the loop at most 10 ms later. */
  lemma {:induction false} LateByNoise(p: Params, l: Loop, from: Time, ins: seq<Input>, k: nat)
    requires l.outcome == Running && l.vr.state != Initialize && from <= Due(l)
    requires IdleFrom(p, l, from, ins) && k <= |ins| && NoneWakes(ins, k, Due(l))
    ensures BeginsAt(from, ins, k) <= Due(l) + 10 * Noise(ins, Due(l), k)
    ensures from < Due(l) ==> BeginsAt(from, ins, k) < Due(l) + 10 * Noise(ins, Due(l), k)
  {
    if k > 0 {
      LateByNoise(p, l, from, ins, k - 1);
      TurnEnds(p, l, from, ins, k - 1);
    }
  }

  lemma TurnEnds(p: Params, l: Loop, from: Time, ins: seq<Input>, k: nat)
    requires l.outcome == Running && l.vr.state != Initialize
    requires IdleFrom(p, l, from, ins) && k < |ins| && NoneWakes(ins, k, Due(l))
    ensures var (begin, i) := (BeginsAt(from, ins, k), ins[k]);
      && begin <= i.end && i.recv != Error
      && (begin < Due(l) ==> i.end < Due(l) + 10) && (begin >= Due(l) ==> i.end <= begin + 10)
  {
    WaitsUntilWoken(p, l, from, ins, k);
    assert IdleAt(p, l, from, ins, k);
    IdleTurnEnds(p, Turns(p, l, ins[..k]).to, ins[k]);
  }

  /** The first thing done over the turns is `act`, in turn `k`. */
  predicate FirstDoes(p: Params, l: Loop, ins: seq<Input>, k: nat, act: Action) {
    k < |ins| && Turns(p, l, ins[..k]).acts == [] && Turns(p, l, ins[..k + 1]).acts == [act]
  }

  /** What a loop that has acted in turn `i` is like. */
  predicate Acted(l: Loop, l': Loop, i: Input) {
    && l'.vr.state == Master && l'.outcome == Running
    && l'.nextAdvert == if l.vr.state == Master then i.end + 10 * l.vr.interval else i.end
  }

  /**
   An idle, healthy loop acts in the first turn that wakes at or after the time
   due, and does nothing before. A Backup claims the address, a Master
   advertises and is due again an interval later.
   */
  lemma ActsWhenWoken(p: Params, l: Loop, from: Time, ins: seq<Input>)
    requires l.outcome == Running && l.vr.state != Initialize && IdleFrom(p, l, from, ins)
    ensures var k := FirstWake(ins, Due(l));
      && Waits(l, Turns(p, l, ins[..k]))
      && (k < |ins| ==> FirstDoes(p, l, ins, k, OwnAct(p, l)) && Acted(l, Turns(p, l, ins[..k + 1]).to, ins[k]))
  {
    var k := FirstWake(ins, Due(l));
    WaitsUntilWoken(p, l, from, ins, k);
    if k < |ins| {
      assert IdleAt(p, l, from, ins, k);
      IdleTurnActs(p, Turns(p, l, ins[..k]).to, ins[k]);
      NextTurn(p, l, ins, k);
    }
  }

  /**
   That turn ends at or after the time due, and at most 10 ms later for it and
   for each datagram from the time due on. A run that goes on for longer than
   its datagrams account for has such a turn.
   */
  lemma ActsInTime(p: Params, l: Loop, from: Time, ins: seq<Input>)
    requires l.outcome == Running && l.vr.state != Initialize && from <= Due(l) && IdleFrom(p, l, from, ins)
    ensures var k := FirstWake(ins, Due(l));
      && (k < |ins| ==>
            && Due(l) <= ins[k].end <= Due(l) + 10 * (Noise(ins, Due(l), k) + 1)
            && (from < Due(l) ==> ins[k].end < Due(l) + 10 * (Noise(ins, Due(l), k) + 1)))
      && (EndsAt(from, ins) > Due(l) + 10 * Noise(ins, Due(l), |ins|) ==> k < |ins|)
  {
    var k := FirstWake(ins, Due(l));
    LateByNoise(p, l, from, ins, k);
    if k < |ins| {
      TurnEnds(p, l, from, ins, k);
    }
  }

  // ----- how late that can be ------------------------------------------------------

  /** A datagram too short to parse, `step` ms after the turn began. */
  function NoiseInput(begin: Time, step: nat): Input {
    Input(false, true, begin, Datagram([]), begin + step, true)
  }

  /** The run `ins`, and then `n` such turns. */
  function WithNoise(from: Time, ins: seq<Input>, n: nat, step: nat): (r: seq<Input>)
    ensures |r| == |ins| + n
  {
    if n == 0 then ins else
    var r := WithNoise(from, ins, n - 1, step);
    r + [NoiseInput(EndsAt(from, r), step)]
  }

  /** An idle turn more. */
  lemma IdleMore(p: Params, l: Loop, from: Time, ins: seq<Input>, i: Input)
    requires IdleFrom(p, l, from, ins) && IdleTurn(p, Turns(p, l, ins).to, i) && i.begin == EndsAt(from, ins)
    ensures IdleFrom(p, l, from, ins + [i])
  {
    var more := ins + [i];
    forall k: nat | k < |more|
      ensures IdleAt(p, l, from, more, k)
    {
      if k < |ins| {
        assert more[..k] == ins[..k] && IdleAt(p, l, from, ins, k);
        assert BeginsAt(from, more, k) == BeginsAt(from, ins, k);
      } else {
        assert more[..k] == ins;
      }
    }
  }

  lemma MoreWakes(ins: seq<Input>, i: Input, due: Time)
    requires NoneWakes(ins, |ins|, due) && !Wakes(i, due)
    ensures NoneWakes(ins + [i], |ins| + 1, due)
  {
  }

  /** Such turns can always follow, and the loop waits through them all. */
  lemma {:induction false} NoiseIsIdle(p: Params, l: Loop, from: Time, ins: seq<Input>, n: nat, step: nat)
    requires l.outcome == Running && l.vr.state != Initialize && step <= 10
    requires IdleFrom(p, l, from, ins) && NoneWakes(ins, |ins|, Due(l))
    ensures var r := WithNoise(from, ins, n, step);
      IdleFrom(p, l, from, r) && NoneWakes(r, |r|, Due(l)) && Waits(l, Turns(p, l, r))
  {
    if n > 0 {
      var r := WithNoise(from, ins, n - 1, step);
      NoiseIsIdle(p, l, from, ins, n - 1, step);
      var i := NoiseInput(EndsAt(from, r), step);
      assert VrrpCodec.ParseAdvertisement([], p.vrid) == None;
      IdleMore(p, l, from, r, i);
      MoreWakes(r, i, Due(l));
    }
    var r := WithNoise(from, ins, n, step);
    WaitsUntilWoken(p, l, from, r, |r|);
    assert r[..|r|] == r;
  }

  lemma {:induction false} NoiseEnds(from: Time, ins: seq<Input>, n: nat, step: nat)
    requires step == 1 || step == 10
    ensures EndsAt(from, WithNoise(from, ins, n, step)) == EndsAt(from, ins) + if step == 1 then n else 10 * n
  {
    if n > 0 {
      NoiseEnds(from, ins, n - 1, step);
    }
  }

  /**
   There is no bound: with a datagram every 10 ms a loop waits as long past the
   time due as one likes, and does nothing.
   */
  lemma NoiseStarves(p: Params, l: Loop, from: Time, late: nat)
    requires l.outcome == Running && l.vr.state != Initialize
    ensures var ins := WithNoise(from, [], Due(l) + late, 10);
      && IdleFrom(p, l, from, ins) && Waits(l, Turns(p, l, ins)) && EndsAt(from, ins) >= Due(l) + late
  {
    NoiseIsIdle(p, l, from, [], Due(l) + late, 10);
    NoiseEnds(from, [], Due(l) + late, 10);
  }

  lemma {:induction false} NoiseCounted(from: Time, ins: seq<Input>, n: nat, step: nat, due: Time)
    requires step == 1 || step == 10
    ensures var r := WithNoise(from, ins, n, step);
      && (step == 1 && EndsAt(from, ins) + n < due ==> Noise(r, due, |r|) == Noise(ins, due, |ins|))
      && (step == 10 && EndsAt(from, ins) + 10 >= due ==> Noise(r, due, |r|) == Noise(ins, due, |ins|) + n)
  {
    if n > 0 {
      var r := WithNoise(from, ins, n - 1, step);
      NoiseCounted(from, ins, n - 1, step, due);
      NoiseEnds(from, ins, n - 1, step);
      NoisePrefix(r, r + [NoiseInput(EndsAt(from, r), step)], due, |r|);
    }
  }

  lemma {:induction false} NoisePrefix(a: seq<Input>, b: seq<Input>, due: Time, k: nat)
    requires k <= |a| <= |b| && a == b[..|a|]
    ensures Noise(a, due, k) == Noise(b, due, k)
  {
    if k > 0 {
      NoisePrefix(a, b, due, k - 1);
    }
  }

  /** A run that ends 1 ms before `due`, and then `m` datagrams 10 ms apart. */
  function NoisyRun(from: Time, due: Time, m: nat): seq<Input>
    requires from < due
  {
    WithNoise(from, WithNoise(from, [], due - 1 - from, 1), m, 10)
  }

  lemma NoisyRunIdle(p: Params, l: Loop, from: Time, m: nat)
    requires l.outcome == Running && l.vr.state != Initialize && from < Due(l)
    ensures var r := NoisyRun(from, Due(l), m);
      IdleFrom(p, l, from, r) && NoneWakes(r, |r|, Due(l)) && Waits(l, Turns(p, l, r))
  {
    NoiseIsIdle(p, l, from, [], Due(l) - 1 - from, 1);
    NoiseIsIdle(p, l, from, WithNoise(from, [], Due(l) - 1 - from, 1), m, 10);
  }

  lemma NoisyRunCounted(from: Time, due: Time, m: nat)
    requires from < due
    ensures var r := NoisyRun(from, due, m);
      EndsAt(from, r) == due - 1 + 10 * m && Noise(r, due, |r|) == m
  {
    var first := WithNoise(from, [], due - 1 - from, 1);
    NoiseEnds(from, [], due - 1 - from, 1);
    NoiseEnds(from, first, m, 10);
    NoiseCounted(from, [], due - 1 - from, 1, due);
    NoiseCounted(from, first, m, 10, due);
  }

  /** And then a timeout. */
  function LatestRun(from: Time, due: Time, m: nat): seq<Input>
    requires from < due
  {
    var r := NoisyRun(from, due, m);
    r + [Input(false, true, EndsAt(from, r), TimedOut, EndsAt(from, r) + 10, true)]
  }

  /** The bound of `ActsInTime` is met: with `m` datagrams the loop can be 10 * m + 9 ms late. */
  lemma LatestIsReached(p: Params, l: Loop, from: Time, m: nat)
    requires l.outcome == Running && l.vr.state != Initialize && from < Due(l)
    ensures var ins := LatestRun(from, Due(l), m);
      var k := FirstWake(ins, Due(l));
      && IdleFrom(p, l, from, ins) && k == |ins| - 1 && Noise(ins, Due(l), k) == m && ins[k].end == Due(l) + 10 * m + 9
  {
    var r := NoisyRun(from, Due(l), m);
    var i := Input(false, true, EndsAt(from, r), TimedOut, EndsAt(from, r) + 10, true);
    NoisyRunIdle(p, l, from, m);
    NoisyRunCounted(from, Due(l), m);
    LastTimeoutIdle(p, l, Turns(p, l, r), i);
    IdleMore(p, l, from, r, i);
    NoisePrefix(r, r + [i], Due(l), |r|);
    NoneWakesMore(r, i, Due(l));
    FirstWakeIs(r + [i], |r|, Due(l));
  }

  /** From 1 ms before the time due on a read times out after 10 ms. */
  lemma LastTimeoutIdle(p: Params, l: Loop, d: Did, i: Input)
    requires Waits(l, d) && i.begin + 1 >= Due(l)
    requires i == Input(false, true, i.begin, TimedOut, i.begin + 10, true)
    ensures IdleTurn(p, d.to, i)
  {
  }

  lemma NoneWakesMore(ins: seq<Input>, i: Input, due: Time)
    requires NoneWakes(ins, |ins|, due)
    ensures NoneWakes(ins + [i], |ins|, due)
  {
    assert forall j :: 0 <= j < |ins| ==> (ins + [i])[j] == ins[j];
  }

  lemma FirstWakeIs(ins: seq<Input>, k: nat, due: Time)
    requires k < |ins| && NoneWakes(ins, k, due) && Wakes(ins[k], due)
    ensures FirstWake(ins, due) == k
  {
  }

  // ----- silent runs --------------------------------------------------------------

  /** Nothing arrives at all. */
  ghost predicate SilentFrom(p: Params, l: Loop, from: Time, ins: seq<Input>) {
    IdleFrom(p, l, from, ins) && AllTimeOut(ins)
  }

  predicate AllTimeOut(ins: seq<Input>) {
    forall k :: 0 <= k < |ins| ==> ins[k].recv == TimedOut
  }

  lemma {:induction false} SilenceIsNoNoise(ins: seq<Input>, due: Time, k: nat)
    requires AllTimeOut(ins) && k <= |ins|
    ensures Noise(ins, due, k) == 0
  {
    if k > 0 {
      SilenceIsNoNoise(ins, due, k - 1);
    }
  }

  /** Each silent turn takes at least 10 ms. */
  lemma {:induction false} SilentEnds(p: Params, l: Loop, from: Time, ins: seq<Input>, k: nat)
    requires SilentFrom(p, l, from, ins) && k <= |ins|
    ensures BeginsAt(from, ins, k) >= from + 10 * k
  {
    if k > 0 {
      SilentEnds(p, l, from, ins, k - 1);
      assert IdleAt(p, l, from, ins, k - 1);
      IdleTurnEnds(p, Turns(p, l, ins[..k - 1]).to, ins[k - 1]);
    }
  }

  /** In silence a loop acts when it is due, at most 10 ms late. */
  lemma ActsWhenDue(p: Params, l: Loop, from: Time, ins: seq<Input>)
    requires l.outcome == Running && l.vr.state != Initialize && from <= Due(l)
    requires SilentFrom(p, l, from, ins) && from + 10 * |ins| > Due(l)
    ensures var k := FirstWake(ins, Due(l));
      && FirstDoes(p, l, ins, k, OwnAct(p, l))
      && Due(l) <= ins[k].end <= Due(l) + 10 && (from < Due(l) ==> ins[k].end < Due(l) + 10)
      && Acted(l, Turns(p, l, ins[..k + 1]).to, ins[k])
  {
    var k := FirstWake(ins, Due(l));
    SilenceIsNoNoise(ins, Due(l), k);
    SilenceIsNoNoise(ins, Due(l), |ins|);
    SilentEnds(p, l, from, ins, |ins|);
    ActsInTime(p, l, from, ins);
    ActsWhenWoken(p, l, from, ins);
  }

  // ----- how long a takeover takes ---------------------------------------------

  /** The timer of `l` was last restarted at `at`, with its Master's interval `a`. */
  predicate Restarted(l: Loop, at: Time, a: u16) {
    && l.outcome == Running && l.vr.state == Backup && 0 < l.vr.priority && a >= 1
    && l.vr.learned == a && l.deadline == at + 10 * MasterDown(l.vr)
  }

  /**
   The takeover bound: a Backup that hears nothing to heed claims the address
   at least 3 learned intervals after its timer was restarted and under 4, and
   10 ms for each ignored datagram from its deadline on. It does nothing before,
   and it does claim once the run has gone on for that long.
   */
  lemma TakeoverBound(p: Params, l: Loop, at: Time, a: u16, ins: seq<Input>)
    requires Restarted(l, at, a) && IdleFrom(p, l, at, ins)
    ensures var k := FirstWake(ins, l.deadline);
      && Waits(l, Turns(p, l, ins[..k]))
      && (k < |ins| ==>
            && FirstDoes(p, l, ins, k, Claim)
            && 3 * (10 * a) <= ins[k].end - at < 4 * (10 * a) + 10 * Noise(ins, l.deadline, k))
      && (EndsAt(at, ins) - at >= 4 * (10 * a) + 10 * Noise(ins, l.deadline, |ins|) ==> k < |ins|)
  {
    SkewBound(l.vr);
    ActsWhenWoken(p, l, at, ins);
    ActsInTime(p, l, at, ins);
  }

  /** A datagram that the Backup `l` takes as its Master's, carrying interval `a`. */
  predicate MasterAdvert(p: Params, l: Loop, bytes: seq<byte>, a: u16) {
    var parsed := VrrpCodec.ParseAdvertisement(bytes, p.vrid);
    parsed.Some? && parsed.value.src != p.us && parsed.value.interval == a && Follows(l.vr, parsed.value.priority)
  }

  /** Hearing the Master restarts the timer at the learned interval. */
  lemma HeardRestarts(p: Params, l: Loop, i: Input, a: u16)
    requires l.outcome == Running && l.vr.state == Backup && !i.stop && a >= 1
    requires i.recv.Datagram? && MasterAdvert(p, l, i.recv.bytes, a)
    ensures var Did(l', acts) := Turn(p, l, i);
      && acts == [] && l'.vr == l.vr.(learned := a) && l'.outcome == Running
      && l'.deadline == i.end + 10 * MasterDown(l'.vr)
  {
  }

  /** What restarts a Backup's timer: hearing its Master; losing the address to a node above; a timeout that found no health. */
  predicate Restarts(p: Params, l: Loop, i: Input, a: u16) {
    && l.outcome == Running && !i.stop && a >= 1
    && match l.vr.state
       case Backup =>
         || (i.recv.Datagram? && MasterAdvert(p, l, i.recv.bytes, a))
         || (i.recv == TimedOut && i.end >= l.deadline && !i.stillHealthy && l.vr.learned == a)
       case Master =>
         && i.healthy && i.recv.Datagram?
         && var parsed := VrrpCodec.ParseAdvertisement(i.recv.bytes, p.vrid);
            && parsed.Some? && parsed.value.src != p.us && parsed.value.interval == a && parsed.value.priority != 0
            && Outranks(parsed.value.priority, parsed.value.src, l.vr.priority, p.us)
       case Initialize => false
  }

  /** Each of these leaves the loop a Backup whose timer was restarted at the turn's end. */
  lemma RestartsTimer(p: Params, l: Loop, i: Input, a: u16)
    requires 0 < l.vr.priority && Restarts(p, l, i, a)
    ensures Restarted(Turn(p, l, i).to, i.end, a)
    ensures Turn(p, l, i).acts == if l.vr.state == Master then [Release] else []
  {
    assert OnHealthCheck(l, i.healthy, i.begin).to.vr == l.vr && OnHealthCheck(l, i.healthy, i.begin).acts == [];
  }

  /**
   So a silent Master is replaced in time: whichever way the Backup's timer was
   last restarted, it claims the address at least 3 of the Master's intervals
   later and under 4, and 10 ms for each ignored datagram from its deadline on.
   */
  lemma SilentMasterReplaced(p: Params, l: Loop, i: Input, a: u16, ins: seq<Input>)
    requires 0 < l.vr.priority && Restarts(p, l, i, a) && IdleFrom(p, Turn(p, l, i).to, i.end, ins)
    ensures var l' := Turn(p, l, i).to;
      var k := FirstWake(ins, l'.deadline);
      && Waits(l', Turns(p, l', ins[..k]))
      && (k < |ins| ==>
            && FirstDoes(p, l', ins, k, Claim)
            && 3 * (10 * a) <= ins[k].end - i.end < 4 * (10 * a) + 10 * Noise(ins, l'.deadline, k))
      && (EndsAt(i.end, ins) - i.end >= 4 * (10 * a) + 10 * Noise(ins, l'.deadline, |ins|) ==> k < |ins|)
  {
    RestartsTimer(p, l, i, a);
    TakeoverBound(p, Turn(p, l, i).to, i.end, a, ins);
  }

  // ----- a Master below is preempted --------------------------------------------------

  /** An advertisement for the virtual router, of a priority below. */
  predicate FromBelow(p: Params, bytes: seq<byte>) {
    var parsed := VrrpCodec.ParseAdvertisement(bytes, p.vrid);
    parsed.Some? && 0 < parsed.value.priority < p.priority
  }

  /** A healthy turn that times out, on time, or hears before that a Master of lower priority. */
  predicate BelowTurn(p: Params, l: Loop, i: Input) {
    && !i.stop && i.healthy && i.stillHealthy
    && match i.recv
       case TimedOut => i.end == i.begin + ReadTimeout(l, i.begin)
       case Datagram(bytes) => FromBelow(p, bytes) && i.begin <= i.end <= i.begin + ReadTimeout(l, i.begin)
       case Error => false
  }

  ghost predicate BelowAt(p: Params, l: Loop, from: Time, ins: seq<Input>, k: nat)
    requires k < |ins|
  {
    BelowTurn(p, Turns(p, l, ins[..k]).to, ins[k]) && ins[k].begin == BeginsAt(from, ins, k)
  }

  ghost predicate BelowFrom(p: Params, l: Loop, from: Time, ins: seq<Input>) {
    forall k: nat :: k < |ins| ==> BelowAt(p, l, from, ins, k)
  }

  lemma {:induction false} SettingsStay(p: Params, l: Loop, ins: seq<Input>)
    requires l.vr.state != Initialize
    ensures var vr := Turns(p, l, ins).to.vr;
      vr.priority == l.vr.priority && vr.preempt == l.vr.preempt && vr.state != Initialize
  {
    if |ins| > 0 {
      SettingsStay(p, l, ins[..|ins| - 1]);
      TurnSettings(p, Turns(p, l, ins[..|ins| - 1]).to, ins[|ins| - 1]);
    }
  }

  lemma TurnSettings(p: Params, l: Loop, i: Input)
    requires l.vr.state != Initialize
    ensures var vr := Turn(p, l, i).to.vr;
      vr.priority == l.vr.priority && vr.preempt == l.vr.preempt && vr.state != Initialize
  {
    SocketSettings(p, OnHealthCheck(l, i.healthy, i.begin).to, i);
  }

  lemma SocketSettings(p: Params, l: Loop, i: Input)
    requires l.vr.state != Initialize
    ensures var vr := OnSocket(p, l, i).to.vr;
      vr.priority == l.vr.priority && vr.preempt == l.vr.preempt && vr.state != Initialize
  {
  }

  /** To a preempting router such an advertisement is nothing, whether it is Backup or Master. */
  lemma BelowIsIdle(p: Params, l: Loop, i: Input)
    requires l.vr.priority == p.priority && l.vr.preempt && l.vr.state != Initialize && BelowTurn(p, l, i)
    ensures IdleTurn(p, l, i)
  {
  }

  /**
   Preemption: a preempting Backup claims the address by its deadline however
   often a Master of lower priority advertises: at least 3 and under 4 of the
   intervals it learned after its timer was last restarted, and 10 ms for each
   advertisement heard from its deadline on.
   */
  lemma PreemptsBelow(p: Params, l: Loop, at: Time, a: u16, ins: seq<Input>)
    requires Restarted(l, at, a) && l.vr.priority == p.priority && l.vr.preempt && BelowFrom(p, l, at, ins)
    ensures var k := FirstWake(ins, l.deadline);
      && (k < |ins| ==>
            && FirstDoes(p, l, ins, k, Claim)
            && 3 * (10 * a) <= ins[k].end - at < 4 * (10 * a) + 10 * Noise(ins, l.deadline, k))
      && (EndsAt(at, ins) - at >= 4 * (10 * a) + 10 * Noise(ins, l.deadline, |ins|) ==> k < |ins|)
  {
    forall k: nat | k < |ins|
      ensures IdleAt(p, l, at, ins, k)
    {
      assert BelowAt(p, l, at, ins, k);
      SettingsStay(p, l, ins[..k]);
      BelowIsIdle(p, Turns(p, l, ins[..k]).to, ins[k]);
    }
    TakeoverBound(p, l, at, a, ins);
  }

  /** A datagram by which some other node resigns. */
  predicate Resignation(p: Params, bytes: seq<byte>) {
    var parsed := VrrpCodec.ParseAdvertisement(bytes, p.vrid);
    parsed.Some? && parsed.value.src != p.us && parsed.value.priority == 0
  }

  /**
   A Backup that hears its Master resign claims the address Skew_Time later and
   at most 10 ms more, and 10 ms for each ignored datagram from then on.
   */
  lemma ResignedMasterReplaced(p: Params, l: Loop, i: Input, ins: seq<Input>)
    requires l.outcome == Running && l.vr.state == Backup && !i.stop
    requires i.recv.Datagram? && Resignation(p, i.recv.bytes)
    requires IdleFrom(p, Turn(p, l, i).to, i.end, ins)
    ensures var l' := Turn(p, l, i).to;
      var k := FirstWake(ins, l'.deadline);
      && l'.deadline == i.end + 10 * Skew(l.vr) && Waits(l', Turns(p, l', ins[..k]))
      && (k < |ins| ==>
            && FirstDoes(p, l', ins, k, Claim)
            && 10 * Skew(l.vr) <= ins[k].end - i.end <= 10 * Skew(l.vr) + 10 * (Noise(ins, l'.deadline, k) + 1))
      && (EndsAt(i.end, ins) > l'.deadline + 10 * Noise(ins, l'.deadline, |ins|) ==> k < |ins|)
  {
    var l' := Turn(p, l, i).to;
    ResignationHeard(p, l, i);
    ActsWhenWoken(p, l', i.end, ins);
    ActsInTime(p, l', i.end, ins);
  }

  lemma ResignationHeard(p: Params, l: Loop, i: Input)
    requires l.outcome == Running && l.vr.state == Backup && !i.stop
    requires i.recv.Datagram? && Resignation(p, i.recv.bytes)
    ensures var l' := Turn(p, l, i).to;
      l'.vr == l.vr && l'.deadline == i.end + 10 * Skew(l.vr) && l'.outcome == Running
  {
  }

  /** A Master that hears another one resign advertises at its next timeout. */
  lemma ResignationAnswered(p: Params, l: Loop, i: Input, next: Input)
    requires l.outcome == Running && l.vr.state == Master && !i.stop && i.healthy
    requires i.recv.Datagram? && Resignation(p, i.recv.bytes)
    requires !next.stop && next.healthy && next.recv == TimedOut && next.end >= i.end
    ensures Turns(p, l, [i, next]).acts == [Send(p.priority)]
  {
    var l1 := Turn(p, l, i).to;
    assert l1.vr == l.vr && l1.nextAdvert == i.end && l1.outcome == Running && Turn(p, l, i).acts == [];
    assert [i, next][..1] == [i] && [i][..0] == [];
    assert Turns(p, l, [i]) == Then(Did(l, []), Turn(p, l, i));
    NothingBefore(l, Turn(p, l, i));
    var l2 := OnHealthCheck(l1, next.healthy, next.begin);
    assert l2.acts == [] && l2.to.vr.state == Master && l2.to.nextAdvert == i.end;
    NothingBefore(l2.to, OnTimeout(p, l2.to, next.end, next.stillHealthy));
    NothingBefore(l1, Turn(p, l1, next));
  }

  /**
   How far apart a Master's advertisements are: after one at `at`, it sends the
   next at least its interval later and less than 10 ms more, and 10 ms for
   each ignored datagram from then on.
   */
  lemma AdvertGap(p: Params, l: Loop, at: Time, ins: seq<Input>)
    requires l.outcome == Running && l.vr.state == Master && l.vr.interval >= 1
    requires l.nextAdvert == at + 10 * l.vr.interval && IdleFrom(p, l, at, ins)
    ensures var k := FirstWake(ins, l.nextAdvert);
      && Waits(l, Turns(p, l, ins[..k]))
      && (k < |ins| ==>
            && FirstDoes(p, l, ins, k, Send(p.priority))
            && 10 * l.vr.interval <= ins[k].end - at < 10 * l.vr.interval + 10 * (Noise(ins, l.nextAdvert, k) + 1)
            && Turns(p, l, ins[..k + 1]).to.nextAdvert == ins[k].end + 10 * l.vr.interval)
      && (EndsAt(at, ins) > l.nextAdvert + 10 * Noise(ins, l.nextAdvert, |ins|) ==> k < |ins|)
  {
    ActsWhenWoken(p, l, at, ins);
    ActsInTime(p, l, at, ins);
  }

  lemma ActsAt(p: Params, l: Loop, from: Time, ins: seq<Input>, k: nat)
    requires l.outcome == Running && l.vr.state != Initialize && IdleFrom(p, l, from, ins)
    requires k < |ins| && k == FirstWake(ins, Due(l))
    ensures FirstDoes(p, l, ins, k, OwnAct(p, l))
  {
    ActsWhenWoken(p, l, from, ins);
  }

  /** And with `m` such datagrams it can be 10 * m + 9 ms late. */
  lemma LatestAdvert(p: Params, l: Loop, at: Time, m: nat)
    requires l.outcome == Running && l.vr.state == Master && l.vr.interval >= 1
    requires l.nextAdvert == at + 10 * l.vr.interval
    ensures var ins := LatestRun(at, l.nextAdvert, m);
      && IdleFrom(p, l, at, ins) && Noise(ins, l.nextAdvert, |ins| - 1) == m
      && FirstDoes(p, l, ins, |ins| - 1, Send(p.priority))
      && ins[|ins| - 1].end - at == 10 * l.vr.interval + 10 * m + 9
  {
    LatestIsReached(p, l, at, m);
    ActsAt(p, l, at, LatestRun(at, l.nextAdvert, m), |LatestRun(at, l.nextAdvert, m)| - 1);
  }

  // ----- which of two Backups wakes first --------------------------------------

  /** Over the turns `l` claims the address, before `t`. */
  predicate ClaimsBefore(p: Params, l: Loop, ins: seq<Input>, t: Time) {
    var k := FirstWake(ins, l.deadline);
    FirstDoes(p, l, ins, k, Claim) && ins[k].end < t
  }

  /** Over the turns `l` claims the address and sends its first advertisement, that before `t`. */
  predicate AdvertisesBefore(p: Params, l: Loop, ins: seq<Input>, t: Time) {
    var k := FirstWake(ins, l.deadline);
    && FirstDoes(p, l, ins, k, Claim) && k + 1 < |ins|
    && Turns(p, l, ins[..k + 2]).acts == [Claim, Send(p.priority)] && ins[k + 1].end < t
  }

  /** Turn `k` claims, and the next one, 10 ms later, advertises. */
  lemma ClaimThenAdvertise(p: Params, l: Loop, at: Time, a: u16, ins: seq<Input>)
    requires Restarted(l, at, a) && SilentFrom(p, l, at, ins) && |ins| > 4 * a
    ensures var k := FirstWake(ins, l.deadline);
      && FirstDoes(p, l, ins, k, Claim) && l.deadline <= ins[k].end < l.deadline + 10
      && k + 1 < |ins| && Turns(p, l, ins[..k + 2]).acts == [Claim, Send(p.priority)]
      && ins[k + 1].end == ins[k].end + 10
  {
    var k := FirstWake(ins, l.deadline);
    SkewBound(l.vr);
    ActsWhenDue(p, l, at, ins);
    SilentEnds(p, l, at, ins, |ins|);
    assert IdleAt(p, l, at, ins, k + 1);
    NewMasterAdvertises(p, Turns(p, l, ins[..k + 1]).to, ins[k + 1]);
    LastTurn(p, l, ins, k + 1);
  }

  lemma NewMasterAdvertises(p: Params, l: Loop, i: Input)
    requires l.outcome == Running && l.vr.state == Master && l.nextAdvert == i.begin && IdleTurn(p, l, i) && i.recv == TimedOut
    ensures Turn(p, l, i).acts == [Send(p.priority)] && Turn(p, l, i).to.vr.state == Master && i.end == i.begin + 10
  {
    IdleTurnEnds(p, l, i);
    IdleTurnActs(p, l, i);
  }

  lemma LastTurn(p: Params, l: Loop, ins: seq<Input>, k: nat)
    requires k < |ins|
    ensures var d := Turns(p, l, ins[..k]);
      Turns(p, l, ins[..k + 1]) == Then(d, Turn(p, d.to, ins[k]))
  {
    assert ins[..k + 1][..k] == ins[..k];
  }

  /** A silent run of `n` turns. */
  function SilentRun(p: Params, l: Loop, from: Time, n: nat): (ins: seq<Input>)
    ensures |ins| == n
  {
    if n == 0 then [] else
    var init := SilentRun(p, l, from, n - 1);
    var begin := BeginsAt(from, init, n - 1);
    init + [Input(false, true, begin, TimedOut, begin + ReadTimeout(Turns(p, l, init).to, begin), true)]
  }

  lemma {:induction false} SilentRunIsSilent(p: Params, l: Loop, from: Time, n: nat)
    ensures SilentFrom(p, l, from, SilentRun(p, l, from, n))
  {
    if n > 0 {
      var init := SilentRun(p, l, from, n - 1);
      var begin := BeginsAt(from, init, n - 1);
      SilentRunIsSilent(p, l, from, n - 1);
      IdleMore(p, l, from, init,
               Input(false, true, begin, TimedOut, begin + ReadTimeout(Turns(p, l, init).to, begin), true));
    }
  }

  /** In every silent run `l` claims before `low`'s timer runs out. */
  ghost predicate AlwaysClaimsFirst(p: Params, l: Loop, at: Time, low: Loop) {
    forall ins :: SilentFrom(p, l, at, ins) && |ins| > 4 * l.vr.learned ==> ClaimsBefore(p, l, ins, low.deadline)
  }

  /** In every silent run `l`'s first advertisement leaves before `low`'s timer runs out, so it can still stop `low`. */
  ghost predicate AlwaysAdvertisesFirst(p: Params, l: Loop, at: Time, low: Loop) {
    forall ins :: SilentFrom(p, l, at, ins) && |ins| > 4 * l.vr.learned ==> AdvertisesBefore(p, l, ins, low.deadline)
  }

  /** All silent runs are alike in this. */
  lemma EachRunExactlyWhen(p: Params, l: Loop, low: Loop, at: Time, a: u16, ins: seq<Input>)
    requires Restarted(l, at, a) && Restarted(low, at, a)
    requires SilentFrom(p, l, at, ins) && |ins| > 4 * a
    ensures ClaimsBefore(p, l, ins, low.deadline) <==> Skew(l.vr) < Skew(low.vr)
    ensures AdvertisesBefore(p, l, ins, low.deadline) <==> Skew(l.vr) + 2 <= Skew(low.vr)
  {
    ClaimThenAdvertise(p, l, at, a, ins);
  }

  /**
   Two Backups whose timers were last restarted at the same moment, by the
   same Master: in every silent run the one claims before the other's timer
   runs out, if and only if its Skew_Time is smaller.
   */
  lemma ClaimsFirstExactlyWhen(p: Params, l: Loop, low: Loop, at: Time, a: u16)
    requires Restarted(l, at, a) && Restarted(low, at, a)
    ensures AlwaysClaimsFirst(p, l, at, low) <==> Skew(l.vr) < Skew(low.vr)
  {
    if Skew(l.vr) < Skew(low.vr) {
      forall ins | SilentFrom(p, l, at, ins) && |ins| > 4 * l.vr.learned
        ensures ClaimsBefore(p, l, ins, low.deadline)
      {
        EachRunExactlyWhen(p, l, low, at, a, ins);
      }
    } else {
      SilentRunIsSilent(p, l, at, 4 * a + 1);
      EachRunExactlyWhen(p, l, low, at, a, SilentRun(p, l, at, 4 * a + 1));
    }
  }

  /**
   Its first advertisement, a turn after the claim, leaves before that in every
   silent run, if and only if its Skew_Time is smaller by at least 2
   centiseconds.
   */
  lemma AdvertisesFirstExactlyWhen(p: Params, l: Loop, low: Loop, at: Time, a: u16)
    requires Restarted(l, at, a) && Restarted(low, at, a)
    ensures AlwaysAdvertisesFirst(p, l, at, low) <==> Skew(l.vr) + 2 <= Skew(low.vr)
  {
    if Skew(l.vr) + 2 <= Skew(low.vr) {
      forall ins | SilentFrom(p, l, at, ins) && |ins| > 4 * l.vr.learned
        ensures AdvertisesBefore(p, l, ins, low.deadline)
      {
        EachRunExactlyWhen(p, l, low, at, a, ins);
      }
    } else {
      SilentRunIsSilent(p, l, at, 4 * a + 1);
      EachRunExactlyWhen(p, l, low, at, a, SilentRun(p, l, at, 4 * a + 1));
    }
  }

  /** Two Backups restarted at `at` by the same Master, `l` of the higher priority. */
  predicate RestartedInOrder(l: Loop, low: Loop, at: Time, a: u16) {
    Restarted(l, at, a) && Restarted(low, at, a) && low.vr.priority < l.vr.priority
  }

  /** It is enough that the priorities' distance times the interval is 256 to claim first, and 512 to advertise first. */
  lemma HigherWakesFirst(p: Params, l: Loop, low: Loop, at: Time, a: u16, product: int)
    requires RestartedInOrder(l, low, at, a) && product == (l.vr.priority - low.vr.priority) * a
    ensures product >= 256 ==> AlwaysClaimsFirst(p, l, at, low)
    ensures product >= 512 ==> AlwaysAdvertisesFirst(p, l, at, low)
  {
    ProductsApart(l.vr, low.vr, product);
    SkewsWakeFirst(p, l, low, at, a);
  }

  lemma SkewsWakeFirst(p: Params, l: Loop, low: Loop, at: Time, a: u16)
    requires RestartedInOrder(l, low, at, a)
    ensures Skew(l.vr) < Skew(low.vr) ==> AlwaysClaimsFirst(p, l, at, low)
    ensures Skew(l.vr) + 2 <= Skew(low.vr) ==> AlwaysAdvertisesFirst(p, l, at, low)
  {
    ClaimsFirstExactlyWhen(p, l, low, at, a);
    AdvertisesFirstExactlyWhen(p, l, low, at, a);
  }

  /** Under interval `a`, whatever the two priorities, the higher one claims first. */
  ghost predicate ClaimInOrder(p: Params, a: u16) {
    forall l, low, at :: RestartedInOrder(l, low, at, a) ==> AlwaysClaimsFirst(p, l, at, low)
  }

  /** And its first advertisement leaves first. */
  ghost predicate AdvertiseInOrder(p: Params, a: u16) {
    forall l, low, at :: RestartedInOrder(l, low, at, a) ==> AlwaysAdvertisesFirst(p, l, at, low)
  }

  /**
   For every two Backups of one Master of interval `a` the higher priority
   claims first in every silent run, if and only if `a` is at least 255
   centiseconds; and its first advertisement leaves first, if and only if `a`
   is at least 511.
   */
  lemma PrioritiesWakeInOrder(p: Params, a: u16)
    requires a >= 1
    ensures ClaimInOrder(p, a) <==> a >= 255
    ensures AdvertiseInOrder(p, a) <==> a >= 511
  {
    ApartExactlyWhen(a);
    InOrderExactlyWhen(p, a);
  }

  lemma InOrderExactlyWhen(p: Params, a: u16)
    requires a >= 1
    ensures ClaimInOrder(p, a) <==> Apart(a, 1)
    ensures AdvertiseInOrder(p, a) <==> Apart(a, 2)
  {
    forall l, low, at | RestartedInOrder(l, low, at, a)
      ensures AlwaysClaimsFirst(p, l, at, low) <==> Skew(l.vr) + 1 <= Skew(low.vr)
      ensures AlwaysAdvertisesFirst(p, l, at, low) <==> Skew(l.vr) + 2 <= Skew(low.vr)
    {
      ClaimsFirstExactlyWhen(p, l, low, at, a);
      AdvertisesFirstExactlyWhen(p, l, low, at, a);
    }
    forall high: Router, low: Router | high.learned == a && low.learned == a && 0 < low.priority < high.priority
      ensures ClaimInOrder(p, a) ==> Skew(high) + 1 <= Skew(low)
      ensures AdvertiseInOrder(p, a) ==> Skew(high) + 2 <= Skew(low)
    {
      var l, l' := JustRestarted(high), JustRestarted(low);
      assert RestartedInOrder(l, l', 0, a) && Skew(l.vr) == Skew(high) && Skew(l'.vr) == Skew(low);
    }
  }

  function JustRestarted(r: Router): Loop {
    Loop(r.(state := Backup), 0, 10 * MasterDown(r), Backup, Running)
  }

  // ----- a live Master is not replaced ---------------------------------------

  /** One thing in a Backup's life: a turn of its loop, or an advertisement that was due at `at` and lost. */
  datatype Event = Lost(at: Time) | Took(i: Input)

  function When(e: Event): Time {
    match e
    case Lost(at) => at
    case Took(i) => i.end
  }

  predicate IsHeard(p: Params, l: Loop, e: Event, a: u16) {
    e.Took? && !e.i.stop && e.i.recv.Datagram? && MasterAdvert(p, l, e.i.recv.bytes, a)
  }

  /** A turn that brings nothing to heed: a timeout, or a datagram that the loop ignores. */
  predicate IsQuiet(p: Params, l: Loop, e: Event) {
    e.Took? && !e.i.stop && (e.i.recv == TimedOut || (e.i.recv.Datagram? && Ignored(p, l.vr, e.i.recv.bytes)))
  }

  /**
   A Master advertising at most `gap` ms apart, at most two advertisements
   lost in a row: `last` is when the last one was due, `lost` how many are
   lost since one was heard.
   */
  ghost predicate Alive(p: Params, l: Loop, a: u16, gap: nat, last: Time, lost: nat, events: seq<Event>)
    decreases |events|
  {
    events == [] ||
    var e := events[0];
    && last <= When(e) <= last + gap
    && match e
       case Lost(at) => lost < 2 && Alive(p, l, a, gap, at, lost + 1, events[1..])
       case Took(i) =>
         || (IsHeard(p, l, e, a) && Alive(p, l, a, gap, i.end, 0, events[1..]))
         || (IsQuiet(p, l, e) && Alive(p, l, a, gap, last, lost, events[1..]))
  }

  /** The loop after the events; a lost advertisement is nothing to it. */
  function Lives(p: Params, l: Loop, events: seq<Event>): Did
    decreases |events|
  {
    if |events| == 0 then Did(l, [])
    else if events[0].Lost? then Lives(p, l, events[1..])
    else
      var first := Turn(p, l, events[0].i);
      Then(first, Lives(p, first.to, events[1..]))
  }

  lemma {:induction false} AliveAfterTurn(p: Params, l: Loop, l': Loop, a: u16, gap: nat, last: Time, lost: nat, events: seq<Event>)
    requires l'.vr.preempt == l.vr.preempt && l'.vr.priority == l.vr.priority && l'.vr.state == l.vr.state
    requires Alive(p, l, a, gap, last, lost, events)
    ensures Alive(p, l', a, gap, last, lost, events)
    decreases |events|
  {
    if events != [] {
      var e := events[0];
      match e {
        case Lost(at) => AliveAfterTurn(p, l, l', a, gap, at, lost + 1, events[1..]);
        case Took(i) =>
          if IsHeard(p, l, e, a) && Alive(p, l, a, gap, i.end, 0, events[1..]) {
            AliveAfterTurn(p, l, l', a, gap, i.end, 0, events[1..]);
          } else {
            AliveAfterTurn(p, l, l', a, gap, last, lost, events[1..]);
          }
      }
    }
  }

  /** How long until the third advertisement after the last one heard is due. */
  function Slack(lost: nat, gap: nat): nat {
    if lost == 0 then 3 * gap else if lost == 1 then 2 * gap else gap
  }

  lemma QuietTurn(p: Params, l: Loop, i: Input)
    requires l.outcome == Running && l.vr.state == Backup && IsQuiet(p, l, Took(i)) && i.end < l.deadline
    ensures Turn(p, l, i) == Did(l.(shown := l.vr.state), [])
  {
    var l1 := l.(shown := l.vr.state);
    assert OnHealthCheck(l, i.healthy, i.begin) == Did(l1, []);
    if i.recv.Datagram? {
      IgnoredDoesNothing(p, l1, i.recv.bytes, i.end);
    }
    NothingBefore(l1, OnSocket(p, l1, i));
  }

  /** Three gaps fit in the master-down time: no advertisement kept waiting that long goes unheard. */
  lemma {:induction false} LiveMasterKept(p: Params, l: Loop, a: u16, gap: nat, last: Time, lost: nat, events: seq<Event>)
    requires l.outcome == Running && l.vr.state == Backup && a >= 1 && lost <= 2
    requires l.vr.learned == a && 3 * gap < 10 * MasterDown(l.vr)
    requires l.deadline > last + Slack(lost, gap)
    requires Alive(p, l, a, gap, last, lost, events)
    ensures var Did(l', acts) := Lives(p, l, events);
      acts == [] && l'.vr.state == Backup && l'.outcome == Running
    decreases |events|
  {
    if events != [] {
      var e := events[0];
      match e {
        case Lost(at) => LiveMasterKept(p, l, a, gap, at, lost + 1, events[1..]);
        case Took(i) =>
          var l1 := Turn(p, l, i).to;
          if IsHeard(p, l, e, a) && Alive(p, l, a, gap, i.end, 0, events[1..]) {
            HeardRestarts(p, l, i, a);
            AliveAfterTurn(p, l, l1, a, gap, i.end, 0, events[1..]);
            LiveMasterKept(p, l1, a, gap, i.end, 0, events[1..]);
          } else {
            QuietTurn(p, l, i);
            AliveAfterTurn(p, l, l1, a, gap, last, lost, events[1..]);
            LiveMasterKept(p, l1, a, gap, last, lost, events[1..]);
          }
      }
    }
  }

  /** Whether every life under such a Master leaves the loop a Backup that did nothing. */
  ghost predicate NeverTakesOver(p: Params, l: Loop, gap: nat, heard: Time) {
    forall events :: Alive(p, l, l.vr.learned, gap, heard, 0, events)
      ==> Lives(p, l, events).to.vr.state == Backup && Lives(p, l, events).acts == []
  }

  /**
   Stability, exactly: a Backup that has just heard its Master never takes
   over from it, with up to two advertisements in a row lost, if and only if
   three gaps between advertisements are shorter than the master-down time.
   */
  lemma StableExactlyWhen(p: Params, l: Loop, gap: nat, heard: Time)
    requires Good(p, l) && l.outcome == Running && l.vr.state == Backup
    requires l.deadline == heard + 10 * MasterDown(l.vr)
    ensures NeverTakesOver(p, l, gap, heard) <==> 3 * gap < 10 * MasterDown(l.vr)
  {
    if 3 * gap < 10 * MasterDown(l.vr) {
      forall events | Alive(p, l, l.vr.learned, gap, heard, 0, events)
        ensures Lives(p, l, events).to.vr.state == Backup && Lives(p, l, events).acts == []
      {
        LiveMasterKept(p, l, l.vr.learned, gap, heard, 0, events);
      }
    } else {
      var wake := Took(Input(false, true, heard + 3 * gap, TimedOut, heard + 3 * gap, true));
      var events := [Lost(heard + gap), Lost(heard + 2 * gap), wake];
      assert events[1..] == [Lost(heard + 2 * gap), wake] && events[1..][1..] == [wake];
      assert [wake][1..] == [];
      assert Alive(p, l, l.vr.learned, gap, heard + 2 * gap, 2, [wake]);
      assert Alive(p, l, l.vr.learned, gap, heard + gap, 1, events[1..]);
      assert Alive(p, l, l.vr.learned, gap, heard, 0, events);
      assert Lives(p, l, [wake]).to.vr.state == Master;
      assert Lives(p, l, events) == Lives(p, l, [wake]);
    }
  }

  /**
   A Master that runs this loop, and hears at most `m` ignored datagrams after
   an advertisement is due, sends it up to 10 * m + 9 ms late (`AdvertGap`,
   `LatestAdvert`): two losses in a row are harmless to a Backup if and only if
   its Skew_Time is at least 3 * (m + 1) centiseconds. Under one that was never
   late it would be 1.
   */
  lemma RealMasterStable(p: Params, l: Loop, heard: Time, m: nat)
    requires Good(p, l) && l.outcome == Running && l.vr.state == Backup
    requires l.deadline == heard + 10 * MasterDown(l.vr)
    ensures NeverTakesOver(p, l, 10 * l.vr.learned + 10 * m + 9, heard) <==> Skew(l.vr) >= 3 * (m + 1)
    ensures NeverTakesOver(p, l, 10 * l.vr.learned, heard) <==> Skew(l.vr) >= 1
  {
    StableExactlyWhen(p, l, 10 * l.vr.learned + 10 * m + 9, heard);
    StableExactlyWhen(p, l, 10 * l.vr.learned, heard);
  }

  /** Where the Master's socket is busy without a bound, no Skew_Time is enough. */
  lemma NoSkewIsEnough(p: Params, l: Loop, heard: Time)
    requires Good(p, l) && l.outcome == Running && l.vr.state == Backup
    requires l.deadline == heard + 10 * MasterDown(l.vr)
    ensures exists m: nat :: !NeverTakesOver(p, l, 10 * l.vr.learned + 10 * m + 9, heard)
  {
    RealMasterStable(p, l, heard, Skew(l.vr));
  }

  /** A priority-255 Backup of a Master that advertises every 2.55 seconds or faster has no Skew_Time. */
  lemma OwnerHasNoSkew(vr: Router)
    requires vr.priority == 255 && 1 <= vr.learned < 256
    ensures Skew(vr) == 0
  {
    assert Product(1, vr.learned) == vr.learned;
  }
}
