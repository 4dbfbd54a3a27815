/**
 The VRRP v3 state machine of src/vrrp.rs: who holds the address, and when
 that changes (RFC 5798 sections 6.1, 6.4.2 and 6.4.3, and the health rule).

 `Router` is the machine's value and the functions on it are its
 specification; class `VirtualRouter` is the source's object, each method
 proved to take the object from one value to the next.
 */
module Vrrp {
  import opened Bytes

  datatype State = Initialize | Backup | Master

  /** What the caller does after an advertisement; times in centiseconds. */
  datatype OnAdvert = Ignore | ResetTimer(centis: nat) | AdvertiseNow | Demoted(centis: nat)

  /** `interval` is our own advertisement interval, `learned` the Master's. */
  datatype Router = Router(vrid: byte, priority: byte, preempt: bool, interval: u16, learned: u16, state: State)

  function IntervalCentis(secs: nat): (c: u16)
    ensures 100 <= c <= 0xfff
  {
    Min(Max(secs, 1) * 100, 0xfff)
  }

  function NewRouter(vrid: byte, priority: byte, preempt: bool, secs: nat): Router {
    Router(vrid, priority, preempt, IntervalCentis(secs), IntervalCentis(secs), Initialize)
  }

  function Skew(r: Router): nat {
    Product(256 - r.priority, r.learned) / 256
  }

  /** a times b. */
  function Product(a: nat, b: nat): nat {
    if a == 0 then 0 else b + Product(a - 1, b)
  }

  lemma {:induction false} ProductIsTimes(a: nat, b: nat)
    ensures Product(a, b) == a * b
  {
    if a > 0 {
      ProductIsTimes(a - 1, b);
      OneLess(a, b);
    }
  }

  lemma OneLess(a: int, b: int)
    ensures b + (a - 1) * b == a * b
  {
  }

  function MasterDown(r: Router): nat {
    3 * r.learned + Skew(r)
  }

  function Started(r: Router, healthy: bool): Router {
    r.(state := if r.priority == 255 && healthy then Master else Backup)
  }

  /** The second component says whether the caller takes over. */
  function AfterTimeout(r: Router, healthy: bool): (Router, bool) {
    if r.state == Backup && healthy then (r.(state := Master, learned := r.interval), true) else (r, false)
  }

  /** The second component says whether the caller resigns. */
  function AfterHealth(r: Router, healthy: bool): (Router, bool) {
    if r.state == Master && !healthy then (r.(state := Backup), true) else (r, false)
  }

  /** The election order: priority first, then address. */
  predicate Outranks(priority: byte, addr: Ipv4, thanPriority: byte, thanAddr: Ipv4) {
    priority > thanPriority || (priority == thanPriority && Higher(addr, thanAddr))
  }

  /** Whether a Backup takes an advertisement of this priority as its Master's. */
  predicate Follows(r: Router, priority: byte) {
    priority != 0 && (!r.preempt || priority >= r.priority)
  }

  function AfterAdvert(r: Router, priority: byte, peer: Ipv4, us: Ipv4, interval: u16): (Router, OnAdvert) {
    match r.state
    case Backup =>
      if priority == 0 then (r, ResetTimer(Skew(r)))
      else if Follows(r, priority) then
        var r' := r.(learned := Max(interval, 1));
        (r', ResetTimer(MasterDown(r')))
      else (r, Ignore)
    case Master =>
      if priority == 0 then (r, AdvertiseNow)
      else if Outranks(priority, peer, r.priority, us) then
        var r' := r.(state := Backup, learned := Max(interval, 1));
        (r', Demoted(MasterDown(r')))
      else (r, Ignore)
    case Initialize => (r, Ignore)
  }

  class VirtualRouter {
    const vrid: byte
    const priority: byte
    const preempt: bool
    const interval: u16
    var learned: u16
    var state: State

    ghost function Value(): Router
      reads this
    {
      Router(vrid, priority, preempt, interval, learned, state)
    }

    constructor (vrid: byte, priority: byte, preempt: bool, secs: nat)
      ensures Value() == NewRouter(vrid, priority, preempt, secs)
    {
      this.vrid, this.priority, this.preempt := vrid, priority, preempt;
      var centis := IntervalCentis(secs);
      interval, learned := centis, centis;
      state := Initialize;
    }

    method SkewCentis() returns (c: u32)
      ensures c == Skew(Value())
    {
      SkewBound(Value());
      ProductIsTimes(256 - priority, learned);
      c := (256 - priority as int) * (learned as int) / 256;
    }

    method MasterDownCentis() returns (c: u32)
      ensures c == MasterDown(Value())
    {
      SkewBound(Value());
      var s := SkewCentis();
      c := 3 * (learned as int) + s;
    }

    method Start(healthy: bool) returns (s: State)
      modifies this
      ensures Value() == Started(old(Value()), healthy) && s == state
    {
      state := if priority == 255 && healthy then Master else Backup;
      s := state;
    }

    method OnMasterDownTimeout(healthy: bool) returns (takeOver: bool)
      modifies this
      ensures (Value(), takeOver) == AfterTimeout(old(Value()), healthy)
    {
      if state == Backup && healthy {
        state := Master;
        learned := interval;
        return true;
      }
      return false;
    }

    method OnHealth(healthy: bool) returns (resign: bool)
      modifies this
      ensures (Value(), resign) == AfterHealth(old(Value()), healthy)
    {
      if state == Master && !healthy {
        state := Backup;
        return true;
      }
      return false;
    }

    method OnAdvertisement(priority: byte, peer: Ipv4, us: Ipv4, interval: u16) returns (what: OnAdvert)
      modifies this
      ensures (Value(), what) == AfterAdvert(old(Value()), priority, peer, us, interval)
    {
      match state {
        case Backup =>
          if priority == 0 {
            var c := SkewCentis();
            what := ResetTimer(c);
          } else if !preempt || priority >= this.priority {
            learned := Max(interval, 1);
            var c := MasterDownCentis();
            what := ResetTimer(c);
          } else {
            what := Ignore;
          }
        case Master =>
          if priority == 0 {
            what := AdvertiseNow;
          } else if priority > this.priority || (priority == this.priority && Higher(peer, us)) {
            state := Backup;
            learned := Max(interval, 1);
            var c := MasterDownCentis();
            what := Demoted(c);
          } else {
            what := Ignore;
          }
        case Initialize => what := Ignore;
      }
    }
  }

  // ----- what the machine decides, from its numbers -----------------------------

  /** The interval in centiseconds: at least a second, and at most what 12 bits hold. */
  lemma IntervalIs(secs: nat)
    ensures IntervalCentis(secs) == if secs == 0 then 100 else if secs <= 40 then 100 * secs else 4095
  {
  }

  /** Skew_Time and the master-down time (section 6.1 of RFC 5798), in centiseconds. */
  lemma TimesAre(r: Router)
    ensures Skew(r) == (256 - r.priority) * r.learned / 256
    ensures MasterDown(r) == 3 * r.learned + (256 - r.priority) * r.learned / 256
  {
    ProductIsTimes(256 - r.priority, r.learned);
  }

  /**
   A Backup's timer is restarted by an advertisement of a nonzero priority if
   and only if it does not preempt or the priority is at least its own, and
   then for three of the Master's intervals, at least a centisecond each, and
   a skew; any other is ignored. A resignation cuts the wait to the skew.
   */
  lemma BackupFollowsExactlyWhen(r: Router, priority: byte, peer: Ipv4, us: Ipv4, interval: u16)
    requires r.state == Backup
    ensures var (r', what) := AfterAdvert(r, priority, peer, us, interval);
      && (priority == 0 ==> r' == r && what == ResetTimer(Skew(r)))
      && (priority != 0 && (!r.preempt || priority >= r.priority) ==>
            && r' == r.(learned := if interval == 0 then 1 else interval)
            && what == ResetTimer(3 * r'.learned + Skew(r')))
      && (priority != 0 && r.preempt && priority < r.priority ==> r' == r && what == Ignore)
  {
  }

  /**
   A Master gives up the address if and only if it hears a higher priority, or
   its own from a higher address; it answers a resignation, and ignores the
   rest.
   */
  lemma MasterYieldsExactlyWhen(r: Router, priority: byte, peer: Ipv4, us: Ipv4, interval: u16)
    requires r.state == Master
    ensures var (r', what) := AfterAdvert(r, priority, peer, us, interval);
      if priority == 0 then r' == r && what == AdvertiseNow
      else if priority > r.priority || (priority == r.priority && Number(peer) > Number(us)) then
        && r' == r.(state := Backup, learned := if interval == 0 then 1 else interval)
        && what == Demoted(3 * r'.learned + Skew(r'))
      else r' == r && what == Ignore
  {
    HigherIsGreater(peer, us);
  }

  /** Before the machine is started it heeds nothing; a healthy priority 255 starts as Master, all else as Backup. */
  lemma StartsAs(r: Router, healthy: bool, priority: byte, peer: Ipv4, us: Ipv4, interval: u16)
    ensures Started(r, healthy) == r.(state := if healthy && r.priority == 255 then Master else Backup)
    ensures r.state == Initialize ==> AfterAdvert(r, priority, peer, us, interval) == (r, Ignore)
  {
  }

  /** Skew_Time is at most the learned interval, and below it for a nonzero priority. */
  lemma SkewBound(r: Router)
    ensures Skew(r) <= r.learned
    ensures 0 < r.priority && 0 < r.learned ==> Skew(r) < r.learned
  {
    var most: nat := if 0 < r.priority then 255 else 256;
    MulMono(256 - r.priority, most, r.learned);
    ProductIsTimes(most, r.learned);
  }

  lemma {:induction false} MulMono(a: nat, b: nat, c: nat)
    requires a <= b
    ensures Product(a, c) <= Product(b, c)
    decreases b
  {
    if a < b {
      MulMono(a, b - 1, c);
    }
  }

  /** Priorities `d` apart wake at least d * interval / 256 centiseconds apart, higher first. */
  lemma SkewOrdersPriorities(high: Router, low: Router)
    requires high.learned == low.learned && high.priority > low.priority
    ensures Skew(low) >= Skew(high) + (high.priority - low.priority) * high.learned / 256
    ensures (high.priority - low.priority) * high.learned >= 256 ==> MasterDown(high) < MasterDown(low)
  {
    var a, b := Product(256 - high.priority, high.learned), Product(high.priority - low.priority, high.learned);
    Distribute(256 - high.priority, high.priority - low.priority, high.learned);
    ProductIsTimes(high.priority - low.priority, high.learned);
    FloorSum(a, b);
  }

  /** So 256 and 512 for the product are one and two centiseconds. */
  lemma ProductsApart(high: Router, low: Router, product: int)
    requires high.learned == low.learned && high.priority > low.priority
    requires product == (high.priority - low.priority) * high.learned
    ensures product >= 256 ==> Skew(high) < Skew(low)
    ensures product >= 512 ==> Skew(high) + 2 <= Skew(low)
  {
    SkewOrdersPriorities(high, low);
  }

  lemma {:induction false} Distribute(a: nat, b: nat, c: nat)
    ensures Product(a + b, c) == Product(a, c) + Product(b, c)
  {
    if a > 0 {
      Distribute(a - 1, b, c);
    }
  }

  lemma FloorSum(a: nat, b: nat)
    ensures (a + b) / 256 >= a / 256 + b / 256
  {
  }

  /** Under a Master that advertises every `a` centiseconds, any two priorities' skews are `gap` apart, higher first. */
  ghost predicate Apart(a: u16, gap: nat) {
    forall high: Router, low: Router ::
      high.learned == a && low.learned == a && 0 < low.priority < high.priority ==> Skew(high) + gap <= Skew(low)
  }

  /**
   Between 1 and 255 no two priorities share a Skew_Time exactly if the Master
   advertises every 2.55 seconds or slower, and all are two centiseconds apart
   exactly from 5.11 seconds on.
   */
  lemma ApartExactlyWhen(a: u16)
    ensures Apart(a, 1) <==> a >= 255
    ensures Apart(a, 2) <==> a >= 511
  {
    if a >= 255 {
      AllApart(a, 1);
    } else if Apart(a, 1) {
      SkewsClimb(a, 1, 1);
      ProductIsTimes(254, 1);
      SkewEnds(a);
    }
    if a >= 511 {
      AllApart(a, 2);
    } else if Apart(a, 2) {
      SkewsClimb(a, 2, 1);
      ProductIsTimes(254, 2);
      SkewEnds(a);
    }
  }

  function BackupOf(a: u16, priority: byte): Router {
    Router(1, priority, true, 100, a, Backup)
  }

  /** The skews of the lowest and the highest priority. */
  lemma SkewEnds(a: u16)
    ensures Skew(BackupOf(a, 1)) == 255 * a / 256 && Skew(BackupOf(a, 255)) == a / 256
  {
    ProductIsTimes(255, a);
    ProductIsTimes(1, a);
  }

  lemma {:induction false} SkewsClimb(a: u16, gap: nat, priority: byte)
    requires Apart(a, gap) && 1 <= priority
    ensures Skew(BackupOf(a, priority)) >= Skew(BackupOf(a, 255)) + Product(255 - priority, gap)
    decreases 255 - priority
  {
    if priority < 255 {
      SkewsClimb(a, gap, priority + 1);
    }
  }

  lemma AllApart(a: u16, gap: nat)
    requires (gap == 1 && a >= 255) || (gap == 2 && a >= 511)
    ensures Apart(a, gap)
  {
    forall high: Router, low: Router | high.learned == a && low.learned == a && 0 < low.priority < high.priority
      ensures Skew(high) + gap <= Skew(low)
    {
      var k, d := 256 - high.priority, high.priority - low.priority;
      if a >= 256 * gap {
        Distribute(k, d, a);
        MulMono(1, d, a);
        FloorSum(Product(k, a), Product(d, a));
      } else {
        OneShort(k, gap);
        OneShort(k + d, gap);
      }
    }
  }

  /** One centisecond short of a multiple of 256, all skews are one short of a multiple. */
  lemma OneShort(k: nat, gap: nat)
    requires 1 <= k <= 256 && (gap == 1 || gap == 2)
    ensures Product(k, 256 * gap - 1) / 256 == gap * k - 1
  {
    ProductIsTimes(k, 256 * gap - 1);
    if gap == 1 {
      assert k * 255 == 256 * (k - 1) + (256 - k);
    } else {
      assert k * 511 == 256 * (2 * k - 1) + (256 - k);
    }
  }
}
