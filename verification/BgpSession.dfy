/**
 One BGP peering session of src/bgp.rs, from its OPEN to its end (RFC 4271
 section 8.2.2, as far as a speaker of one route needs).

 What happens to the session (`Happening`) is arbitrary: what arrives, which
 timer fires, what health becomes, when, and whether a write goes through or
 is cut after some bytes. Times are milliseconds.
 */
module BgpSession {
  import opened Bytes
  import opened BgpCodec

  datatype Settings = Settings(peerAsn: u32, localAsn: u16, id: Ipv4, nextHop: Ipv4, vip: Ipv4)

  /** A write of a whole message, or one that fails after `n` bytes of it. */
  datatype Write = Done | Cut(n: nat)

  /**
   `WaitOver` is the timeout of a wait for the peer's OPEN or KEEPALIVE, `Tick`
   the keepalive ticker, `HoldTimer` the hold timer's sleep, `Health` a change
   of the advertise watch, seen with its newest value.
   */
  datatype Event = Received(msg: Msg) | ReadFailed | WaitOver | Tick | HoldTimer | Health(want: bool) | HealthGone

  datatype Happening = Happening(event: Event, at: Time, write: Write)

  datatype Phase = OpenSent | OpenConfirm | Established | Closed

  /** `sent` are the messages written whole, `tail` the bytes of one that was cut. */
  datatype State = State(phase: Phase, hold: u16, deadline: Time, announced: bool, sent: seq<Msg>, tail: seq<byte>)

  /** The "never" of the hold timer and the ticker: 365 days. */
  const FAR: Time := 365 * 24 * 3600 * 1000

  /** The UPDATE that changes what the peer has: a withdrawal of what is announced, or an announcement. */
  function NextUpdate(cfg: Settings, announced: bool): (m: Msg)
    ensures m.kind == UPDATE && |m.body| <= MAX_BODY
  {
    if announced then WithdrawMsg(Prefix(cfg.vip, 32)) else AnnounceMsg(cfg.localAsn, cfg.nextHop, Prefix(cfg.vip, 32))
  }

  function Written(s: State, m: Msg, w: Write): State {
    match w
    case Done => s.(sent := s.sent + [m])
    case Cut(n) =>
      var bytes := Message(m.kind, m.body);
      s.(phase := Closed, tail := bytes[..if n < |bytes| then n else |bytes| - 1])
  }

  /** A NOTIFICATION, written if it can be, ends the session. */
  function Notified(s: State, code: byte, sub: byte, w: Write): State {
    Written(s, NotificationMsg(code, sub), w).(phase := Closed)
  }

  function Start(cfg: Settings, w: Write): State {
    Written(State(OpenSent, 0, 0, false, [], []), OpenMsg(cfg.localAsn, HOLD_TIME, cfg.id), w)
  }

  function MinHold(peer: u16): u16 {
    Min(HOLD_TIME, peer)
  }

  function HoldMillis(hold: u16): Time {
    if hold == 0 then FAR else 1000 * (hold as int)
  }

  function InOpenSent(cfg: Settings, s: State, h: Happening): State {
    match h.event
    case Received(m) =>
      if m.kind == OPEN then
        match CheckOpen(m.body, cfg.peerAsn)
        case Refuse(code, sub) => Notified(s, code, sub, h.write)
        case Accept(hold) => Written(s.(phase := OpenConfirm, hold := MinHold(hold)), KeepaliveMsg(), h.write)
      else if m.kind == NOTIFICATION then s.(phase := Closed)
      else Notified(s, ERR_FSM, 0, h.write)
    case ReadFailed => s.(phase := Closed)
    case WaitOver => Notified(s, ERR_HOLD_EXPIRED, 0, h.write)
    case _ => s
  }

  function InOpenConfirm(s: State, h: Happening): State {
    match h.event
    case Received(m) =>
      if m.kind == KEEPALIVE then s.(phase := Established, deadline := h.at + HoldMillis(s.hold), announced := false)
      else if m.kind == NOTIFICATION then s.(phase := Closed)
      else Notified(s, ERR_FSM, 0, h.write)
    case ReadFailed => s.(phase := Closed)
    case WaitOver => Notified(s, ERR_HOLD_EXPIRED, 0, h.write)
    case _ => s
  }

  /** What a message does to an Established session, by its kind. */
  function OnMessage(s: State, kind: byte, w: Write): State {
    if kind == KEEPALIVE || kind == UPDATE then s
    else if kind == NOTIFICATION then s.(phase := Closed)
    else if kind == OPEN then Notified(s, ERR_FSM, 0, w)
    else Notified(s, ERR_HEADER, 3, w)
  }

  function InEstablished(cfg: Settings, s: State, h: Happening): State {
    match h.event
    case Tick => Written(s, KeepaliveMsg(), h.write)
    case HoldTimer => if h.at >= s.deadline then Notified(s, ERR_HOLD_EXPIRED, 0, h.write) else s
    case HealthGone => s.(phase := Closed)
    case Health(want) =>
      if want && !s.announced then
        var s' := Written(s, NextUpdate(cfg, false), h.write);
        s'.(announced := s'.phase == Established)
      else if !want && s.announced then
        var s' := Written(s, NextUpdate(cfg, true), h.write);
        s'.(announced := s'.phase != Established)
      else s
    case ReadFailed => s.(phase := Closed)
    case Received(m) =>
      OnMessage(s.(deadline := if s.hold != 0 then h.at + HoldMillis(s.hold) else s.deadline), m.kind, h.write)
    case WaitOver => s
  }

  function Step(cfg: Settings, s: State, h: Happening): State {
    match s.phase
    case OpenSent => InOpenSent(cfg, s, h)
    case OpenConfirm => InOpenConfirm(s, h)
    case Established => InEstablished(cfg, s, h)
    case Closed => s
  }

  /** The session after everything in `hs` has happened. */
  function Run(cfg: Settings, w: Write, hs: seq<Happening>): State {
    if |hs| == 0 then Start(cfg, w) else Step(cfg, Run(cfg, w, hs[..|hs| - 1]), hs[|hs| - 1])
  }

  /** The source's session: its locals, and the bytes put on the wire. */
  class Session {
    const cfg: Settings
    var phase: Phase
    var hold: u16
    var deadline: Time
    var announced: bool
    var sent: seq<Msg>
    var tail: seq<byte>

    ghost function Value(): State
      reads this
    {
      State(phase, hold, deadline, announced, sent, tail)
    }

    constructor (cfg: Settings, w: Write)
      ensures this.cfg == cfg && Value() == Start(cfg, w)
    {
      this.cfg := cfg;
      phase, hold, deadline, announced := OpenSent, 0, 0, false;
      sent, tail := [], [];
      new;
      WriteAll(OpenMsg(cfg.localAsn, HOLD_TIME, cfg.id), w);
    }

    method WriteAll(m: Msg, w: Write)
      modifies this`sent, this`tail, this`phase
      ensures Value() == Written(old(Value()), m, w)
    {
      match w {
        case Done => sent := sent + [m];
        case Cut(n) =>
          var bytes := Message(m.kind, m.body);
          tail := bytes[..if n < |bytes| then n else |bytes| - 1];
          phase := Closed;
      }
    }

    method Notify(code: byte, sub: byte, w: Write)
      modifies this`sent, this`tail, this`phase
      ensures Value() == Notified(old(Value()), code, sub, w)
    {
      WriteAll(NotificationMsg(code, sub), w);
      phase := Closed;
    }

    method AwaitOpen(h: Happening)
      requires phase == OpenSent
      modifies this
      ensures Value() == InOpenSent(cfg, old(Value()), h)
    {
      match h.event {
        case Received(m) =>
          if m.kind == OPEN {
            match CheckOpen(m.body, cfg.peerAsn) {
              case Refuse(code, sub) => Notify(code, sub, h.write);
              case Accept(peerHold) =>
                phase, hold := OpenConfirm, MinHold(peerHold);
                WriteAll(KeepaliveMsg(), h.write);
            }
          } else if m.kind == NOTIFICATION {
            phase := Closed;
          } else {
            Notify(ERR_FSM, 0, h.write);
          }
        case ReadFailed => phase := Closed;
        case WaitOver => Notify(ERR_HOLD_EXPIRED, 0, h.write);
        case _ =>
      }
    }

    method AwaitKeepalive(h: Happening)
      requires phase == OpenConfirm
      modifies this
      ensures Value() == InOpenConfirm(old(Value()), h)
    {
      match h.event {
        case Received(m) =>
          if m.kind == KEEPALIVE {
            phase, announced := Established, false;
            deadline := h.at + HoldMillis(hold);
          } else if m.kind == NOTIFICATION {
            phase := Closed;
          } else {
            Notify(ERR_FSM, 0, h.write);
          }
        case ReadFailed => phase := Closed;
        case WaitOver => Notify(ERR_HOLD_EXPIRED, 0, h.write);
        case _ =>
      }
    }

    /** One arm of the select loop. */
    method Select(h: Happening)
      requires phase == Established
      modifies this
      ensures Value() == InEstablished(cfg, old(Value()), h)
    {
      match h.event {
        case Tick => WriteAll(KeepaliveMsg(), h.write);
        case HoldTimer =>
          if h.at >= deadline {
            Notify(ERR_HOLD_EXPIRED, 0, h.write);
          }
        case HealthGone => phase := Closed;
        case Health(want) =>
          if want && !announced {
            WriteAll(NextUpdate(cfg, false), h.write);
            if phase == Established {
              announced := true;
            }
          } else if !want && announced {
            WriteAll(NextUpdate(cfg, true), h.write);
            if phase == Established {
              announced := false;
            }
          }
        case ReadFailed => phase := Closed;
        case Received(m) =>
          if hold != 0 {
            deadline := h.at + HoldMillis(hold);
          }
          if m.kind == KEEPALIVE || m.kind == UPDATE {
          } else if m.kind == NOTIFICATION {
            phase := Closed;
          } else if m.kind == OPEN {
            Notify(ERR_FSM, 0, h.write);
          } else {
            Notify(ERR_HEADER, 3, h.write);
          }
        case WaitOver =>
      }
    }

    method Drive(w: Write, hs: seq<Happening>)
      requires Value() == Run(cfg, w, [])
      modifies this
      ensures Value() == Run(cfg, w, hs)
    {
      var i := 0;
      while i < |hs| && phase != Closed
        invariant 0 <= i <= |hs| && Value() == Run(cfg, w, hs[..i])
      {
        OneMore(cfg, w, hs, i);
        Meet(hs[i]);
        i := i + 1;
      }
      ClosedStays(cfg, w, hs, i);
    }

    /** What the session does next depends on where it is. */
    method Meet(h: Happening)
      requires phase != Closed
      modifies this
      ensures Value() == Step(cfg, old(Value()), h)
    {
      match phase {
        case OpenSent => AwaitOpen(h);
        case OpenConfirm => AwaitKeepalive(h);
        case Established => Select(h);
      }
    }
  }

  lemma OneMore(cfg: Settings, w: Write, hs: seq<Happening>, i: nat)
    requires i < |hs|
    ensures Run(cfg, w, hs[..i + 1]) == Step(cfg, Run(cfg, w, hs[..i]), hs[i])
  {
    assert hs[..i + 1][..i] == hs[..i];
  }

  lemma {:induction false} ClosedStays(cfg: Settings, w: Write, hs: seq<Happening>, i: nat)
    requires i <= |hs| && (i < |hs| ==> Run(cfg, w, hs[..i]).phase == Closed)
    ensures Run(cfg, w, hs) == Run(cfg, w, hs[..i])
  {
    if i == |hs| {
      assert hs[..i] == hs;
    } else {
      assert hs[..|hs| - 1][..i] == hs[..i];
      ClosedStays(cfg, w, hs[..|hs| - 1], i);
    }
  }

  /**
   The hold time that both ends come to: whatever OPEN is accepted, ours is the
   least of the two, is 0 exactly if the peer's is, and is otherwise 3 to 180
   seconds; a peer that takes the least of the two comes to the same.
   */
  lemma HoldNegotiated(body: seq<byte>, wantAsn: u32, cfg: Settings, peerWants: u32)
    requires CheckOpen(body, wantAsn).Accept?
    ensures var theirs := CheckOpen(body, wantAsn).hold;
      var hold := MinHold(theirs);
      && hold <= theirs && (hold == 0 <==> theirs == 0) && (hold == 0 || 3 <= hold <= HOLD_TIME)
      && (CheckOpen(OpenMsg(cfg.localAsn, HOLD_TIME, cfg.id).body, peerWants).Accept? ==>
            hold == Min(theirs, CheckOpen(OpenMsg(cfg.localAsn, HOLD_TIME, cfg.id).body, peerWants).hold))
  {
    OpenChecked(4, cfg.localAsn, HOLD_TIME, Octets(cfg.id) + [0], peerWants);
    assert OpenMsg(cfg.localAsn, HOLD_TIME, cfg.id).body == [4] + Be16(cfg.localAsn) + Be16(HOLD_TIME) + (Octets(cfg.id) + [0]);
  }

  // ----- when a session lives on, and what it says when it does not ------------------------

  /** The message goes out, if there is one and the write works. */
  predicate Says(s: State, s': State, reply: Option<Msg>, w: Write) {
    s'.sent == s.sent + if reply.Some? && w.Done? then [reply.value] else []
  }

  function Notification(code: byte, sub: byte): Option<Msg> {
    Some(Msg(3, [code, sub]))
  }

  /** What an Established session has to write. */
  predicate HasToWrite(s: State, h: Happening) {
    h.event == Tick || (h.event.Health? && h.event.want != s.announced)
  }

  /**
   An Established session lives on if and only if its hold timer is not due,
   nothing fails, health is still told, and what arrives is a KEEPALIVE (4) or
   an UPDATE (2). It ends with a NOTIFICATION of code 4 for the hold timer, 5
   for an OPEN (1), and 1 with subcode 3 for a type it does not know; it
   answers a NOTIFICATION (3) with nothing.
   */
  lemma EstablishedExactlyWhen(cfg: Settings, s: State, h: Happening)
    requires s.phase == Established
    ensures var s' := InEstablished(cfg, s, h);
      && s'.phase == (if s'.phase == Closed then Closed else Established)
      && (s'.phase == Established <==>
            && !(h.event == HoldTimer && h.at >= s.deadline)
            && h.event != ReadFailed && h.event != HealthGone
            && (HasToWrite(s, h) ==> h.write.Done?)
            && (h.event.Received? ==> h.event.msg.kind == 4 || h.event.msg.kind == 2))
      && Says(s, s', (match h.event
                      case Tick => Some(Msg(4, []))
                      case HoldTimer => if h.at >= s.deadline then Notification(4, 0) else None
                      case Health(want) => if want != s.announced then Some(NextUpdate(cfg, s.announced)) else None
                      case Received(m) =>
                        if 2 <= m.kind <= 4 then None else if m.kind == 1 then Notification(5, 0) else Notification(1, 3)
                      case _ => None), h.write)
      && (s'.phase == Established ==>
            s'.announced == if h.event.Health? then h.event.want else s.announced)
  {
  }

  /**
   In OpenSent the session goes on, to OpenConfirm, if and only if a good OPEN
   arrives and its answer can be written; it waits while nothing arrives. It
   ends with the code of a bad OPEN, with 5 for another message, with 4 when
   the wait is over; it answers a NOTIFICATION with nothing.
   */
  lemma OpenSentExactlyWhen(cfg: Settings, s: State, h: Happening)
    requires s.phase == OpenSent
    ensures var s' := InOpenSent(cfg, s, h);
      && (s'.phase == OpenConfirm <==>
            h.event.Received? && h.event.msg.kind == 1 && CheckOpen(h.event.msg.body, cfg.peerAsn).Accept? && h.write.Done?)
      && (s'.phase == OpenSent <==> !h.event.Received? && h.event != ReadFailed && h.event != WaitOver)
      && s'.phase != Established
      && (s'.phase == OpenConfirm ==> s'.hold == Min(180, CheckOpen(h.event.msg.body, cfg.peerAsn).hold))
      && Says(s, s', (match h.event
                      case Received(m) =>
                        if m.kind == 3 then None
                        else if m.kind != 1 then Notification(5, 0)
                        else (match CheckOpen(m.body, cfg.peerAsn)
                              case Accept(_) => Some(Msg(4, []))
                              case Refuse(code, sub) => Notification(code, sub))
                      case WaitOver => Notification(4, 0)
                      case _ => None), h.write)
  {
  }

  /**
   In OpenConfirm it goes on, to Established, if and only if a KEEPALIVE
   arrives, with nothing announced and the deadline a hold time away. It ends
   with 5 for another message but a NOTIFICATION, and with 4 when the wait is
   over.
   */
  lemma OpenConfirmExactlyWhen(s: State, h: Happening)
    requires s.phase == OpenConfirm
    ensures var s' := InOpenConfirm(s, h);
      && (s'.phase == Established <==> h.event.Received? && h.event.msg.kind == 4)
      && (s'.phase == OpenConfirm <==> !h.event.Received? && h.event != ReadFailed && h.event != WaitOver)
      && s'.phase != OpenSent
      && (s'.phase == Established ==>
            && !s'.announced && s'.hold == s.hold
            && s'.deadline == h.at + if s.hold == 0 then 365 * 86_400_000 else 1000 * (s.hold as int))
      && Says(s, s', (match h.event
                      case Received(m) => if m.kind == 3 || m.kind == 4 then None else Notification(5, 0)
                      case WaitOver => Notification(4, 0)
                      case _ => None), h.write)
  {
  }

  // ----- what the peer sees ----------------------------------------------------------

  /** The messages that arrived, in order. */
  function Heard(hs: seq<Happening>): seq<Msg> {
    if |hs| == 0 then [] else
    Heard(hs[..|hs| - 1]) + (if hs[|hs| - 1].event.Received? then [hs[|hs| - 1].event.msg] else [])
  }

  /** Only the last message is a NOTIFICATION, a code and a subcode. */
  ghost predicate NotifiesLast(sent: seq<Msg>) {
    forall k :: 0 <= k < |sent| && sent[k].kind == NOTIFICATION ==> k == |sent| - 1 && |sent[k].body| == 2
  }

  /** What is sent after the OPEN and the first KEEPALIVE, apart from a NOTIFICATION. */
  predicate Running(cfg: Settings, m: Msg) {
    m == KeepaliveMsg() || IsUpdate(cfg, m)
  }

  predicate IsUpdate(cfg: Settings, m: Msg) {
    exists announced :: m == NextUpdate(cfg, announced)
  }

  /** The UPDATEs among the messages sent. */
  function Updates(sent: seq<Msg>): seq<Msg> {
    if |sent| == 0 then [] else
    Updates(sent[..|sent| - 1]) + (if sent[|sent| - 1].kind == UPDATE then [sent[|sent| - 1]] else [])
  }

  /** Announce, withdraw, announce, and so on. */
  ghost predicate AlternateUpdates(cfg: Settings, updates: seq<Msg>) {
    forall k :: 0 <= k < |updates| ==> updates[k] == NextUpdate(cfg, k % 2 == 1)
  }

  predicate ValidOpen(cfg: Settings, m: Msg) {
    m.kind == OPEN && CheckOpen(m.body, cfg.peerAsn).Accept?
  }

  /** The shape of everything sent up to now. */
  ghost predicate Lawful(cfg: Settings, sent: seq<Msg>) {
    && (|sent| >= 1 ==> sent[0] == OpenMsg(cfg.localAsn, HOLD_TIME, cfg.id))
    && (|sent| >= 2 ==> sent[1] == KeepaliveMsg() || sent[1].kind == NOTIFICATION)
    && (forall k :: 2 <= k < |sent| ==> Running(cfg, sent[k]) || sent[k].kind == NOTIFICATION)
    && NotifiesLast(sent)
    && AlternateUpdates(cfg, Updates(sent))
  }

  ghost predicate NoNotification(sent: seq<Msg>) {
    forall k :: 0 <= k < |sent| ==> sent[k].kind != NOTIFICATION
  }

  /** What has been heard allows what has been sent. */
  ghost predicate Entitled(cfg: Settings, heard: seq<Msg>, sent: seq<Msg>) {
    && (|sent| >= 2 && sent[1] == KeepaliveMsg() ==> |heard| >= 1 && ValidOpen(cfg, heard[0]))
    && (Updates(sent) != [] ==> |heard| >= 2 && heard[1].kind == KEEPALIVE && |sent| >= 2 && sent[1] == KeepaliveMsg())
  }

  /** Where the session stands in its exchange. */
  ghost predicate Placed(cfg: Settings, heard: seq<Msg>, s: State) {
    match s.phase
    case OpenSent => heard == [] && |s.sent| == 1 && !s.announced
    case OpenConfirm =>
      |heard| == 1 && ValidOpen(cfg, heard[0]) && |s.sent| == 2 && s.sent[1] == KeepaliveMsg() && !s.announced
    case Established =>
      && |heard| >= 2 && ValidOpen(cfg, heard[0]) && heard[1].kind == KEEPALIVE
      && |s.sent| >= 2 && s.sent[1] == KeepaliveMsg()
    case Closed => true
  }

  ghost predicate Kept(cfg: Settings, heard: seq<Msg>, s: State) {
    && Lawful(cfg, s.sent) && Entitled(cfg, heard, s.sent) && Placed(cfg, heard, s)
    && (s.phase != Closed ==> s.tail == [] && NoNotification(s.sent))
    && (s.announced <==> |Updates(s.sent)| % 2 == 1)
    && ReadMsg(s.tail) == BgpCodec.Failed
    && (s.phase == OpenConfirm || s.phase == Established ==> s.hold == 0 || 3 <= s.hold <= 180)
  }

  lemma UpdatesOne(sent: seq<Msg>, m: Msg)
    ensures Updates(sent + [m]) == Updates(sent) + if m.kind == UPDATE then [m] else []
  {
    assert (sent + [m])[..|sent|] == sent;
  }

  lemma HeardOne(hs: seq<Happening>, h: Happening)
    ensures Heard(hs + [h]) == Heard(hs) + if h.event.Received? then [h.event.msg] else []
  {
    assert (hs + [h])[..|hs|] == hs;
  }

  /** More heard never takes away what was earned. */
  lemma EntitledStill(cfg: Settings, heard: seq<Msg>, more: seq<Msg>, sent: seq<Msg>)
    requires Entitled(cfg, heard, sent)
    ensures Entitled(cfg, heard + more, sent)
  {
  }

  /** A NOTIFICATION after anything that has none is lawful, and the end. */
  lemma NotifiedKept(cfg: Settings, heard: seq<Msg>, s: State, code: byte, sub: byte, w: Write)
    requires Lawful(cfg, s.sent) && Entitled(cfg, heard, s.sent) && NoNotification(s.sent) && |s.sent| >= 1
    requires s.announced <==> |Updates(s.sent)| % 2 == 1
    requires s.tail == []
    ensures Kept(cfg, heard, Notified(s, code, sub, w))
  {
    NotifiedLawful(cfg, heard, s.sent, NotificationMsg(code, sub));
    CutTail(NotificationMsg(code, sub), w);
  }

  lemma NotifiedLawful(cfg: Settings, heard: seq<Msg>, sent: seq<Msg>, m: Msg)
    requires Lawful(cfg, sent) && Entitled(cfg, heard, sent) && NoNotification(sent) && |sent| >= 1
    requires m.kind == NOTIFICATION && |m.body| == 2
    ensures Lawful(cfg, sent + [m]) && Entitled(cfg, heard, sent + [m]) && Updates(sent + [m]) == Updates(sent)
  {
    UpdatesOne(sent, m);
  }

  lemma CutTail(m: Msg, w: Write)
    requires |m.body| <= MAX_BODY
    ensures ReadMsg([]) == BgpCodec.Failed
    ensures w.Cut? ==>
      var bytes := Message(m.kind, m.body);
      ReadMsg(bytes[..if w.n < |bytes| then w.n else |bytes| - 1]) == BgpCodec.Failed
  {
    if w.Cut? {
      var bytes := Message(m.kind, m.body);
      CutMessageIncomplete(m.kind, m.body, if w.n < |bytes| then w.n else |bytes| - 1);
    }
  }

  lemma StartKept(cfg: Settings, w: Write)
    ensures Kept(cfg, [], Start(cfg, w))
  {
    var m := OpenMsg(cfg.localAsn, HOLD_TIME, cfg.id);
    UpdatesOne([], m);
    CutTail(m, w);
    assert [] + [m] == [m];
  }

  /** The peer's OPEN is good: our KEEPALIVE answers it. */
  lemma OpenAnswered(cfg: Settings, m: Msg, s: State, hold: u16, w: Write)
    requires Kept(cfg, [], s) && s.phase == OpenSent
    requires m.kind == OPEN && CheckOpen(m.body, cfg.peerAsn) == Accept(hold)
    ensures Kept(cfg, [m], Written(s.(phase := OpenConfirm, hold := MinHold(hold)), KeepaliveMsg(), w))
  {
    EntitledStill(cfg, [], [m], s.sent);
    assert [] + [m] == [m];
    UpdatesOne(s.sent, KeepaliveMsg());
    CutTail(KeepaliveMsg(), w);
  }

  lemma OpenSentKept(cfg: Settings, heard: seq<Msg>, s: State, h: Happening)
    requires Kept(cfg, heard, s) && s.phase == OpenSent
    ensures Kept(cfg, heard + (if h.event.Received? then [h.event.msg] else []), InOpenSent(cfg, s, h))
  {
    var heard' := heard + (if h.event.Received? then [h.event.msg] else []);
    EntitledStill(cfg, heard, if h.event.Received? then [h.event.msg] else [], s.sent);
    match h.event {
      case Received(m) =>
        assert heard' == [m];
        if m.kind == OPEN {
          match CheckOpen(m.body, cfg.peerAsn) {
            case Refuse(code, sub) => NotifiedKept(cfg, heard', s, code, sub, h.write);
            case Accept(hold) => OpenAnswered(cfg, m, s, hold, h.write);
          }
        } else if m.kind != NOTIFICATION {
          NotifiedKept(cfg, heard', s, ERR_FSM, 0, h.write);
        }
      case WaitOver => NotifiedKept(cfg, heard', s, ERR_HOLD_EXPIRED, 0, h.write);
      case _ =>
    }
  }

  lemma OpenConfirmKept(cfg: Settings, heard: seq<Msg>, s: State, h: Happening)
    requires Kept(cfg, heard, s) && s.phase == OpenConfirm
    ensures Kept(cfg, heard + (if h.event.Received? then [h.event.msg] else []), InOpenConfirm(s, h))
  {
    var more: seq<Msg> := if h.event.Received? then [h.event.msg] else [];
    EntitledStill(cfg, heard, more, s.sent);
    NoUpdatesYet(s.sent);
    match h.event {
      case Received(m) =>
        if m.kind != KEEPALIVE && m.kind != NOTIFICATION {
          NotifiedKept(cfg, heard + more, s, ERR_FSM, 0, h.write);
        }
      case WaitOver => NotifiedKept(cfg, heard + more, s, ERR_HOLD_EXPIRED, 0, h.write);
      case _ =>
    }
  }

  lemma NoUpdatesYet(sent: seq<Msg>)
    requires |sent| == 2 && sent[0].kind == OPEN && sent[1].kind == KEEPALIVE
    ensures Updates(sent) == []
  {
    assert Updates(sent[..1]) == [];
  }

  /** An UPDATE or a KEEPALIVE in an Established session, and whether the VIP is announced after it. */
  function SentIn(s: State, m: Msg, w: Write): State {
    var s' := Written(s, m, w);
    s'.(announced := if w.Done? && m.kind == UPDATE then !s.announced else s.announced)
  }

  lemma LawfulMore(cfg: Settings, sent: seq<Msg>, announced: bool, m: Msg)
    requires Lawful(cfg, sent) && NoNotification(sent) && |sent| >= 2
    requires announced <==> |Updates(sent)| % 2 == 1
    requires m == KeepaliveMsg() || m == NextUpdate(cfg, announced)
    ensures Lawful(cfg, sent + [m]) && NoNotification(sent + [m])
    ensures |Updates(sent + [m])| % 2 == 1 <==> if m.kind == UPDATE then !announced else announced
  {
    UpdatesOne(sent, m);
    assert Running(cfg, m);
  }

  lemma SentKept(cfg: Settings, heard: seq<Msg>, s: State, m: Msg, w: Write)
    requires Kept(cfg, heard, s) && s.phase == Established
    requires m == KeepaliveMsg() || m == NextUpdate(cfg, s.announced)
    ensures Kept(cfg, heard, SentIn(s, m, w))
  {
    if w.Done? {
      LawfulMore(cfg, s.sent, s.announced, m);
      UpdatesOne(s.sent, m);
    } else {
      CutTail(m, w);
    }
  }

  lemma HeardMore(cfg: Settings, heard: seq<Msg>, m: Msg, s: State, deadline: Time)
    requires Kept(cfg, heard, s) && s.phase == Established
    ensures Kept(cfg, heard + [m], s.(deadline := deadline))
  {
    EntitledStill(cfg, heard, [m], s.sent);
  }

  lemma OnMessageKept(cfg: Settings, heard: seq<Msg>, s: State, kind: byte, w: Write)
    requires Kept(cfg, heard, s) && s.phase == Established
    ensures Kept(cfg, heard, OnMessage(s, kind, w))
  {
    ClosedNow(cfg, heard, s);
    if kind == OPEN {
      NotifiedNow(cfg, heard, s, ERR_FSM, 0, w);
    } else {
      NotifiedNow(cfg, heard, s, ERR_HEADER, 3, w);
    }
  }

  lemma EstablishedHeard(cfg: Settings, heard: seq<Msg>, s: State, h: Happening)
    requires Kept(cfg, heard, s) && s.phase == Established && h.event.Received?
    ensures Kept(cfg, heard + [h.event.msg], InEstablished(cfg, s, h))
  {
    var m := h.event.msg;
    var s1 := s.(deadline := if s.hold != 0 then h.at + HoldMillis(s.hold) else s.deadline);
    assert Kept(cfg, heard + [m], s1) by { HeardMore(cfg, heard, m, s, s1.deadline); }
    assert Kept(cfg, heard + [m], OnMessage(s1, m.kind, h.write)) by { OnMessageKept(cfg, heard + [m], s1, m.kind, h.write); }
    HeardIs(cfg, s, h);
  }

  lemma HeardIs(cfg: Settings, s: State, h: Happening)
    requires h.event.Received?
    ensures var s1 := s.(deadline := if s.hold != 0 then h.at + HoldMillis(s.hold) else s.deadline);
      InEstablished(cfg, s, h) == OnMessage(s1, h.event.msg.kind, h.write)
  {
  }

  lemma ClosedNow(cfg: Settings, heard: seq<Msg>, s: State)
    requires Kept(cfg, heard, s)
    ensures Kept(cfg, heard, s.(phase := Closed))
  {
  }

  lemma NotifiedNow(cfg: Settings, heard: seq<Msg>, s: State, code: byte, sub: byte, w: Write)
    requires Kept(cfg, heard, s) && s.phase == Established
    ensures Kept(cfg, heard, Notified(s, code, sub, w))
  {
    NotifiedKept(cfg, heard, s, code, sub, w);
  }

  lemma EstablishedKept(cfg: Settings, heard: seq<Msg>, s: State, h: Happening)
    requires Kept(cfg, heard, s) && s.phase == Established && !h.event.Received?
    ensures Kept(cfg, heard, InEstablished(cfg, s, h))
  {
    match h.event {
      case Tick => SentKept(cfg, heard, s, KeepaliveMsg(), h.write);
      case HoldTimer => NotifiedKept(cfg, heard, s, ERR_HOLD_EXPIRED, 0, h.write);
      case Health(want) => HealthKept(cfg, heard, s, h);
      case _ =>
    }
  }

  lemma HealthKept(cfg: Settings, heard: seq<Msg>, s: State, h: Happening)
    requires Kept(cfg, heard, s) && s.phase == Established && h.event.Health?
    ensures Kept(cfg, heard, InEstablished(cfg, s, h))
  {
    if h.event.want != s.announced {
      SentKept(cfg, heard, s, NextUpdate(cfg, s.announced), h.write);
    }
  }

  lemma ClosedKept(cfg: Settings, heard: seq<Msg>, s: State, more: seq<Msg>)
    requires Kept(cfg, heard, s) && s.phase == Closed
    ensures Kept(cfg, heard + more, s)
  {
    EntitledStill(cfg, heard, more, s.sent);
  }

  lemma {:induction false} RunKept(cfg: Settings, w: Write, hs: seq<Happening>)
    ensures Kept(cfg, Heard(hs), Run(cfg, w, hs))
  {
    if |hs| == 0 {
      StartKept(cfg, w);
    } else {
      var init, h := hs[..|hs| - 1], hs[|hs| - 1];
      RunKept(cfg, w, init);
      assert hs == init + [h];
      HeardOne(init, h);
      var s := Run(cfg, w, init);
      match s.phase {
        case OpenSent => OpenSentKept(cfg, Heard(init), s, h);
        case OpenConfirm => OpenConfirmKept(cfg, Heard(init), s, h);
        case Established =>
          if h.event.Received? {
            EstablishedHeard(cfg, Heard(init), s, h);
          } else {
            EstablishedKept(cfg, Heard(init), s, h);
            assert Heard(hs) == Heard(init);
          }
        case Closed => ClosedKept(cfg, Heard(init), s, if h.event.Received? then [h.event.msg] else []);
      }
    }
  }

  // ----- the session's promises -----------------------------------------------------------

  /**
   The trace of every run: our OPEN, then a KEEPALIVE only once a valid OPEN
   has arrived, then UPDATEs only once the peer's KEEPALIVE has, announcements
   and withdrawals strictly in turn, and nothing after a NOTIFICATION. A run is
   any prefix of what happens, so this holds at every moment.
   */
  lemma TraceOfEveryRun(cfg: Settings, w: Write, hs: seq<Happening>)
    ensures var s, heard := Run(cfg, w, hs), Heard(hs);
      && Lawful(cfg, s.sent)
      && (|s.sent| >= 2 && s.sent[1] == KeepaliveMsg() ==> |heard| >= 1 && ValidOpen(cfg, heard[0]))
      && (Updates(s.sent) != [] ==> |heard| >= 2 && ValidOpen(cfg, heard[0]) && heard[1].kind == KEEPALIVE)
      && (s.phase == Established ==> s.hold == 0 || 3 <= s.hold <= 180)
  {
    RunKept(cfg, w, hs);
  }

  /** After a NOTIFICATION, or any end, nothing more is sent, whatever happens. */
  lemma {:induction false} NothingAfterTheEnd(cfg: Settings, w: Write, hs: seq<Happening>, more: seq<Happening>)
    requires Run(cfg, w, hs).phase == Closed || !NoNotification(Run(cfg, w, hs).sent)
    ensures Run(cfg, w, hs + more) == Run(cfg, w, hs)
  {
    RunKept(cfg, w, hs);
    if |more| == 0 {
      assert hs + more == hs;
    } else {
      assert (hs + more)[..|hs + more| - 1] == hs + more[..|more| - 1];
      NothingAfterTheEnd(cfg, w, hs, more[..|more| - 1]);
    }
  }

  // ----- the peer's table -----------------------------------------------------------------

  /** A table of prefixes after an UPDATE, decoded as the standard says; other messages leave it. */
  function Learned(table: set<Prefix>, m: Msg): set<Prefix> {
    if m.kind != UPDATE then table else
    match DecodeUpdate(m.body)
    case None => table
    case Some(u) => table - (set p | p in u.withdrawn) + (set p | p in u.nlri)
  }

  function TableBy(learn: (set<Prefix>, Msg) -> set<Prefix>, msgs: seq<Msg>): set<Prefix> {
    if |msgs| == 0 then {} else learn(TableBy(learn, msgs[..|msgs| - 1]), msgs[|msgs| - 1])
  }

  function Table(msgs: seq<Msg>): set<Prefix> {
    TableBy(Learned, msgs)
  }

  /** Every byte the session has put on the wire. */
  function OnTheWire(s: State): seq<byte> {
    Concat(s.sent) + s.tail
  }

  lemma {:induction false} ConcatOne(msgs: seq<Msg>, m: Msg)
    ensures Concat(msgs + [m]) == Concat(msgs) + Message(m.kind, m.body)
  {
    if |msgs| == 0 {
      assert msgs + [m] == [m] && Concat([m][1..]) == [];
    } else {
      assert (msgs + [m])[1..] == msgs[1..] + [m];
      ConcatOne(msgs[1..], m);
    }
  }

  /** A write puts the whole message on the wire, or the first bytes of it and ends the session. */
  lemma WrittenOnTheWire(s: State, m: Msg, w: Write)
    requires s.tail == []
    ensures var s', bytes := Written(s, m, w), Message(m.kind, m.body);
      match w
      case Done => OnTheWire(s') == OnTheWire(s) + bytes && s'.phase == s.phase
      case Cut(n) =>
        OnTheWire(s') == OnTheWire(s) + bytes[..if n < |bytes| then n else |bytes| - 1] && s'.phase == Closed
  {
    ConcatOne(s.sent, m);
  }

  lemma UpdateTeaches(cfg: Settings, announced: bool, table: set<Prefix>)
    requires table <= {Prefix(cfg.vip, 32)}
    ensures Learned(table, NextUpdate(cfg, announced)) == if announced then {} else {Prefix(cfg.vip, 32)}
  {
    var p := Prefix(cfg.vip, 32);
    if announced {
      WithdrawTeaches(p, table);
    } else {
      AnnounceTeaches(cfg.localAsn, cfg.nextHop, p, table);
    }
  }

  lemma WithdrawTeaches(p: Prefix, table: set<Prefix>)
    requires p.len == 32
    ensures Learned(table, WithdrawMsg(p)) == table - {p}
  {
    HostPrefix(p.addr);
    WithdrawDecodes(p);
    assert (set q | q in [p]) == {p};
  }

  lemma AnnounceTeaches(asn: u16, nextHop: Ipv4, p: Prefix, table: set<Prefix>)
    requires p.len == 32
    ensures Learned(table, AnnounceMsg(asn, nextHop, p)) == table + {p}
  {
    HostPrefix(p.addr);
    AnnounceDecodes(asn, nextHop, p);
    assert (set q | q in [p]) == {p};
  }

  /** The last UPDATE decides the table; `learn` is any way of learning that takes UPDATEs as `UpdateTeaches` says. */
  lemma {:induction false} TableOfLawful(cfg: Settings, sent: seq<Msg>, learn: (set<Prefix>, Msg) -> set<Prefix>)
    requires Lawful(cfg, sent)
    requires forall table: set<Prefix>, m: Msg :: m.kind != UPDATE ==> learn(table, m) == table
    requires forall table: set<Prefix>, announced: bool :: table <= {Prefix(cfg.vip, 32)} ==>
      learn(table, NextUpdate(cfg, announced)) == if announced then {} else {Prefix(cfg.vip, 32)}
    ensures TableBy(learn, sent) == if |Updates(sent)| % 2 == 1 then {Prefix(cfg.vip, 32)} else {}
  {
    if |sent| > 0 {
      var init, m := sent[..|sent| - 1], sent[|sent| - 1];
      LawfulPrefix(cfg, sent);
      TableOfLawful(cfg, init, learn);
      if m.kind != UPDATE {
        assert Updates(sent) == Updates(init);
      } else {
        assert Updates(sent) == Updates(init) + [m];
        var announced := |Updates(init)| % 2 == 1;
        assert m == Updates(sent)[|Updates(init)|] == NextUpdate(cfg, announced);
        assert TableBy(learn, init) <= {Prefix(cfg.vip, 32)};
        assert TableBy(learn, sent) == learn(TableBy(learn, init), NextUpdate(cfg, announced));
      }
    }
  }

  lemma LawfulPrefix(cfg: Settings, sent: seq<Msg>)
    requires Lawful(cfg, sent) && |sent| > 0
    ensures Lawful(cfg, sent[..|sent| - 1])
  {
    var init, m := sent[..|sent| - 1], sent[|sent| - 1];
    assert forall k :: 0 <= k < |Updates(init)| ==> Updates(init)[k] == Updates(sent)[k];
  }

  lemma LawfulFits(cfg: Settings, sent: seq<Msg>)
    requires Lawful(cfg, sent)
    ensures forall m :: m in sent ==> |m.body| <= MAX_BODY
  {
  }

  /**
   What the peer learns: from the bytes of every run, cut writes included, a
   peer that follows the standard reads exactly the messages sent, and its
   table holds the VIP if and only if the session thinks it announced it.
   */
  lemma PeerTableFollows(cfg: Settings, w: Write, hs: seq<Happening>)
    ensures var s := Run(cfg, w, hs);
      && ReadAll(OnTheWire(s)) == s.sent
      && Table(ReadAll(OnTheWire(s))) == if s.announced then {Prefix(cfg.vip, 32)} else {}
  {
    var s := Run(cfg, w, hs);
    RunKept(cfg, w, hs);
    LawfulFits(cfg, s.sent);
    FramingInverse(s.sent, s.tail);
    forall table: set<Prefix>, announced: bool | table <= {Prefix(cfg.vip, 32)}
      ensures Learned(table, NextUpdate(cfg, announced)) == if announced then {} else {Prefix(cfg.vip, 32)}
    {
      UpdateTeaches(cfg, announced, table);
    }
    TableOfLawful(cfg, s.sent, Learned);
  }

  /** The health the session was last told of once Established; none told yet counts as unhealthy. */
  function LastWant(cfg: Settings, w: Write, hs: seq<Happening>): bool {
    if |hs| == 0 then false
    else
      var h := hs[|hs| - 1];
      if h.event.Health? && Run(cfg, w, hs[..|hs| - 1]).phase == Established then h.event.want
      else LastWant(cfg, w, hs[..|hs| - 1])
  }

  lemma StepAnnounces(cfg: Settings, s: State, h: Happening)
    requires s.phase == Established && Step(cfg, s, h).phase != Closed
    ensures Step(cfg, s, h).announced == if h.event.Health? then h.event.want else s.announced
  {
  }

  lemma StepBefore(cfg: Settings, s: State, h: Happening)
    requires s.phase == OpenSent || s.phase == OpenConfirm
    requires !s.announced
    ensures !Step(cfg, s, h).announced
  {
  }

  /** While the session lives, what is announced is the last health it was told of. */
  lemma {:induction false} AnnouncedFollowsHealth(cfg: Settings, w: Write, hs: seq<Happening>)
    requires Run(cfg, w, hs).phase != Closed
    ensures Run(cfg, w, hs).announced == LastWant(cfg, w, hs)
  {
    if |hs| > 0 {
      var init, h := hs[..|hs| - 1], hs[|hs| - 1];
      var s := Run(cfg, w, init);
      AnnouncedFollowsHealth(cfg, w, init);
      if s.phase == Established {
        StepAnnounces(cfg, s, h);
      } else {
        NotEstablishedNotAnnounced(cfg, w, init);
        StepBefore(cfg, s, h);
      }
    }
  }

  lemma NotEstablishedNotAnnounced(cfg: Settings, w: Write, hs: seq<Happening>)
    requires Run(cfg, w, hs).phase == OpenSent || Run(cfg, w, hs).phase == OpenConfirm
    ensures !Run(cfg, w, hs).announced
  {
    RunKept(cfg, w, hs);
  }

  // ----- the hold timer -------------------------------------------------------------------

  /** When the session was Established, if it was. */
  function EstablishedAt(cfg: Settings, w: Write, hs: seq<Happening>): Option<Time> {
    if |hs| == 0 then None
    else
      var init, h := hs[..|hs| - 1], hs[|hs| - 1];
      if Run(cfg, w, init).phase == OpenConfirm && Run(cfg, w, hs).phase == Established then Some(h.at)
      else EstablishedAt(cfg, w, init)
  }

  /** When something last arrived, if it did. */
  function LastHeardAt(hs: seq<Happening>): Option<Time> {
    if |hs| == 0 then None
    else if hs[|hs| - 1].event.Received? then Some(hs[|hs| - 1].at)
    else LastHeardAt(hs[..|hs| - 1])
  }

  lemma StepDeadline(cfg: Settings, s: State, h: Happening)
    requires s.phase == Established && Step(cfg, s, h).phase == Established
    ensures var s' := Step(cfg, s, h);
      s'.hold == s.hold && s'.deadline == if h.event.Received? && s.hold != 0 then h.at + HoldMillis(s.hold) else s.deadline
  {
  }

  lemma StepEstablishes(cfg: Settings, s: State, h: Happening)
    requires s.phase != Established && Step(cfg, s, h).phase == Established
    ensures var s' := Step(cfg, s, h);
      s.phase == OpenConfirm && h.event.Received? && s'.hold == s.hold && s'.deadline == h.at + HoldMillis(s.hold)
  {
  }

  /** The deadline: a hold time after the peer was last heard, or 365 days after Established for a hold time of 0. */
  lemma {:induction false} DeadlineMeaning(cfg: Settings, w: Write, hs: seq<Happening>)
    requires Run(cfg, w, hs).phase == Established
    ensures var s := Run(cfg, w, hs);
      && EstablishedAt(cfg, w, hs).Some? && LastHeardAt(hs).Some?
      && s.deadline == if s.hold == 0 then EstablishedAt(cfg, w, hs).value + FAR
                       else LastHeardAt(hs).value + 1000 * (s.hold as int)
  {
    if |hs| > 0 {
      var init, h := hs[..|hs| - 1], hs[|hs| - 1];
      if Run(cfg, w, init).phase == Established {
        DeadlineMeaning(cfg, w, init);
        StepDeadline(cfg, Run(cfg, w, init), h);
      } else {
        StepEstablishes(cfg, Run(cfg, w, init), h);
      }
    }
  }

  /** The hold timer ends the session exactly when the peer has been silent for a hold time, or, with hold 0, after 365 days. */
  lemma HoldTimerExactlyWhen(cfg: Settings, w: Write, hs: seq<Happening>, at: Time, write: Write)
    requires Run(cfg, w, hs).phase == Established
    ensures EstablishedAt(cfg, w, hs).Some? && LastHeardAt(hs).Some?
    ensures var s := Run(cfg, w, hs);
      Run(cfg, w, hs + [Happening(HoldTimer, at, write)]).phase == Closed <==>
        if s.hold == 0 then at >= EstablishedAt(cfg, w, hs).value + FAR
        else at >= LastHeardAt(hs).value + 1000 * (s.hold as int)
  {
    DeadlineMeaning(cfg, w, hs);
    var h := Happening(HoldTimer, at, write);
    assert (hs + [h])[..|hs|] == hs;
  }

  /**
   A hold time of 0 should mean no hold timer at all. It does not: however
   often the peer is heard, a session with hold 0 is ended by it 365 days after
   it was Established.
   */
  lemma HoldZeroStillExpires(cfg: Settings, w: Write, hs: seq<Happening>, heard: Happening, at: Time)
    requires Run(cfg, w, hs).phase == Established && Run(cfg, w, hs).hold == 0
    requires heard.event == Received(KeepaliveMsg()) && heard.at <= at
    requires EstablishedAt(cfg, w, hs).Some? && at == EstablishedAt(cfg, w, hs).value + FAR
    ensures var after := Run(cfg, w, hs + [heard] + [Happening(HoldTimer, at, Done)]);
      after.phase == Closed && after.sent == Run(cfg, w, hs).sent + [NotificationMsg(ERR_HOLD_EXPIRED, 0)]
  {
    assert (hs + [heard])[..|hs|] == hs;
    assert (hs + [heard] + [Happening(HoldTimer, at, Done)])[..|hs| + 1] == hs + [heard];
    DeadlineMeaning(cfg, w, hs);
  }
}
