/**
 The BGP messages of src/bgp.rs: the 19-byte header and its reader, the
 encoders, and the test of the peer's OPEN. Beside them stands a decoder of
 the UPDATE message as section 4.3 of RFC 4271 lays it out, following the
 length fields; the encoders are proved to be read back by it.
 */
module BgpCodec {
  import opened Bytes

  const OPEN: byte := 1
  const UPDATE: byte := 2
  const NOTIFICATION: byte := 3
  const KEEPALIVE: byte := 4

  const ERR_HEADER: byte := 1
  const ERR_OPEN: byte := 2
  const ERR_OPEN_VERSION: byte := 1
  const ERR_OPEN_PEER_AS: byte := 2
  const ERR_OPEN_HOLD: byte := 6
  const ERR_HOLD_EXPIRED: byte := 4
  const ERR_FSM: byte := 5

  const HOLD_TIME: u16 := 180
  const MARKER: seq<byte> := [0xff, 0xff, 0xff, 0xff, 0xff, 0xff, 0xff, 0xff, 0xff, 0xff, 0xff, 0xff, 0xff, 0xff, 0xff, 0xff]

  /** The longest body that fits in a message. */
  const MAX_BODY := 4096 - 19

  datatype Msg = Msg(kind: byte, body: seq<byte>)

  // ----- framing -----------------------------------------------------------------

  /** The header, its length field truncated to 16 bits, and the body. */
  function Message(kind: byte, body: seq<byte>): (m: seq<byte>)
    ensures |m| == 19 + |body|
  {
    MARKER + Be16((19 + |body|) % 0x1_0000) + [kind] + body
  }

  /** What reading one message gives: the message and the rest, or an error (the stream ended, or it is not BGP). */
  datatype Read = Got(msg: Msg, rest: seq<byte>) | Failed

  function ReadMsg(s: seq<byte>): Read {
    if |s| < 19 || s[..16] != MARKER then Failed
    else
      var len := FromBe16(s[16], s[17]);
      if len < 19 || len > 4096 || |s| < len then Failed
      else Got(Msg(s[18], s[19..len]), s[len..])
  }

  /** All the messages read, until reading fails. */
  function ReadAll(s: seq<byte>): seq<Msg>
    decreases |s|
  {
    match ReadMsg(s)
    case Failed => []
    case Got(msg, rest) => [msg] + ReadAll(rest)
  }

  function Concat(msgs: seq<Msg>): seq<byte> {
    if |msgs| == 0 then [] else Message(msgs[0].kind, msgs[0].body) + Concat(msgs[1..])
  }

  /** The length field says how long the message is. */
  lemma LengthField(kind: byte, body: seq<byte>)
    requires |body| <= MAX_BODY
    ensures var m := Message(kind, body); FromBe16(m[16], m[17]) == |m|
  {
    HeaderPlaces(MARKER, Be16(19 + |body|), [kind], body);
    Be16RoundTrip(19 + |body|);
  }

  lemma HeaderPlaces(marker: seq<byte>, length: seq<byte>, kind: seq<byte>, body: seq<byte>)
    requires |marker| == 16 && |length| == 2 && |kind| == 1
    ensures var m := marker + length + kind + body;
      m[16] == length[0] && m[17] == length[1]
  {
  }

  lemma ReadMessage(kind: byte, body: seq<byte>, rest: seq<byte>)
    requires |body| <= MAX_BODY
    ensures ReadMsg(Message(kind, body) + rest) == Got(Msg(kind, body), rest)
  {
    var m := Message(kind, body);
    var s := m + rest;
    assert s[..16] == MARKER;
    LengthField(kind, body);
    assert s[16] == m[16] && s[17] == m[17];
    assert s[19..19 + |body|] == body;
    assert s[19 + |body|..] == rest;
  }

  lemma LengthBack(hi: byte, lo: byte)
    ensures Be16(FromBe16(hi, lo)) == [hi, lo]
  {
  }

  lemma Rejoined(s: seq<byte>, n: nat)
    requires 19 <= n <= |s|
    ensures s[..16] + [s[16], s[17]] + [s[18]] + s[19..n] + s[n..] == s
  {
  }

  /** Exactly what is read as a message: one of at most 4096 bytes, at the start of the stream. */
  lemma ReadExactlyWhen(s: seq<byte>, kind: byte, body: seq<byte>, rest: seq<byte>)
    ensures ReadMsg(s) == Got(Msg(kind, body), rest) <==> |body| <= 4096 - 19 && s == Message(kind, body) + rest
  {
    if ReadMsg(s) == Got(Msg(kind, body), rest) {
      LengthBack(s[16], s[17]);
      Rejoined(s, FromBe16(s[16], s[17]));
    }
    if |body| <= 4096 - 19 && s == Message(kind, body) + rest {
      ReadMessage(kind, body, rest);
    }
  }

  /**
   Framing is undone by reading: any messages, one after the other, followed
   by bytes that are no message, read back as exactly those messages.
   */
  lemma {:induction false} FramingInverse(msgs: seq<Msg>, tail: seq<byte>)
    requires forall m :: m in msgs ==> |m.body| <= MAX_BODY
    requires ReadMsg(tail) == Failed
    ensures ReadAll(Concat(msgs) + tail) == msgs
  {
    if |msgs| == 0 {
      assert Concat(msgs) + tail == tail;
    } else {
      var first, rest := msgs[0], Concat(msgs[1..]) + tail;
      assert Concat(msgs) + tail == Message(first.kind, first.body) + rest;
      ReadMessage(first.kind, first.body, rest);
      FramingInverse(msgs[1..], tail);
    }
  }

  /** A message cut short is no message: its reader waits for the rest. */
  lemma CutMessageIncomplete(kind: byte, body: seq<byte>, n: nat)
    requires |body| <= MAX_BODY && n < 19 + |body|
    ensures ReadMsg(Message(kind, body)[..n]) == Failed
  {
    var m := Message(kind, body);
    LengthField(kind, body);
    if n >= 19 {
      assert m[..n][16] == m[16] && m[..n][17] == m[17];
    }
  }

  // ----- messages -------------------------------------------------------------------

  function OpenMsg(asn: u16, hold: u16, id: Ipv4): Msg {
    Msg(OPEN, [4] + Be16(asn) + Be16(hold) + Octets(id) + [0])
  }

  function KeepaliveMsg(): Msg {
    Msg(KEEPALIVE, [])
  }

  function NotificationMsg(code: byte, sub: byte): Msg {
    Msg(NOTIFICATION, [code, sub])
  }

  /** An address prefix: `len` bits of `addr`. */
  datatype Prefix = Prefix(addr: Ipv4, len: byte)

  /** How many bytes hold that many bits. */
  function PrefixBytes(len: byte): (n: nat)
    requires len <= 32
    ensures n <= 4
  {
    if len == 0 then 0 else if len <= 8 then 1 else if len <= 16 then 2 else if len <= 24 then 3 else 4
  }

  /** The source divides by eight, rounding up. */
  lemma PrefixBytesMeaning(len: byte)
    requires len <= 32
    ensures PrefixBytes(len) == (len + 7) / 8
  {
  }

  function EncodePrefix(p: Prefix): (s: seq<byte>)
    requires p.len <= 32
    ensures |s| == 1 + PrefixBytes(p.len)
  {
    [p.len] + Octets(p.addr)[..PrefixBytes(p.len)]
  }

  function Attributes(asn: u16, nextHop: Ipv4): (s: seq<byte>)
    ensures |s| == 18
  {
    [0x40, 1, 1, 0] + [0x40, 2, 4, 2, 1] + Be16(asn) + [0x40, 3, 4] + Octets(nextHop)
  }

  function AnnounceMsg(asn: u16, nextHop: Ipv4, p: Prefix): (m: Msg)
    requires p.len <= 32
    ensures |m.body| <= MAX_BODY
  {
    Msg(UPDATE, UpdateBody([], Attributes(asn, nextHop), EncodePrefix(p)))
  }

  function WithdrawMsg(p: Prefix): (m: Msg)
    requires p.len <= 32
    ensures |m.body| <= MAX_BODY
  {
    Msg(UPDATE, UpdateBody(EncodePrefix(p), [], []))
  }

  lemma NothingFirst(s: seq<byte>)
    ensures [] + s == s && s + [] == s
  {
  }

  method UpdateAnnounce(asn: u16, nextHop: Ipv4, prefix: Ipv4, len: byte) returns (m: seq<byte>)
    requires len <= 32
    ensures var msg := AnnounceMsg(asn, nextHop, Prefix(prefix, len)); m == Message(msg.kind, msg.body)
  {
    var attrs: seq<byte> := [];
    attrs := attrs + [0x40, 1, 1, 0];
    attrs := attrs + [0x40, 2, 4, 2, 1];
    attrs := attrs + Be16(asn);
    attrs := attrs + [0x40, 3, 4];
    attrs := attrs + Octets(nextHop);
    NothingFirst([0x40, 1, 1, 0]);
    assert attrs == Attributes(asn, nextHop);
    var body: seq<byte> := [];
    body := body + Be16(0);
    body := body + Be16(|attrs|);
    body := body + attrs;
    body := body + EncodePrefix(Prefix(prefix, len));
    NothingFirst(Be16(0));
    m := Message(UPDATE, body);
  }

  method UpdateWithdraw(prefix: Ipv4, len: byte) returns (m: seq<byte>)
    requires len <= 32
    ensures var msg := WithdrawMsg(Prefix(prefix, len)); m == Message(msg.kind, msg.body)
  {
    var withdrawn := EncodePrefix(Prefix(prefix, len));
    var body: seq<byte> := [];
    body := body + Be16(|withdrawn|);
    body := body + withdrawn;
    body := body + Be16(0);
    assert body == WithdrawMsg(Prefix(prefix, len)).body;
    m := Message(UPDATE, body);
  }

  // ----- the bytes of the other messages -------------------------------------------------

  /** The header of section 4.1 of RFC 4271: sixteen bytes of ones, the length, the type. */
  lemma HeaderBytes(kind: byte, body: seq<byte>)
    requires |body| <= MAX_BODY
    ensures var m := Message(kind, body);
      m[..16] == MARKER && NumberAt(m, 16) == |m| == 19 + |body| <= 4096 && m[18] == kind && m[19..] == body
  {
    KindPlaces(MARKER, Be16((19 + |body|) % 0x1_0000), [kind], body);
    LengthField(kind, body);
    FromBe16At(Message(kind, body), 16);
  }

  /** The number in the two bytes at `k`. */
  function NumberAt(m: seq<byte>, k: nat): int
    requires k + 2 <= |m|
  {
    BigEndian(m[k], m[k + 1])
  }

  lemma FromBe16At(m: seq<byte>, k: nat)
    requires k + 2 <= |m|
    ensures FromBe16(m[k], m[k + 1]) == NumberAt(m, k)
  {
    BigEndianIs(0, m[k], m[k + 1]);
  }

  lemma MarkerIsOnes()
    ensures |MARKER| == 16 && forall k :: 0 <= k < 16 ==> MARKER[k] == 255
  {
  }

  lemma KindPlaces(marker: seq<byte>, length: seq<byte>, kind: seq<byte>, body: seq<byte>)
    requires |marker| == 16 && |length| == 2 && |kind| == 1
    ensures var m := marker + length + kind + body;
      m[..16] == marker && m[18] == kind[0] && m[19..] == body
  {
  }

  /**
   The types and bodies of sections 4.2, 4.4 and 4.5: OPEN is 1, with version
   4, our AS, the hold time, our identifier and no options; NOTIFICATION is 3,
   a code and a subcode; KEEPALIVE is 4, with nothing; and UPDATE is 2.
   */
  lemma BodiesOnTheWire(asn: u16, hold: u16, id: Ipv4, code: byte, sub: byte, p: Prefix)
    requires p.len <= 32
    ensures var open := OpenMsg(asn, hold, id);
      && open.kind == 1 && |open.body| == 10 && open.body[0] == 4
      && BigEndian(open.body[1], open.body[2]) == asn && BigEndian(open.body[3], open.body[4]) == hold
      && open.body[5] == id.a && open.body[6] == id.b && open.body[7] == id.c && open.body[8] == id.d
      && open.body[9] == 0
    ensures NotificationMsg(code, sub) == Msg(3, [code, sub]) && KeepaliveMsg() == Msg(4, [])
    ensures AnnounceMsg(asn, id, p).kind == WithdrawMsg(p).kind == 2
  {
    BigEndianIs(asn, 0, 0);
    BigEndianIs(hold, 0, 0);
    OpenPlaces(Be16(asn), Be16(hold), Octets(id));
  }

  lemma OpenPlaces(asn: seq<byte>, hold: seq<byte>, id: Quad)
    requires |asn| == 2 && |hold| == 2
    ensures var b := [4] + asn + hold + id + [0];
      && |b| == 10 && b[0] == 4 && b[1] == asn[0] && b[2] == asn[1] && b[3] == hold[0] && b[4] == hold[1]
      && b[5] == id[0] && b[6] == id[1] && b[7] == id[2] && b[8] == id[3] && b[9] == 0
  {
  }

  // ----- an UPDATE decoder, from the standard -----------------------------------------

  /** What an UPDATE says: prefixes withdrawn, and prefixes announced with their attributes. */
  datatype Update = Update(withdrawn: seq<Prefix>, attrs: seq<Attr>, nlri: seq<Prefix>)
  datatype Attr = Attr(flags: byte, kind: byte, value: seq<byte>)

  /** Prefixes one after the other, each a length in bits and as few bytes as hold them. */
  function DecodePrefixes(s: seq<byte>): Option<seq<Prefix>>
    decreases |s|
  {
    if |s| == 0 then Some([])
    else if s[0] > 32 || |s| < 1 + PrefixBytes(s[0]) then None
    else
      var n := PrefixBytes(s[0]);
      var rest := DecodePrefixes(s[1 + n..]);
      if rest == None then None
      else Some([Prefix(FromOctets(s[1..1 + n] + Zeros(4 - n)), s[0])] + rest.value)
  }

  /** The flag for a two-byte length. */
  predicate Wide(flags: byte) {
    flags % 0x20 >= 0x10
  }

  /** Attributes one after the other, each flags, a type, a length (two bytes if the flag 0x10 says so) and a value. */
  function DecodeAttrs(s: seq<byte>): Option<seq<Attr>>
    decreases |s|
  {
    if |s| == 0 then Some([])
    else if |s| < 3 then None
    else
      var wide := Wide(s[0]);
      if wide && |s| < 4 then None else
      var start: nat := if wide then 4 else 3;
      var len: nat := if wide then FromBe16(s[2], s[3]) else s[2];
      if |s| < start + len then None else
      var rest := DecodeAttrs(s[start + len..]);
      if rest == None then None else Some([Attr(s[0], s[1], s[start..start + len])] + rest.value)
  }

  /** An UPDATE, if all its parts decode. */
  function Parts(withdrawn: Option<seq<Prefix>>, attrs: Option<seq<Attr>>, nlri: Option<seq<Prefix>>): Option<Update> {
    if withdrawn == None || attrs == None || nlri == None then None
    else Some(Update(withdrawn.value, attrs.value, nlri.value))
  }

  function DecodeUpdate(body: seq<byte>): Option<Update> {
    if |body| < 2 then None else
    var w := FromBe16(body[0], body[1]);
    if |body| < 4 + w then None else
    var a := FromBe16(body[2 + w], body[3 + w]);
    if |body| < 4 + w + a then None else
    Parts(DecodePrefixes(body[2..2 + w]), DecodeAttrs(body[4 + w..4 + w + a]), DecodePrefixes(body[4 + w + a..]))
  }

  /** An UPDATE body: two parts with their lengths, and the rest. */
  function UpdateBody(withdrawn: seq<byte>, attrs: seq<byte>, nlri: seq<byte>): seq<byte>
    requires |withdrawn| < 0x1_0000 && |attrs| < 0x1_0000
  {
    Be16(|withdrawn|) + withdrawn + Be16(|attrs|) + attrs + nlri
  }

  lemma BodySections(first: seq<byte>, withdrawn: seq<byte>, second: seq<byte>, attrs: seq<byte>, nlri: seq<byte>)
    requires |first| == 2 && |second| == 2
    ensures var body, w, a := first + withdrawn + second + attrs + nlri, |withdrawn|, |attrs|;
      && body[0] == first[0] && body[1] == first[1] && body[2..2 + w] == withdrawn
      && body[2 + w] == second[0] && body[3 + w] == second[1]
      && body[4 + w..4 + w + a] == attrs && body[4 + w + a..] == nlri
  {
  }

  /** The decoder finds the parts where the lengths say. */
  lemma BodyDecodes(withdrawn: seq<byte>, attrs: seq<byte>, nlri: seq<byte>)
    requires |withdrawn| < 0x1_0000 && |attrs| < 0x1_0000
    ensures DecodeUpdate(UpdateBody(withdrawn, attrs, nlri))
         == Parts(DecodePrefixes(withdrawn), DecodeAttrs(attrs), DecodePrefixes(nlri))
  {
    BodySections(Be16(|withdrawn|), withdrawn, Be16(|attrs|), attrs, nlri);
    Be16RoundTrip(|withdrawn|);
    Be16RoundTrip(|attrs|);
  }

  /** The address with the bits past the prefix's whole bytes cleared. */
  function Significant(p: Prefix): Prefix
    requires p.len <= 32
  {
    Prefix(FromOctets(Octets(p.addr)[..PrefixBytes(p.len)] + Zeros(4 - PrefixBytes(p.len))), p.len)
  }

  lemma HostPrefix(addr: Ipv4)
    ensures Significant(Prefix(addr, 32)) == Prefix(addr, 32)
  {
    assert Octets(addr)[..4] + Zeros(0) == Octets(addr);
    OctetsRoundTrip(addr);
  }

  lemma OnePrefix(len: byte, bytes: seq<byte>)
    requires len <= 32 && |bytes| == PrefixBytes(len)
    ensures DecodePrefixes([len] + bytes) == Some([Prefix(FromOctets(bytes + Zeros(4 - PrefixBytes(len))), len)])
  {
    var s := [len] + bytes;
    assert s[1..1 + |bytes|] == bytes;
    assert s[1 + |bytes|..] == [];
    var only := Prefix(FromOctets(bytes + Zeros(4 - PrefixBytes(len))), len);
    assert [only] + [] == [only];
  }

  lemma PrefixDecodes(p: Prefix)
    requires p.len <= 32
    ensures DecodePrefixes(EncodePrefix(p)) == Some([Significant(p)])
  {
    OnePrefix(p.len, Octets(p.addr)[..PrefixBytes(p.len)]);
  }

  lemma OneAttr(kind: byte, value: seq<byte>, rest: seq<byte>)
    requires |value| < 0x100
    ensures DecodeAttrs([0x40, kind, |value|] + value + rest) ==
      if DecodeAttrs(rest) == None then None else Some([Attr(0x40, kind, value)] + DecodeAttrs(rest).value)
  {
    var s: seq<byte> := [0x40, kind, |value|] + value + rest;
    assert !Wide(s[0]) && s[2] == |value| && |s| >= 3 + |value|;
    assert s[3..3 + |value|] == value;
    assert s[3 + |value|..] == rest;
  }

  /** Our three attributes, decoded. */
  function OurAttrs(asn: u16, nextHop: Ipv4): seq<Attr> {
    [Attr(0x40, 1, [0]), Attr(0x40, 2, [2, 1] + Be16(asn)), Attr(0x40, 3, Octets(nextHop))]
  }

  lemma Joined(a: Attr, b: Attr, c: Attr)
    ensures [a] + ([b] + ([c] + [])) == [a, b, c]
  {
  }

  lemma AttributesDecode(asn: u16, nextHop: Ipv4)
    ensures DecodeAttrs(Attributes(asn, nextHop)) == Some(OurAttrs(asn, nextHop))
  {
    var path, hop := [2, 1] + Be16(asn), Octets(nextHop);
    var last := [0x40, 3, 4] + hop + [];
    var later := [0x40, 2, 4] + path + last;
    OneAttr(3, hop, []);
    OneAttr(2, path, last);
    OneAttr(1, [0], later);
    Spelled(asn, nextHop);
    Joined(Attr(0x40, 1, [0]), Attr(0x40, 2, path), Attr(0x40, 3, hop));
  }

  lemma Spelled(asn: u16, nextHop: Ipv4)
    ensures Attributes(asn, nextHop)
         == [0x40, 1, 1] + [0] + ([0x40, 2, 4] + ([2, 1] + Be16(asn)) + ([0x40, 3, 4] + Octets(nextHop) + []))
  {
  }

  /**
   An announcement decodes to no withdrawals, ORIGIN IGP, a path of our one
   AS, our next hop, and the prefix.
   */
  lemma AnnounceDecodes(asn: u16, nextHop: Ipv4, p: Prefix)
    requires p.len <= 32
    ensures DecodeUpdate(AnnounceMsg(asn, nextHop, p).body)
         == Some(Update([], OurAttrs(asn, nextHop), [Significant(p)]))
  {
    BodyDecodes([], Attributes(asn, nextHop), EncodePrefix(p));
    AttributesDecode(asn, nextHop);
    PrefixDecodes(p);
  }

  lemma WithdrawDecodes(p: Prefix)
    requires p.len <= 32
    ensures DecodeUpdate(WithdrawMsg(p).body) == Some(Update([Significant(p)], [], []))
  {
    BodyDecodes(EncodePrefix(p), [], []);
    PrefixDecodes(p);
  }

  // ----- the peer's OPEN ------------------------------------------------------------------

  datatype OpenCheck = Accept(hold: u16) | Refuse(code: byte, sub: byte)

  function CheckOpen(body: seq<byte>, wantAsn: u32): OpenCheck {
    if |body| < 10 then Refuse(ERR_OPEN, 0)
    else if body[0] != 4 then Refuse(ERR_OPEN, ERR_OPEN_VERSION)
    else if FromBe16(body[1], body[2]) != wantAsn then Refuse(ERR_OPEN, ERR_OPEN_PEER_AS)
    else
      var hold := FromBe16(body[3], body[4]);
      if hold == 1 || hold == 2 then Refuse(ERR_OPEN, ERR_OPEN_HOLD) else Accept(hold)
  }

  /**
   Any OPEN by its fields: refused, in this order, for its version, its AS and
   a hold time of 1 or 2, with the codes of section 6.2 of RFC 4271.
   */
  lemma OpenChecked(version: byte, asn: u16, hold: u16, rest: seq<byte>, wantAsn: u32)
    requires |rest| >= 5
    ensures CheckOpen([version] + Be16(asn) + Be16(hold) + rest, wantAsn)
         == if version != 4 then Refuse(ERR_OPEN, ERR_OPEN_VERSION)
            else if asn != wantAsn then Refuse(ERR_OPEN, ERR_OPEN_PEER_AS)
            else if hold == 1 || hold == 2 then Refuse(ERR_OPEN, ERR_OPEN_HOLD)
            else Accept(hold)
  {
    var body := [version] + Be16(asn) + Be16(hold) + rest;
    assert body[1] == Be16(asn)[0] && body[2] == Be16(asn)[1] && body[3] == Be16(hold)[0] && body[4] == Be16(hold)[1];
    Be16RoundTrip(asn);
    Be16RoundTrip(hold);
  }

  lemma Be16Read(hi: byte, lo: byte, n: u16)
    ensures [hi, lo] == Be16(n) <==> FromBe16(hi, lo) == n
  {
  }

  /**
   Exactly which OPENs are accepted, with which hold time: those of ten bytes
   or more that start with version 4, the wanted AS and that hold time, which
   is not 1 or 2. An AS of more than 16 bits is wanted in vain.
   */
  lemma AcceptedExactlyWhen(body: seq<byte>, wantAsn: u32, hold: u16)
    ensures CheckOpen(body, wantAsn) == Accept(hold) <==>
      && |body| >= 10 && wantAsn < 0x1_0000 && hold != 1 && hold != 2
      && body[..5] == [4] + Be16(wantAsn) + Be16(hold)
  {
    if |body| >= 10 {
      assert body[..5] == [body[0]] + [body[1], body[2]] + [body[3], body[4]];
      if wantAsn < 0x1_0000 {
        Be16Read(body[1], body[2], wantAsn);
        Be16Read(body[3], body[4], hold);
        FiveBytes(body[0], [body[1], body[2]], [body[3], body[4]], Be16(wantAsn), Be16(hold));
      }
    }
  }

  lemma FiveBytes(version: byte, a: seq<byte>, b: seq<byte>, a': seq<byte>, b': seq<byte>)
    requires |a| == |a'| == |b| == |b'| == 2
    ensures [version] + a + b == [4] + a' + b' <==> version == 4 && a == a' && b == b'
  {
    var s, s' := [version] + a + b, [4] + a' + b';
    assert s[0] == version && s[1..3] == a && s[3..5] == b;
    assert s'[0] == 4 && s'[1..3] == a' && s'[3..5] == b';
  }

  /**
   Why an OPEN is refused, with the codes of section 6.2 of RFC 4271: code 2,
   and no subcode if it is short, 1 for its version, 2 for its AS, 6 for its
   hold time, the first that applies.
   */
  lemma RefusedExactlyWhen(body: seq<byte>, wantAsn: u32)
    ensures |body| < 10 ==> CheckOpen(body, wantAsn) == Refuse(2, 0)
    ensures |body| >= 10 ==>
      var asn, hold := BigEndian(body[1], body[2]), BigEndian(body[3], body[4]);
      CheckOpen(body, wantAsn)
      == if body[0] != 4 then Refuse(2, 1) else if asn != wantAsn then Refuse(2, 2)
         else if 1 <= hold <= 2 then Refuse(2, 6) else Accept(hold)
  {
  }

  /** So the OPEN that we send is accepted by a peer that wants our AS, unless its hold time is 1 or 2. */
  lemma OpenAccepted(asn: u16, hold: u16, id: Ipv4, wantAsn: u32)
    ensures CheckOpen(OpenMsg(asn, hold, id).body, wantAsn).Accept? <==> asn == wantAsn && hold != 1 && hold != 2
  {
    assert OpenMsg(asn, hold, id).body == [4] + Be16(asn) + Be16(hold) + (Octets(id) + [0]);
    OpenChecked(4, asn, hold, Octets(id) + [0], wantAsn);
  }
}
