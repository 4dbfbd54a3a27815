/**
 The rtnetlink messages of src/vip.rs: what is written, and the walks that read
 replies, attributes and addresses back. Numbers are little-endian, as on the
 machines this runs on.
 */
module Netlink {
  import opened Bytes

  const NLMSG_ERROR: u16 := 2
  const NLMSG_DONE: u16 := 3
  const RTM_NEWADDR: u16 := 20
  const IFA_ADDRESS: u16 := 1
  const IFA_LOCAL: u16 := 2
  const AF_INET: byte := 2

  /** The sequence number of every request. */
  const SEQ: u32 := 1

  // ----- numbers --------------------------------------------------------------------

  /** The `k` low bytes of a number, the lowest first. */
  function LeBytes(n: nat, k: nat): (s: seq<byte>)
    ensures |s| == k
  {
    if k == 0 then [] else [n % 0x100] + LeBytes(n / 0x100, k - 1)
  }

  function LeValue(s: seq<byte>): (n: nat)
    ensures |s| == 0 ==> n == 0
    ensures |s| == 1 ==> n < 0x100
    ensures |s| == 2 ==> n < 0x1_0000
    ensures |s| == 3 ==> n < 0x100_0000
    ensures |s| == 4 ==> n < 0x1_0000_0000
  {
    if |s| == 0 then 0 else s[0] + 0x100 * LeValue(s[1..])
  }

  /** How many numbers `k` bytes hold. */
  function Range(k: nat): nat {
    if k == 0 then 1 else 0x100 * Range(k - 1)
  }

  lemma {:induction false} LeRoundTrip(n: nat, k: nat)
    requires n < Range(k)
    ensures LeValue(LeBytes(n, k)) == n
  {
    if k > 0 {
      LeRoundTrip(n / 0x100, k - 1);
      assert LeBytes(n, k)[1..] == LeBytes(n / 0x100, k - 1);
    }
  }

  lemma Ranges()
    ensures Range(2) == 0x1_0000 && Range(4) == 0x1_0000_0000
  {
    assert Range(1) == 0x100 && Range(2) == 0x1_0000 && Range(3) == 0x100_0000;
  }

  function Le16(n: u16): (s: seq<byte>)
    ensures |s| == 2
  {
    LeBytes(n, 2)
  }

  function Le32(n: u32): (s: seq<byte>)
    ensures |s| == 4
  {
    LeBytes(n, 4)
  }

  function U16At(b: seq<byte>, i: nat): u16
    requires i + 2 <= |b|
  {
    LeValue(b[i..i + 2])
  }

  function U32At(b: seq<byte>, i: nat): u32
    requires i + 4 <= |b|
  {
    LeValue(b[i..i + 4])
  }

  lemma Le16At(a: seq<byte>, n: u16, c: seq<byte>)
    ensures U16At(a + Le16(n) + c, |a|) == n
  {
    assert (a + Le16(n) + c)[|a|..|a| + 2] == Le16(n);
    Ranges();
    LeRoundTrip(n, 2);
  }

  lemma Le32At(a: seq<byte>, n: u32, c: seq<byte>)
    ensures U32At(a + Le32(n) + c, |a|) == n
  {
    assert (a + Le32(n) + c)[|a|..|a| + 4] == Le32(n);
    Ranges();
    LeRoundTrip(n, 4);
  }

  /** The number that four bytes are, the lowest first. */
  function LowestFirst(a: int, b: int, c: int, d: int): int {
    a + 0x100 * (b + 0x100 * (c + 0x100 * d))
  }

  /** Numbers are read with the lowest byte first. */
  lemma ReadLowestFirst(b: seq<byte>, i: nat)
    ensures i + 2 <= |b| ==> U16At(b, i) == LowestFirst(b[i], b[i + 1], 0, 0)
    ensures i + 4 <= |b| ==> U32At(b, i) == LowestFirst(b[i], b[i + 1], b[i + 2], b[i + 3])
  {
    if i + 2 <= |b| {
      TwoBytes(b[i], b[i + 1]);
      assert b[i..i + 2] == [b[i], b[i + 1]];
    }
    if i + 4 <= |b| {
      FourBytes(b[i], b[i + 1], b[i + 2], b[i + 3]);
      assert b[i..i + 4] == [b[i], b[i + 1], b[i + 2], b[i + 3]];
    }
  }

  lemma TwoBytes(a: byte, b: byte)
    ensures LeValue([a, b]) == LowestFirst(a, b, 0, 0)
  {
    assert [a, b][1..] == [b] && [b][1..] == [];
    assert LeValue([b]) == b;
  }

  lemma FourBytes(a: byte, b: byte, c: byte, d: byte)
    ensures LeValue([a, b, c, d]) == LowestFirst(a, b, c, d)
  {
    assert [a, b, c, d][1..] == [b, c, d] && [b, c, d][1..] == [c, d];
    TwoBytes(c, d);
  }

  /** The next multiple of four. */
  function Align(n: nat): (m: nat)
    ensures n <= m < n + 4
  {
    if n == 0 then 0 else if n <= 4 then 4 else 4 + Align(n - 4)
  }

  /** The source rounds up by masking the two low bits. */
  lemma {:induction false} AlignMeaning(n: nat)
    ensures Align(n) == (n + 3) / 4 * 4
  {
    if n > 4 {
      AlignMeaning(n - 4);
    }
  }

  // ----- attributes -------------------------------------------------------------------

  datatype Attr = Attr(kind: u16, data: seq<byte>)

  /** How far the walk moves past something of this length: to the next multiple of four, but not past the end. */
  function Past(len: nat, b: seq<byte>): (n: nat)
    requires len <= |b|
    ensures len <= n <= |b|
  {
    if Align(len) < |b| then Align(len) else |b|
  }

  /** The two top bits of an attribute's type are flags. */
  function AttrKind(b: seq<byte>): u16
    requires |b| >= 4
  {
    U16At(b, 2) % 0x4000
  }

  /** The attributes in `b`, until what is left is not one. */
  function Attrs(b: seq<byte>): seq<Attr>
    decreases |b|
  {
    if |b| < 4 then [] else
    var len := U16At(b, 0);
    if len < 4 || len > |b| then []
    else [Attr(AttrKind(b), b[4..len])] + Attrs(b[Past(len, b)..])
  }

  /** The walk of the source. It stays in bounds and ends, whatever the bytes. */
  method WalkAttrs(bytes: seq<byte>) returns (out: seq<Attr>)
    ensures out == Attrs(bytes)
  {
    var b := bytes;
    out := [];
    while |b| >= 4
      invariant out + Attrs(b) == Attrs(bytes)
      decreases |b|
    {
      var len := U16At(b, 0);
      if len < 4 || len > |b| {
        assert Attrs(b) == [];
        break;
      }
      var a := Attr(AttrKind(b), b[4..len]);
      ghost var before := out;
      out := out + [a];
      assert before + ([a] + Attrs(b[Past(len, b)..])) == out + Attrs(b[Past(len, b)..]);
      b := b[Past(len, b)..];
    }
    assert out + [] == out;
  }

  /** An attribute as the kernel lays it out, padded. */
  function Tlv(a: Attr): (s: seq<byte>)
    requires 4 + |a.data| < 0x1_0000
    ensures |s| == Align(4 + |a.data|)
  {
    Le16(4 + |a.data|) + Le16(a.kind) + a.data + Zeros(Align(4 + |a.data|) - (4 + |a.data|))
  }

  predicate Encodable(list: seq<Attr>) {
    forall a :: a in list ==> a.kind < 0x4000 && 4 + |a.data| < 0x1_0000
  }

  function Tlvs(list: seq<Attr>): seq<byte>
    requires Encodable(list)
  {
    if |list| == 0 then [] else Tlv(list[0]) + Tlvs(list[1..])
  }

  lemma TlvHead(len: u16, kind: u16, rest: seq<byte>)
    ensures var b := Le16(len) + Le16(kind) + rest;
      U16At(b, 0) == len && U16At(b, 2) == kind && b[4..] == rest
  {
    var b := Le16(len) + Le16(kind) + rest;
    assert b == [] + Le16(len) + (Le16(kind) + rest);
    Le16At([], len, Le16(kind) + rest);
    Le16At(Le16(len), kind, rest);
  }

  lemma Sections(data: seq<byte>, pad: seq<byte>, more: seq<byte>)
    ensures var s := data + pad + more;
      s[..|data|] == data && s[|data| + |pad|..] == more
  {
  }

  /** The walk at an attribute. */
  lemma AttrNext(b: seq<byte>, a: Attr, rest: seq<byte>)
    requires |b| >= 4 && U16At(b, 0) == 4 + |a.data| <= |b| && AttrKind(b) == a.kind
    requires b[4..4 + |a.data|] == a.data && b[Past(4 + |a.data|, b)..] == rest
    ensures Attrs(b) == [a] + Attrs(rest)
  {
  }

  lemma NoFlags(kind: u16)
    requires kind < 0x4000
    ensures kind % 0x4000 == kind
  {
  }

  lemma TlvFirst(a: Attr, more: seq<byte>)
    requires a.kind < 0x4000 && 4 + |a.data| < 0x1_0000
    ensures Attrs(Tlv(a) + more) == [a] + Attrs(more)
  {
    var len := 4 + |a.data|;
    var pad := Zeros(Align(len) - len);
    var b, rest := Tlv(a) + more, a.data + pad + more;
    assert b == Le16(len) + Le16(a.kind) + rest;
    TlvHead(len, a.kind, rest);
    Sections(a.data, pad, more);
    SubSlices(b, 4, |a.data|, Align(len) - 4);
    NoFlags(a.kind);
    AttrNext(b, a, more);
  }

  /** The last attribute needs no padding, and the two flags in its type are left out. */
  lemma LastUnpadded(field: u16, data: seq<byte>)
    requires 4 + |data| < 0x1_0000
    ensures Attrs(Le16(4 + |data|) + Le16(field) + data) == [Attr(field % 0x4000, data)]
  {
    TlvHead(4 + |data|, field, data);
    AllOfIt(Le16(4 + |data|) + Le16(field) + data, field, data);
  }

  lemma AllOfIt(b: seq<byte>, field: u16, data: seq<byte>)
    requires |b| == 4 + |data| && U16At(b, 0) == |b| && U16At(b, 2) == field && b[4..] == data
    ensures Attrs(b) == [Attr(field % 0x4000, data)]
  {
    assert b[4..|b|] == b[4..];
    assert b[Past(|b|, b)..] == [];
    AttrNext(b, Attr(field % 0x4000, data), []);
  }

  lemma SubSlices(b: seq<byte>, i: nat, n: nat, k: nat)
    requires i + n <= |b| && i + k <= |b|
    ensures b[i..i + n] == b[i..][..n] && b[i + k..] == b[i..][k..]
  {
  }

  /** The attribute walk undoes padded encoding. */
  lemma {:induction false} AttrsInverse(list: seq<Attr>)
    requires Encodable(list)
    ensures Attrs(Tlvs(list)) == list
  {
    if |list| > 0 {
      TlvFirst(list[0], Tlvs(list[1..]));
      AttrsInverse(list[1..]);
    }
  }

  // ----- messages ---------------------------------------------------------------------

  /** One message: its type, sequence number and payload. */
  datatype Msg = Msg(kind: u16, seqNo: u32, body: seq<byte>)

  /** Length, type, flags, sequence number and a port number of 0. */
  function Header(len: u32, kind: u16, flags: u16, seqNo: u32): (s: seq<byte>)
    ensures |s| == 16
  {
    Le32(len) + Le16(kind) + Le16(flags) + Le32(seqNo) + Le32(0)
  }

  /** The request flag 1 set. */
  function WithRequest(flags: u16): u16 {
    if flags % 2 == 0 then flags + 1 else flags
  }

  /** A message as written, padded; the length field is cut to 32 bits. */
  function NlMsg(m: Msg, flags: u16): (s: seq<byte>)
    ensures |s| == Align(16 + |m.body|)
  {
    var len := 16 + |m.body|;
    Header(len % 0x1_0000_0000, m.kind, WithRequest(flags), m.seqNo) + m.body + Zeros(Align(len) - len)
  }

  method WriteNlMsg(ty: u16, flags: u16, seqNo: u32, payload: seq<byte>) returns (m: seq<byte>)
    ensures m == NlMsg(Msg(ty, seqNo, payload), flags)
  {
    var len := 16 + |payload|;
    m := Le32(len % 0x1_0000_0000);
    m := m + Le16(ty);
    m := m + Le16(WithRequest(flags));
    m := m + Le32(seqNo);
    m := m + Le32(0);
    m := m + payload;
    m := m + Zeros(Align(len) - len);
  }

  /** `Errno` is a refusal of the kernel, `Truncated` a reply that is no message. */
  datatype Failure = Errno(n: int) | Truncated | NoReply

  /** What a reply leads to: more to read, the request's result, or a failure. */
  datatype Walk = More(out: seq<Msg>) | Done(out: seq<Msg>) | Failed(why: Failure)

  function SignedAt(b: seq<byte>): int
    requires |b| >= 4
  {
    var n: int := U32At(b, 0);
    if n < 0x8000_0000 then n else n - 0x1_0000_0000
  }

  /** The result that a message of ours brings, if it ends the request. */
  function Ending(m: Msg, out: seq<Msg>): Option<Walk> {
    if m.kind == NLMSG_DONE then Some(Done(out))
    else if m.kind == NLMSG_ERROR then
      var err := if |m.body| >= 4 then SignedAt(m.body) else 0;
      Some(if err == 0 then Done(out) else Failed(Errno(-err)))
    else None
  }

  /** The messages in one reply, added to `out`; those of other requests are passed over. */
  function WalkReply(b: seq<byte>, out: seq<Msg>): Walk
    decreases |b|
  {
    if |b| < 16 then More(out) else
    var len := U32At(b, 0);
    if len < 16 || len > |b| then Failed(Truncated) else
    var m := Msg(U16At(b, 4), U32At(b, 8), b[16..len]);
    var rest := b[Past(len, b)..];
    if m.seqNo != SEQ then WalkReply(rest, out)
    else match Ending(m, out)
      case Some(w) => w
      case None => WalkReply(rest, out + [m])
  }

  /** Reply after reply, until one ends the request. */
  function Request(replies: seq<seq<byte>>, out: seq<Msg>): Walk
    decreases |replies|
  {
    if |replies| == 0 then Failed(NoReply)
    else match WalkReply(replies[0], out)
      case More(o) => Request(replies[1..], o)
      case w => w
  }

  /** The source's two loops. */
  method Collect(replies: seq<seq<byte>>) returns (w: Walk)
    ensures w == Request(replies, [])
  {
    var out: seq<Msg> := [];
    for i := 0 to |replies|
      invariant Request(replies, []) == Request(replies[i..], out)
    {
      assert replies[i..][1..] == replies[i + 1..];
      var b := replies[i];
      while |b| >= 16
        invariant Request(replies, []) == match WalkReply(b, out) case More(o) => Request(replies[i + 1..], o) case w => w
        decreases |b|
      {
        var len := U32At(b, 0);
        if len < 16 || len > |b| {
          return Failed(Truncated);
        }
        var m := Msg(U16At(b, 4), U32At(b, 8), b[16..len]);
        b := b[Past(len, b)..];
        if m.seqNo != SEQ {
          continue;
        }
        match Ending(m, out) {
          case Some(end) => return end;
          case None => out := out + [m];
        }
      }
    }
    return Failed(NoReply);
  }

  function Written(ms: seq<Msg>, flags: u16): seq<byte>
    requires AllPass(ms)
  {
    if |ms| == 0 then [] else Written(ms[..|ms| - 1], flags) + NlMsg(ms[|ms| - 1], flags)
  }

  /** One more message, if it answers our request. */
  function Taken(out: seq<Msg>, m: Msg): seq<Msg> {
    if m.seqNo == 1 then out + [m] else out
  }

  /** The messages that answer our request. */
  function Ours(ms: seq<Msg>): seq<Msg> {
    if |ms| == 0 then [] else Taken(Ours(ms[..|ms| - 1]), ms[|ms| - 1])
  }

  lemma HeaderRead(len: u32, kind: u16, flags: u16, seqNo: u32, rest: seq<byte>)
    ensures var b := Header(len, kind, flags, seqNo) + rest;
      U32At(b, 0) == len && U16At(b, 4) == kind && U32At(b, 8) == seqNo && b[16..] == rest
  {
    var a, b, c, d, e := Le32(len), Le16(kind), Le16(flags), Le32(seqNo), Le32(0);
    FiveParts(a, b, c, d, e, rest);
    Le32At([], len, b + c + d + e + rest);
    Le16At(a, kind, c + d + e + rest);
    Le32At(a + b + c, seqNo, e + rest);
  }

  lemma FiveParts(a: seq<byte>, b: seq<byte>, c: seq<byte>, d: seq<byte>, e: seq<byte>, rest: seq<byte>)
    ensures var all := a + b + c + d + e + rest;
      && all == [] + a + (b + c + d + e + rest)
      && all == a + b + (c + d + e + rest)
      && all == a + b + c + d + (e + rest)
      && all[|a| + |b| + |c| + |d| + |e|..] == rest
  {
  }

  lemma ThreeParts(head: seq<byte>, body: seq<byte>, pad: seq<byte>, more: seq<byte>)
    ensures var b := head + body + pad + more;
      && b == head + (body + pad + more)
      && b[|head|..|head| + |body|] == body && b[|head| + |body| + |pad|..] == more
  {
  }

  /** A message in front of others: its numbers, its body, and where the walk goes on. */
  lemma MessageFirst(m: Msg, flags: u16, more: seq<byte>)
    requires 16 + |m.body| < 0x1_0000_0000
    ensures var b, len := NlMsg(m, flags) + more, 16 + |m.body|;
      && U32At(b, 0) == len <= |b|
      && U16At(b, 4) == m.kind && U32At(b, 8) == m.seqNo && b[16..len] == m.body
      && b[Past(len, b)..] == more
  {
    var b, len := NlMsg(m, flags) + more, 16 + |m.body|;
    NumbersFirst(m, flags, more);
    BodyFirst(m, flags, more);
    assert Align(len) <= |b|;
    assert Past(len, b) == Align(len);
  }

  lemma NumbersFirst(m: Msg, flags: u16, more: seq<byte>)
    requires 16 + |m.body| < 0x1_0000_0000
    ensures var b := NlMsg(m, flags) + more;
      U32At(b, 0) == 16 + |m.body| && U16At(b, 4) == m.kind && U32At(b, 8) == m.seqNo
  {
    var len := 16 + |m.body|;
    var head, rest := Header(len, m.kind, WithRequest(flags), m.seqNo), m.body + Zeros(Align(len) - len) + more;
    assert NlMsg(m, flags) + more == head + rest by {
      Uncut(len);
      ThreeParts(head, m.body, Zeros(Align(len) - len), more);
    }
    HeaderRead(len, m.kind, WithRequest(flags), m.seqNo, rest);
  }

  lemma BodyFirst(m: Msg, flags: u16, more: seq<byte>)
    ensures var b, len := NlMsg(m, flags) + more, 16 + |m.body|;
      b[16..len] == m.body && b[Align(len)..] == more
  {
    var len := 16 + |m.body|;
    var head, pad := Header(len % 0x1_0000_0000, m.kind, WithRequest(flags), m.seqNo), Zeros(Align(len) - len);
    ThreeParts(head, m.body, pad, more);
  }

  /** A message of ours that the walk takes, no end (3) and no error (2), or one of another request that it passes over. */
  predicate Passes(m: Msg) {
    16 + |m.body| < 0x1_0000_0000 && (m.seqNo == 1 ==> m.kind != 3 && m.kind != 2)
  }

  predicate AllPass(ms: seq<Msg>) {
    forall k :: 0 <= k < |ms| ==> Passes(ms[k])
  }

  /** The walk at a message. */
  lemma WalkNext(b: seq<byte>, m: Msg, rest: seq<byte>, out: seq<Msg>)
    requires Passes(m) && |b| >= 16 && U32At(b, 0) == 16 + |m.body| <= |b|
    requires U16At(b, 4) == m.kind && U32At(b, 8) == m.seqNo && b[16..16 + |m.body|] == m.body
    requires b[Past(16 + |m.body|, b)..] == rest
    ensures WalkReply(b, out) == WalkReply(rest, Taken(out, m))
  {
  }

  /**
   Any messages written one after the other into a reply are walked through
   as they were: each body of ours is taken in order, without its padding, and
   those of other requests are left out; then the walk goes on with what follows.
   */
  lemma {:induction false} WalkInverse(ms: seq<Msg>, flags: u16, more: seq<byte>, out: seq<Msg>)
    requires AllPass(ms)
    ensures WalkReply(Written(ms, flags) + more, out) == WalkReply(more, out + Ours(ms))
    decreases |ms|
  {
    if |ms| == 0 {
      assert Written(ms, flags) + more == more && out + Ours(ms) == out;
    } else {
      var init, m := ms[..|ms| - 1], ms[|ms| - 1];
      var last := NlMsg(m, flags) + more;
      assert Written(ms, flags) + more == Written(init, flags) + last;
      WalkInverse(init, flags, last, out);
      MessageFirst(m, flags, more);
      WalkNext(last, m, more, out + Ours(init));
      assert Taken(out + Ours(init), m) == out + Ours(ms);
    }
  }

  /** The whole reply is walked through. */
  lemma ReplyWalked(ms: seq<Msg>, flags: u16, out: seq<Msg>)
    requires AllPass(ms)
    ensures WalkReply(Written(ms, flags), out) == More(out + Ours(ms))
  {
    WalkInverse(ms, flags, [], out);
    assert Written(ms, flags) + [] == Written(ms, flags);
  }

  lemma EndWalked(end: Msg, flags: u16, out: seq<Msg>)
    requires end.kind == 3 && end.seqNo == 1 && 16 + |end.body| < 0x1_0000_0000
    ensures WalkReply(NlMsg(end, flags), out) == Done(out)
  {
    MessageFirst(end, flags, []);
    assert NlMsg(end, flags) + [] == NlMsg(end, flags);
  }

  ghost predicate IsDump(dump: seq<seq<Msg>>) {
    forall k :: 0 <= k < |dump| ==> AllPass(dump[k])
  }

  /** The replies that a dump comes in. */
  ghost function Replies(dump: seq<seq<Msg>>, flags: u16): seq<seq<byte>>
    requires IsDump(dump)
  {
    if |dump| == 0 then [] else Replies(dump[..|dump| - 1], flags) + [Written(dump[|dump| - 1], flags)]
  }

  function AllOurs(dump: seq<seq<Msg>>): seq<Msg> {
    if |dump| == 0 then [] else AllOurs(dump[..|dump| - 1]) + Ours(dump[|dump| - 1])
  }

  lemma NextReply(first: seq<byte>, rest: seq<seq<byte>>, out: seq<Msg>, out': seq<Msg>)
    requires WalkReply(first, out) == More(out')
    ensures Request([first] + rest, out) == Request(rest, out')
  {
    assert ([first] + rest)[1..] == rest;
  }

  lemma {:induction false} RepliesTaken(dump: seq<seq<Msg>>, flags: u16, rest: seq<seq<byte>>, out: seq<Msg>)
    requires IsDump(dump)
    ensures Request(Replies(dump, flags) + rest, out) == Request(rest, out + AllOurs(dump))
    decreases |dump|
  {
    if |dump| == 0 {
      assert Replies(dump, flags) + rest == rest && out + AllOurs(dump) == out;
    } else {
      var init, ms := dump[..|dump| - 1], dump[|dump| - 1];
      LastReply(dump, flags, rest);
      RepliesTaken(init, flags, [Written(ms, flags)] + rest, out);
      OneReplyTaken(ms, flags, rest, out + AllOurs(init));
      Regroup(out, AllOurs(init), Ours(ms));
    }
  }

  lemma LastReply(dump: seq<seq<Msg>>, flags: u16, rest: seq<seq<byte>>)
    requires IsDump(dump) && |dump| > 0
    ensures IsDump(dump[..|dump| - 1]) && AllPass(dump[|dump| - 1])
    ensures Replies(dump, flags) + rest
         == Replies(dump[..|dump| - 1], flags) + ([Written(dump[|dump| - 1], flags)] + rest)
  {
  }

  lemma OneReplyTaken(ms: seq<Msg>, flags: u16, rest: seq<seq<byte>>, out: seq<Msg>)
    requires AllPass(ms)
    ensures Request([Written(ms, flags)] + rest, out) == Request(rest, out + Ours(ms))
  {
    ReplyWalked(ms, flags, out);
    NextReply(Written(ms, flags), rest, out, out + Ours(ms));
  }

  /** A dump, in any number of replies, then the end: the request's result is exactly our messages. */
  lemma DumpCollected(dump: seq<seq<Msg>>, flags: u16, end: Msg)
    requires IsDump(dump)
    requires end.kind == 3 && end.seqNo == 1 && 16 + |end.body| < 0x1_0000_0000
    ensures Request(Replies(dump, flags) + [NlMsg(end, flags)], []) == Done(AllOurs(dump))
  {
    RepliesTaken(dump, flags, [NlMsg(end, flags)], []);
    assert [] + AllOurs(dump) == AllOurs(dump);
    EndWalked(end, flags, AllOurs(dump));
  }

  /** The rest of a message's header: the flags with the lowest set, a port number of 0. */
  lemma HeaderTold(m: Msg, flags: u16)
    ensures var b := NlMsg(m, flags);
      && U16At(b, 6) % 2 == 1 && U16At(b, 6) / 2 == flags / 2 && U32At(b, 12) == 0
      && forall k :: 16 + |m.body| <= k < |b| ==> b[k] == 0
  {
    var len := 16 + |m.body|;
    var a, b, c, d, e :=
      Le32(len % 0x1_0000_0000), Le16(m.kind), Le16(WithRequest(flags)), Le32(m.seqNo), Le32(0);
    var pad := Zeros(Align(len) - len);
    FlagsAndPort(a + b, c, d, e, m.body + pad);
    Le16At(a + b, WithRequest(flags), d + e + (m.body + pad));
    Le32At(a + b + c + d, 0, m.body + pad);
    Regroup(a + b + c + d + e, m.body, pad);
    AllZeros(Align(len) - len);
  }

  lemma FlagsAndPort(ab: seq<byte>, c: seq<byte>, d: seq<byte>, e: seq<byte>, rest: seq<byte>)
    ensures ab + c + d + e + rest == ab + c + (d + e + rest)
  {
  }

  lemma {:induction false} AllZeros(n: nat)
    ensures forall k :: 0 <= k < n ==> Zeros(n)[k] == 0
  {
    if n > 0 {
      AllZeros(n - 1);
    }
  }

  lemma SignedRead(err: int, rest: seq<byte>)
    requires -0x8000_0000 <= err < 0x8000_0000
    ensures SignedAt(Le32(err % 0x1_0000_0000) + rest) == err
  {
    Le32At([], err % 0x1_0000_0000, rest);
    assert [] + Le32(err % 0x1_0000_0000) + rest == Le32(err % 0x1_0000_0000) + rest;
  }

  /** The walk at an acknowledgement. */
  lemma WalkAck(b: seq<byte>, ack: Msg, err: int, out: seq<Msg>)
    requires ack.kind == 2 && ack.seqNo == 1 && |b| >= 16 && U32At(b, 0) == 16 + |ack.body| <= |b|
    requires U16At(b, 4) == ack.kind && U32At(b, 8) == ack.seqNo && b[16..16 + |ack.body|] == ack.body
    requires |ack.body| >= 4 && SignedAt(ack.body) == err
    ensures WalkReply(b, out) == if err == 0 then Done(out) else Failed(Errno(-err))
  {
  }

  /** An acknowledgement ends the request well if its error number is 0, and with that error otherwise. */
  lemma AckWalked(ack: Msg, err: int, rest: seq<byte>, flags: u16, out: seq<Msg>)
    requires -0x8000_0000 <= err < 0x8000_0000 && ack.body == Le32(err % 0x1_0000_0000) + rest
    requires ack.kind == 2 && ack.seqNo == 1 && 16 + |ack.body| < 0x1_0000_0000
    ensures WalkReply(NlMsg(ack, flags), out) == if err == 0 then Done(out) else Failed(Errno(-err))
  {
    MessageFirst(ack, flags, []);
    assert NlMsg(ack, flags) + [] == NlMsg(ack, flags);
    SignedRead(err, rest);
    WalkAck(NlMsg(ack, flags), ack, err, out);
  }

  /** What is no message behind the messages makes the request fail, and so does silence. */
  lemma DumpBroken(dump: seq<seq<Msg>>, flags: u16, ms: seq<Msg>, junk: seq<byte>, later: seq<seq<byte>>)
    requires IsDump(dump) && AllPass(ms)
    requires |junk| >= 16 && (U32At(junk, 0) < 16 || U32At(junk, 0) > |junk|)
    ensures Request(Replies(dump, flags) + ([Written(ms, flags) + junk] + later), []) == Failed(Truncated)
    ensures Request(Replies(dump, flags), []) == Failed(NoReply)
  {
    RepliesTaken(dump, flags, [Written(ms, flags) + junk] + later, []);
    WalkInverse(ms, flags, junk, [] + AllOurs(dump));
    RepliesTaken(dump, flags, [], []);
    assert Replies(dump, flags) + [] == Replies(dump, flags);
  }

  // ----- addresses --------------------------------------------------------------------

  /** An address of an interface, with its prefix length. */
  datatype IfAddr = IfAddr(addr: Ipv4, len: byte)

  /** What `addr_payload` writes: /32, scope universe, the address twice. */
  function AddrPayload(index: u32, ip: Ipv4): seq<byte> {
    [AF_INET, 32, 0, 0] + Le32(index) + Tlvs([Attr(IFA_LOCAL, Octets(ip)), Attr(IFA_ADDRESS, Octets(ip))])
  }

  method WriteAddrPayload(index: u32, ip: Ipv4) returns (p: seq<byte>)
    ensures p == AddrPayload(index, ip)
  {
    p := [AF_INET, 32, 0, 0];
    p := p + Le32(index);
    ghost var start := p;
    var kinds := [IFA_LOCAL, IFA_ADDRESS];
    for i := 0 to 2
      invariant i == 0 ==> p == start
      invariant i == 1 ==> p == start + Eight(IFA_LOCAL, ip)
      invariant i == 2 ==> p == start + Eight(IFA_LOCAL, ip) + Eight(IFA_ADDRESS, ip)
    {
      p := p + Le16(8);
      p := p + Le16(kinds[i]);
      p := p + Octets(ip);
    }
    PayloadTlvs(ip);
    assert p == start + (Eight(IFA_LOCAL, ip) + Eight(IFA_ADDRESS, ip));
  }

  /** An attribute that holds an address; it needs no padding. */
  function Eight(kind: u16, ip: Ipv4): seq<byte> {
    Le16(8) + Le16(kind) + Octets(ip)
  }

  lemma EightIsTlv(kind: u16, ip: Ipv4)
    ensures Tlv(Attr(kind, Octets(ip))) == Eight(kind, ip)
  {
    assert Align(8) == 8 && Zeros(0) == [];
  }

  lemma PayloadTlvs(ip: Ipv4)
    ensures Tlvs([Attr(IFA_LOCAL, Octets(ip)), Attr(IFA_ADDRESS, Octets(ip))]) == Eight(IFA_LOCAL, ip) + Eight(IFA_ADDRESS, ip)
  {
    var list := [Attr(IFA_LOCAL, Octets(ip)), Attr(IFA_ADDRESS, Octets(ip))];
    EightIsTlv(IFA_LOCAL, ip);
    EightIsTlv(IFA_ADDRESS, ip);
    assert list[1..] == [list[1]] && list[1..][1..] == [];
    assert Tlvs(list[1..]) == Tlv(list[1]) + [];
  }

  /** The last attribute of this type that holds four bytes. */
  function LastAddr(list: seq<Attr>, kind: u16): Option<Ipv4> {
    if |list| == 0 then None else
    var a := list[|list| - 1];
    if a.kind == kind && |a.data| == 4 then Some(FromOctets(a.data)) else LastAddr(list[..|list| - 1], kind)
  }

  /** The attribute holds an address of this type. */
  predicate HoldsAddr(a: Attr, kind: u16) {
    a.kind == kind && |a.data| == 4
  }

  lemma {:induction false} LastAddrIs(list: seq<Attr>, kind: u16, at: int)
    requires -1 <= at < |list| && (at >= 0 ==> HoldsAddr(list[at], kind))
    requires forall k :: at < k < |list| ==> !HoldsAddr(list[k], kind)
    ensures LastAddr(list, kind)
         == if at < 0 then None else Some(Ipv4(list[at].data[0], list[at].data[1], list[at].data[2], list[at].data[3]))
    decreases |list|
  {
    if at < |list| - 1 {
      assert !HoldsAddr(list[|list| - 1], kind);
      LastAddrIs(list[..|list| - 1], kind, at);
    }
  }

  predicate IsAddrOf(m: Msg, index: u32) {
    m.kind == RTM_NEWADDR && |m.body| >= 8 && m.body[0] == AF_INET && U32At(m.body, 4) == index
  }

  /** The address in a message: IFA_LOCAL, or else IFA_ADDRESS. */
  function AddrIn(m: Msg): Option<IfAddr>
    requires |m.body| >= 8
  {
    var list := Attrs(m.body[8..]);
    var a := if LastAddr(list, IFA_LOCAL).Some? then LastAddr(list, IFA_LOCAL) else LastAddr(list, IFA_ADDRESS);
    if a.Some? then Some(IfAddr(a.value, m.body[1])) else None
  }

  function Listed(a: Option<IfAddr>): seq<IfAddr> {
    if a.Some? then [a.value] else []
  }

  /** The interface's addresses, in order. */
  function Addrs(ms: seq<Msg>, index: u32): seq<IfAddr> {
    if |ms| == 0 then [] else
    var m := ms[|ms| - 1];
    Addrs(ms[..|ms| - 1], index) + if IsAddrOf(m, index) then Listed(AddrIn(m)) else []
  }

  method ParseAddrs(ms: seq<Msg>, index: u32) returns (out: seq<IfAddr>)
    ensures out == Addrs(ms, index)
  {
    out := [];
    for i := 0 to |ms|
      invariant out == Addrs(ms[..i], index)
    {
      var m := ms[i];
      assert ms[..i + 1][..i] == ms[..i];
      if !IsAddrOf(m, index) {
        continue;
      }
      var local: Option<Ipv4>, address: Option<Ipv4> := None, None;
      var list := WalkAttrs(m.body[8..]);
      for j := 0 to |list|
        invariant local == LastAddr(list[..j], IFA_LOCAL) && address == LastAddr(list[..j], IFA_ADDRESS)
      {
        assert list[..j + 1][..j] == list[..j];
        var d := list[j].data;
        if |d| == 4 {
          if list[j].kind == IFA_LOCAL {
            local := Some(FromOctets(d));
          } else if list[j].kind == IFA_ADDRESS {
            address := Some(FromOctets(d));
          }
        }
      }
      assert list[..|list|] == list;
      var a := if local.Some? then local else address;
      if a.Some? {
        out := out + [IfAddr(a.value, m.body[1])];
      }
    }
    assert ms[..|ms|] == ms;
  }

  // ----- which address is the interface's own ------------------------------------------

  /** The first address that is not a /32, or their number. */
  function FirstShorter(addrs: seq<IfAddr>): (k: nat)
    ensures k <= |addrs|
    ensures forall j :: 0 <= j < k ==> addrs[j].len >= 32
    ensures k < |addrs| ==> addrs[k].len < 32
  {
    if |addrs| == 0 then 0
    else
      var k := FirstShorter(addrs[..|addrs| - 1]);
      if k == |addrs| - 1 && addrs[k].len >= 32 then |addrs| else k
  }

  /** The source of our advertisements: the first address that is not a /32, as a VIP is, or else the first. */
  function Source(addrs: seq<IfAddr>): Option<Ipv4> {
    if |addrs| == 0 then None
    else if FirstShorter(addrs) < |addrs| then Some(addrs[FirstShorter(addrs)].addr)
    else Some(addrs[0].addr)
  }

  method InterfaceIpv4(ms: seq<Msg>, index: u32) returns (r: Option<Ipv4>)
    ensures r == Source(Addrs(ms, index))
  {
    var addrs := ParseAddrs(ms, index);
    for i := 0 to |addrs|
      invariant FirstShorter(addrs) >= i
    {
      if addrs[i].len < 32 {
        return Some(addrs[i].addr);
      }
    }
    if |addrs| > 0 {
      return Some(addrs[0].addr);
    }
    return None;
  }

  lemma FirstShorterUnique(addrs: seq<IfAddr>, k: nat)
    requires k < |addrs| && addrs[k].len < 32 && forall j :: 0 <= j < k ==> addrs[j].len >= 32
    ensures FirstShorter(addrs) == k && Source(addrs) == Some(addrs[k].addr)
  {
  }

  /**
   A VIP claimed on the interface never becomes the source while the interface
   has an address of its own, wherever the kernel lists it.
   */
  lemma VipIsNoSource(before: seq<IfAddr>, vip: IfAddr, rest: seq<IfAddr>)
    requires vip.len >= 32 && FirstShorter(before + rest) < |before + rest|
    ensures Source(before + [vip] + rest) == Source(before + rest)
  {
    var k, all, own := FirstShorter(before + rest), before + [vip] + rest, before + rest;
    if k < |before| {
      assert forall j :: 0 <= j <= k ==> all[j] == own[j];
      FirstShorterUnique(all, k);
    } else {
      forall j | 0 <= j < k + 1
        ensures all[j].len >= 32
      {
        assert all[j] == if j < |before| then own[j] else if j == |before| then vip else own[j - 1];
      }
      assert all[k + 1] == own[k];
      FirstShorterUnique(all, k + 1);
    }
  }

  // ----- what the kernel lists --------------------------------------------------------------

  /** A message of ours: an IPv4 address, of any prefix length and with any attributes, or something else. */
  datatype Held =
    | Held(index: u32, len: byte, flags: byte, scope: byte, attrs: seq<Attr>)
    | Other(msg: Msg)

  /** What is no IPv4 address message (20): of another type, too short, or of another family than 2. */
  predicate Fits(h: Held) {
    if h.Held? then Encodable(h.attrs) else h.msg.kind != 20 || |h.msg.body| < 8 || h.msg.body[0] != 2
  }

  function HeldBody(h: Held): seq<byte>
    requires h.Held? && Encodable(h.attrs)
  {
    [2, h.len, h.flags, h.scope] + Le32(h.index) + Tlvs(h.attrs)
  }

  function HeldMsg(h: Held): Msg
    requires Fits(h)
  {
    if h.Held? then Msg(20, 1, HeldBody(h)) else h.msg
  }

  predicate AllFit(hs: seq<Held>) {
    forall k :: 0 <= k < |hs| ==> Fits(hs[k])
  }

  function HeldMsgs(hs: seq<Held>): seq<Msg>
    requires AllFit(hs)
  {
    if |hs| == 0 then [] else HeldMsgs(hs[..|hs| - 1]) + [HeldMsg(hs[|hs| - 1])]
  }

  /** Its address: the local one (2), or else the other (1). */
  function HeldAddr(h: Held): Option<IfAddr>
    requires h.Held?
  {
    var a := if LastAddr(h.attrs, 2).Some? then LastAddr(h.attrs, 2) else LastAddr(h.attrs, 1);
    if a.Some? then Some(IfAddr(a.value, h.len)) else None
  }

  function AddrOf(h: Held, index: u32): seq<IfAddr> {
    if h.Held? && h.index == index then Listed(HeldAddr(h)) else []
  }

  function AddrsOf(hs: seq<Held>, index: u32): seq<IfAddr> {
    if |hs| == 0 then [] else AddrsOf(hs[..|hs| - 1], index) + AddrOf(hs[|hs| - 1], index)
  }

  /** A VIP as it is claimed. */
  function Vip(index: u32, ip: Ipv4): (h: Held)
    ensures h.Held? && Fits(h)
  {
    Held(index, 32, 0, 0, [Attr(2, Octets(ip)), Attr(1, Octets(ip))])
  }

  /** What is written to claim a VIP reads as that address, a /32. */
  lemma VipListed(index: u32, ip: Ipv4)
    ensures HeldBody(Vip(index, ip)) == AddrPayload(index, ip) && HeldAddr(Vip(index, ip)) == Some(IfAddr(ip, 32))
  {
    var list := Vip(index, ip).attrs;
    OctetsRoundTrip(ip);
    assert list[..1] == [list[0]];
    assert LastAddr(list[..1], 2) == Some(ip);
  }

  /** The bytes that claim or release a VIP: its two attributes are 2 and 1, each of eight bytes. */
  lemma PayloadBytes(index: u32, ip: Ipv4)
    ensures var four := [ip.a, ip.b, ip.c, ip.d];
      AddrPayload(index, ip) == [2, 32, 0, 0] + Le32(index) + (([8, 0, 2, 0] + four) + ([8, 0, 1, 0] + four))
  {
    PayloadTlvs(ip);
    SmallNumber(8);
    SmallNumber(2);
    SmallNumber(1);
  }

  lemma SmallNumber(n: byte)
    ensures Le16(n) == [n, 0]
  {
    assert LeBytes(n, 2) == [n % 0x100] + LeBytes(n / 0x100, 1);
    assert LeBytes(0, 1) == [0] + LeBytes(0, 0);
  }

  lemma HeldHead(h: Held)
    requires h.Held? && Fits(h)
    ensures var body := HeldBody(h);
      && |body| >= 8 && body[0] == 2 && body[1] == h.len && U32At(body, 4) == h.index && body[8..] == Tlvs(h.attrs)
  {
    Le32At([2, h.len, h.flags, h.scope], h.index, Tlvs(h.attrs));
  }

  lemma HeldRead(h: Held, index: u32)
    requires Fits(h)
    ensures IsAddrOf(HeldMsg(h), index) <==> h.Held? && h.index == index
    ensures h.Held? ==> |HeldMsg(h).body| >= 8 && AddrIn(HeldMsg(h)) == HeldAddr(h)
  {
    if h.Held? {
      HeldHead(h);
      AttrsInverse(h.attrs);
    }
  }

  /** From any messages exactly the interface's addresses are read, in order. */
  lemma {:induction false} AddrsRead(hs: seq<Held>, index: u32)
    requires AllFit(hs)
    ensures Addrs(HeldMsgs(hs), index) == AddrsOf(hs, index)
  {
    if |hs| > 0 {
      var init, h := hs[..|hs| - 1], hs[|hs| - 1];
      AddrsRead(init, index);
      HeldRead(h, index);
      assert HeldMsgs(hs)[..|HeldMsgs(hs)| - 1] == HeldMsgs(init);
    }
  }

  /**
   From the bytes of a dump to the addresses and the source: whatever replies
   it comes in, and whatever other messages stand between, of ours or of other
   requests, the interface's addresses come out, all of them, in order, of any
   prefix length.
   */
  lemma InterfaceAddressesRead(dump: seq<seq<Msg>>, flags: u16, end: Msg, hs: seq<Held>, index: u32)
    requires IsDump(dump) && AllFit(hs) && AllOurs(dump) == HeldMsgs(hs)
    requires end.kind == 3 && end.seqNo == 1 && 16 + |end.body| < 0x1_0000_0000
    ensures var w := Request(Replies(dump, flags) + [NlMsg(end, flags)], []);
      && w.Done? && Addrs(w.out, index) == AddrsOf(hs, index)
      && Source(Addrs(w.out, index)) == Source(AddrsOf(hs, index))
  {
    DumpCollected(dump, flags, end);
    AddrsRead(hs, index);
  }
}
