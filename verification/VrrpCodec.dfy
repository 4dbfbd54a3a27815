/**
 The VRRP v3 advertisement codec of src/vrrp.rs: the one's-complement checksum
 (RFC 1071), its IPv4 pseudo-header (RFC 5798 section 5.2.8), the encoder and
 the parser.
 */
module VrrpCodec {
  import opened Bytes

  const MCAST: seq<byte> := [224, 0, 0, 18]
  const IPPROTO_VRRP: byte := 112

  /** Version 3 in the high four bits, type 1 (advertisement) in the low ones. */
  const VERSION_TYPE: byte := 0x31

  /** The most bytes whose 16-bit words can be summed without leaving a u32. */
  const MAX_SUMMED := 2 * 0x1_0001

  datatype Advert = Advert(priority: byte, src: Ipv4, interval: u16)

  // ----- the checksum -----------------------------------------------------

  /** The sum of the big-endian 16-bit words of `d`, an odd last byte padded with zero. */
  function WordSum(d: seq<byte>): nat {
    if |d| == 0 then 0
    else if |d| == 1 then FromBe16(d[0], 0)
    else FromBe16(d[0], d[1]) + WordSum(d[2..])
  }

  /**
   The one's-complement value of a sum: 65535 cast out until 16 bits are left.
   The source adds the carries back in instead, which comes to the same
   (`FoldCarry`).
   */
  function Fold(n: nat): (f: nat)
    ensures f < 0x1_0000
  {
    if n < 0x1_0000 then n else Fold(n - 0xffff)
  }

  function Checksum(d: seq<byte>): u16 {
    0xffff - Fold(WordSum(d))
  }

  /** Folding keeps the residue modulo 65535 and never turns a nonzero sum into zero. */
  lemma {:induction false} FoldMeaning(n: nat)
    ensures Fold(n) % 0xffff == n % 0xffff
    ensures Fold(n) == 0 <==> n == 0
  {
    if n >= 0x1_0000 {
      FoldMeaning(n - 0xffff);
      ResidueShift(n - 0xffff, 1);
    }
  }

  lemma ResidueShift(m: int, k: int)
    ensures (m + 0xffff * k) % 0xffff == m % 0xffff
  {
  }

  lemma {:induction false} FoldShift(m: nat, k: nat)
    requires m > 0
    ensures Fold(m + 0xffff * k) == Fold(m)
  {
    if k > 0 {
      FoldShift(m, k - 1);
      assert m + 0xffff * k - 0xffff == m + 0xffff * (k - 1);
    }
  }

  /** Adding the carries back in keeps the value. */
  lemma FoldCarry(n: nat)
    requires n >= 0x1_0000
    ensures Fold(n % 0x1_0000 + n / 0x1_0000) == Fold(n)
  {
    FoldShift(n % 0x1_0000 + n / 0x1_0000, n / 0x1_0000);
  }

  lemma {:induction false} WordSumBound(d: seq<byte>)
    ensures WordSum(d) <= (|d| + 1) / 2 * 0xffff
  {
    if |d| >= 2 {
      WordSumBound(d[2..]);
    }
  }

  lemma {:induction false} WordSumConcat(a: seq<byte>, b: seq<byte>)
    requires |a| % 2 == 0
    ensures WordSum(a + b) == WordSum(a) + WordSum(b)
  {
    if |a| == 0 {
      assert a + b == b;
    } else {
      assert (a + b)[2..] == a[2..] + b;
      WordSumConcat(a[2..], b);
    }
  }

  /** The weight a byte at index `i` has in the sum. */
  function Weight(i: nat): nat {
    if i % 2 == 0 then 0x100 else 1
  }

  lemma {:induction false} WordSumUpdate(d: seq<byte>, i: nat, v: byte)
    requires i < |d|
    ensures WordSum(d[i := v]) == WordSum(d) + (v - d[i]) * Weight(i)
  {
    if i >= 2 {
      assert d[i := v][2..] == d[2..][i - 2 := v];
      WordSumUpdate(d[2..], i - 2, v);
    } else if |d| >= 2 {
      assert d[i := v][2..] == d[2..];
    }
  }

  /** The receiver's test: a checksum of zero is a nonzero sum divisible by 65535. */
  lemma ChecksumZero(d: seq<byte>)
    ensures Checksum(d) == 0 <==> WordSum(d) > 0 && WordSum(d) % 0xffff == 0
  {
    FoldMeaning(WordSum(d));
  }

  /** One more word of an even prefix. */
  lemma WordSumNext(d: seq<byte>, i: nat)
    requires i % 2 == 0 && i + 2 <= |d| <= MAX_SUMMED
    ensures WordSum(d[..i + 2]) == WordSum(d[..i]) + FromBe16(d[i], d[i + 1]) < 0x1_0000_0000
  {
    assert d[..i + 2] == d[..i] + d[i..i + 2];
    WordSumConcat(d[..i], d[i..i + 2]);
    assert d[i..i + 2][2..] == [];
    WordSumBound(d[..i + 2]);
  }

  /** The loop of the source, in 32-bit arithmetic that never overflows. */
  method OnesComplementChecksum(data: seq<byte>) returns (ck: u16)
    requires |data| <= MAX_SUMMED
    ensures ck == Checksum(data)
  {
    var sum: u32 := 0;
    var i := 0;
    while i + 2 <= |data|
      invariant 0 <= i <= |data| && i % 2 == 0
      invariant sum == WordSum(data[..i])
    {
      WordSumNext(data, i);
      sum := sum + FromBe16(data[i], data[i + 1]);
      i := i + 2;
    }
    assert data == data[..i] + data[i..];
    WordSumConcat(data[..i], data[i..]);
    WordSumBound(data);
    if i < |data| {
      sum := sum + FromBe16(data[i], 0);
    }
    ghost var total := sum;
    while sum / 0x1_0000 != 0
      invariant Fold(sum) == Fold(total)
      decreases sum
    {
      FoldCarry(sum);
      sum := sum % 0x1_0000 + sum / 0x1_0000;
    }
    ck := 0xffff - sum;
  }

  // ----- encoder ----------------------------------------------------------

  /** The pseudo-header and the payload; the length field is truncated to 16 bits. */
  function WithPseudoHeader(vrrp: seq<byte>, src: Quad): (s: seq<byte>)
    ensures |s| == 12 + |vrrp| && s[12..] == vrrp
  {
    src + MCAST + [0, IPPROTO_VRRP] + Be16(|vrrp| % 0x1_0000) + vrrp
  }

  function AllOctets(vips: seq<Ipv4>): (s: seq<byte>)
    ensures |s| == 4 * |vips|
  {
    if |vips| == 0 then [] else AllOctets(vips[..|vips| - 1]) + Octets(vips[|vips| - 1])
  }

  /** The payload with nothing yet in its checksum field. */
  function Blank(vrid: byte, priority: byte, interval: u16, vips: seq<Ipv4>): (p: seq<byte>)
    ensures |p| == 8 + 4 * |vips| && p[6] == 0 && p[7] == 0
  {
    var mai := interval % 0x1000;
    [VERSION_TYPE, vrid, priority, |vips| % 0x100, mai / 0x100, mai % 0x100, 0, 0] + AllOctets(vips)
  }

  /** The checksum over the pseudo-header and `p`, put into `p`. */
  function Sealed(p: seq<byte>, src: Quad): (s: seq<byte>)
    requires |p| >= 8
    ensures |s| == |p| && forall k :: 0 <= k < |p| && k != 6 && k != 7 ==> s[k] == p[k]
  {
    var ck := Checksum(WithPseudoHeader(p, src));
    p[6 := ck / 0x100][7 := ck % 0x100]
  }

  function Encode(vrid: byte, priority: byte, interval: u16, vips: seq<Ipv4>, src: Ipv4): (p: seq<byte>) {
    Sealed(Blank(vrid, priority, interval, vips), Octets(src))
  }

  method EncodeAdvertisement(vrid: byte, priority: byte, interval: u16, vips: seq<Ipv4>, src: Ipv4) returns (p: seq<byte>)
    requires 20 + 4 * |vips| <= MAX_SUMMED
    ensures p == Encode(vrid, priority, interval, vips, src)
  {
    p := [VERSION_TYPE, vrid, priority, |vips| % 0x100];
    p := p + Be16(interval % 0x1000);
    p := p + [0, 0];
    ghost var head := p;
    for k := 0 to |vips|
      invariant p == head + AllOctets(vips[..k])
    {
      assert vips[..k + 1][..k] == vips[..k];
      p := p + Octets(vips[k]);
    }
    assert vips[..|vips|] == vips;
    assert p == Blank(vrid, priority, interval, vips);
    var ck := OnesComplementChecksum(WithPseudoHeader(p, Octets(src)));
    p := p[6 := ck / 0x100][7 := ck % 0x100];
  }

  /** Replacing the word at even index `j` shifts the sum by the difference of the words. */
  lemma WordUpdate(full: seq<byte>, j: nat, hi: byte, lo: byte)
    requires j % 2 == 0 && j + 1 < |full|
    ensures WordSum(full[j := hi][j + 1 := lo])
         == WordSum(full) + FromBe16(hi, lo) - FromBe16(full[j], full[j + 1])
  {
    WordSumUpdate(full, j, hi);
    WordSumUpdate(full[j := hi], j + 1, lo);
  }

  /** A word of the payload is a word of what the checksum covers. */
  lemma CoveredWord(vrrp: seq<byte>, src: Quad, i: nat, hi: byte, lo: byte)
    requires i + 1 < |vrrp|
    ensures WithPseudoHeader(vrrp[i := hi][i + 1 := lo], src) == WithPseudoHeader(vrrp, src)[i + 12 := hi][i + 13 := lo]
    ensures WithPseudoHeader(vrrp, src)[i + 12] == vrrp[i] && WithPseudoHeader(vrrp, src)[i + 13] == vrrp[i + 1]
  {
  }

  lemma PseudoHeaderSumPositive(vrrp: seq<byte>, src: Quad)
    ensures WordSum(WithPseudoHeader(vrrp, src)) > 0
  {
    var head := src + MCAST;
    var rest := [0, IPPROTO_VRRP] + Be16(|vrrp| % 0x1_0000) + vrrp;
    assert WithPseudoHeader(vrrp, src) == head + rest;
    WordSumConcat(head, rest);
    assert rest[0] == 0 && rest[1] == IPPROTO_VRRP;
  }

  /** Adding the complement of the folded sum makes it divisible by 65535. */
  lemma ComplementSums(s: nat)
    ensures (s + 0xffff - Fold(s)) % 0xffff == 0
  {
    FoldMeaning(s);
    var f := Fold(s);
    assert s - f == 0xffff * (s / 0xffff - f / 0xffff);
    ResidueShift(0, s / 0xffff - f / 0xffff + 1);
  }

  /** What is sealed always passes the receiver's test. */
  lemma SealedChecks(p: seq<byte>, src: Quad)
    requires |p| >= 8 && p[6] == 0 && p[7] == 0
    ensures Checksum(WithPseudoHeader(Sealed(p, src), src)) == 0
  {
    var zero := WithPseudoHeader(p, src);
    var ck := Checksum(zero);
    CoveredWord(p, src, 6, ck / 0x100, ck % 0x100);
    WordUpdate(zero, 18, ck / 0x100, ck % 0x100);
    Be16RoundTrip(ck);
    ComplementSums(WordSum(zero));
    PseudoHeaderSumPositive(p, src);
    ChecksumZero(WithPseudoHeader(Sealed(p, src), src));
  }

  // ----- parser -----------------------------------------------------------

  /** The low 12 bits of a word: the top four are reserved. */
  function Low12(hi: byte, lo: byte): u16 {
    FromBe16(hi % 0x10, lo)
  }

  /**
   The parser's shifts and masks, bit by bit: version and type are 3 and 1 for
   one byte only, the header length's mask is a remainder, and so is that of
   the interval's word.
   */
  lemma Masks(b: byte, lo: byte)
    ensures Shr(b, 4) == 3 && And(b, 0x0f) == 1 <==> b == VERSION_TYPE
    ensures And(b, 0x0f) == b % 0x10
    ensures And(FromBe16(b, lo), 0x0fff) == Low12(b, lo)
  {
    VersionBits(b);
    AndOneDigit(b);
    IntervalBits(b, lo);
  }

  lemma VersionBits(b: byte)
    ensures Shr(b, 4) == 3 && And(b, 0x0f) == 1 <==> b == VERSION_TYPE
  {
    ShrDigit(b);
    AndOneDigit(b);
    Digits(b);
  }

  lemma Digits(b: byte)
    ensures b / 0x10 == 3 && b % 0x10 == 1 <==> b == VERSION_TYPE
  {
  }

  lemma IntervalBits(hi: byte, lo: byte)
    ensures And(FromBe16(hi, lo), 0x0fff) == Low12(hi, lo)
  {
    AndThreeDigits(FromBe16(hi, lo));
    LowTwelve(hi, lo);
  }

  lemma LowTwelve(hi: byte, lo: byte)
    ensures FromBe16(hi, lo) % 0x1000 == Low12(hi, lo)
  {
    RemainderIs(FromBe16(hi, lo), hi / 0x10, Low12(hi, lo));
  }

  function HeaderLength(datagram: seq<byte>): nat
    requires |datagram| > 0
  {
    datagram[0] % 0x10 * 4
  }

  function ParseAdvertisement(datagram: seq<byte>, vrid: byte): Option<Advert> {
    if |datagram| < 20 then None else
    var ihl := HeaderLength(datagram);
    if ihl < 20 || |datagram| < ihl + 8 || datagram[8] != 255 then None else
    var src := datagram[12..16];
    ParsePayload(datagram[ihl..], src, vrid)
  }

  /** The VRRP part, from an address whose octets are `src`. */
  function ParsePayload(vrrp: seq<byte>, src: Quad, vrid: byte): Option<Advert>
    requires |vrrp| >= 8
  {
    if vrrp[0] != VERSION_TYPE || vrrp[1] != vrid then None
    else if Checksum(WithPseudoHeader(vrrp, src)) != 0 then None
    else Some(Advert(vrrp[2], FromOctets(src), Low12(vrrp[4], vrrp[5])))
  }

  /**
   An IPv4 header with any options (section 3.1 of RFC 791): version 4 and its
   length in words in the first byte, the TTL of an unrouted datagram, and
   `src`.
   */
  predicate IpHeader(h: seq<byte>, src: Ipv4) {
    && 20 <= |h| <= 60 && |h| % 4 == 0
    && h[0] == 0x40 + |h| / 4
    && h[8] == 255
    && h[12] == src.a && h[13] == src.b && h[14] == src.c && h[15] == src.d
  }

  lemma HeaderLengthRead(h: seq<byte>, p: seq<byte>, src: Ipv4)
    requires IpHeader(h, src)
    ensures HeaderLength(h + p) == |h| && h[12..16] == Octets(src)
  {
    var words := |h| / 4;
    assert 5 <= words <= 15 && h[0] % 0x10 == words;
  }

  lemma ParseBehindHeader(h: seq<byte>, src: Ipv4, p: seq<byte>, vrid: byte)
    requires IpHeader(h, src) && |p| >= 8
    ensures ParseAdvertisement(h + p, vrid) == ParsePayload(p, Octets(src), vrid)
  {
    var d := h + p;
    HeaderLengthRead(h, p, src);
    assert d[|h|..] == p;
    assert d[12..16] == h[12..16];
  }

  lemma ParseSealed(p: seq<byte>, src: Quad, vrid: byte)
    requires |p| >= 8 && p[0] == VERSION_TYPE && p[6] == 0 && p[7] == 0
    ensures ParsePayload(Sealed(p, src), src, vrid)
         == if p[1] == vrid then Some(Advert(p[2], FromOctets(src), Low12(p[4], p[5]))) else None
  {
    SealedChecks(p, src);
  }

  /** Round trip, for every address list, options included in the IP header or not; another router's is not ours. */
  lemma RoundTrip(h: seq<byte>, vrid: byte, priority: byte, interval: u16, vips: seq<Ipv4>, src: Ipv4, ours: byte)
    requires IpHeader(h, src)
    ensures ParseAdvertisement(h + Encode(vrid, priority, interval, vips, src), ours)
         == if vrid == ours then Some(Advert(priority, src, interval % 0x1000)) else None
  {
    var p := Blank(vrid, priority, interval, vips);
    BlankFields(vrid, priority, interval, vips);
    ParseBehindHeader(h, src, Sealed(p, Octets(src)), ours);
    ParseSealed(p, Octets(src), ours);
    OctetsRoundTrip(src);
  }

  lemma BlankFields(vrid: byte, priority: byte, interval: u16, vips: seq<Ipv4>)
    ensures var p := Blank(vrid, priority, interval, vips);
      && p[0] == VERSION_TYPE && p[1] == vrid && p[2] == priority
      && Low12(p[4], p[5]) == interval % 0x1000
  {
    var p := Blank(vrid, priority, interval, vips);
    var mai: u16 := interval % 0x1000;
    assert p[4] == mai / 0x100 && p[5] == mai % 0x100;
  }

  lemma {:induction false} AllOctetsAt(vips: seq<Ipv4>, k: nat)
    requires k < |vips|
    ensures AllOctets(vips)[4 * k..4 * k + 4] == Octets(vips[k])
  {
    var n := |vips| - 1;
    if k < n {
      AllOctetsAt(vips[..n], k);
    }
    AppendedQuad(AllOctets(vips[..n]), Octets(vips[n]), 4 * k);
  }

  lemma AppendedQuad(a: seq<byte>, q: Quad, i: nat)
    ensures i + 4 <= |a| ==> (a + q)[i..i + 4] == a[i..i + 4]
    ensures (a + q)[|a|..|a| + 4] == q
  {
  }

  /** The layout of section 5.2 of RFC 5798: the number of addresses, and each in its place. */
  lemma AddressesInPlace(vrid: byte, priority: byte, interval: u16, vips: seq<Ipv4>, src: Ipv4, k: nat)
    requires k < |vips|
    ensures var p := Encode(vrid, priority, interval, vips, src);
      |p| == 8 + 4 * |vips| && p[3] == |vips| % 0x100 && p[8 + 4 * k..12 + 4 * k] == Octets(vips[k])
  {
    AllOctetsAt(vips, k);
    var blank, p := Blank(vrid, priority, interval, vips), Encode(vrid, priority, interval, vips, src);
    assert p[8..] == blank[8..] == AllOctets(vips);
    assert p[8 + 4 * k..12 + 4 * k] == p[8..][4 * k..4 * k + 4];
  }

  /** The fields in front of the addresses, as they go on the wire. */
  lemma FieldsInPlace(vrid: byte, priority: byte, interval: u16, vips: seq<Ipv4>, src: Ipv4)
    ensures var p := Encode(vrid, priority, interval, vips, src);
      && |p| >= 8 && p[0] == 3 * 0x10 + 1 && p[1] == vrid && p[2] == priority
      && BigEndian(p[4], p[5]) == interval % 0x1000
  {
  }

  /** The sum takes bytes in pairs, each big-endian, and an odd last one as a high byte. */
  lemma WordSumIs(hi: byte, lo: byte, rest: seq<byte>)
    ensures WordSum([]) == 0 && WordSum([hi]) == BigEndian(hi, 0)
    ensures WordSum([hi, lo] + rest) == BigEndian(hi, lo) + WordSum(rest)
  {
    assert ([hi, lo] + rest)[2..] == rest;
  }

  /**
   What the checksum covers beside the payload (section 5.2.8 of RFC 5798):
   the source address, 224.0.0.18, protocol 112, and the payload's length.
   */
  lemma CoveredSum(vrrp: seq<byte>, src: Ipv4)
    requires |vrrp| < 0x1_0000
    ensures WordSum(WithPseudoHeader(vrrp, Octets(src)))
         == BigEndian(src.a, src.b) + BigEndian(src.c, src.d) + BigEndian(224, 0) + BigEndian(0, 18)
            + BigEndian(0, 112) + |vrrp| + WordSum(vrrp)
  {
    FourParts(Octets(src), MCAST, [0, IPPROTO_VRRP] + Be16(|vrrp|), vrrp);
    TwoWords(src.a, src.b, src.c, src.d);
    TwoWords(224, 0, 0, 18);
    TwoPairs(0, IPPROTO_VRRP, Be16(|vrrp|));
    BigEndianIs(|vrrp|, 0, 0);
    PseudoHeaderParts(vrrp, Octets(src));
  }

  lemma PseudoHeaderParts(vrrp: seq<byte>, src: Quad)
    requires |vrrp| < 0x1_0000
    ensures WithPseudoHeader(vrrp, src) == ((src + MCAST) + ([0, IPPROTO_VRRP] + Be16(|vrrp|))) + vrrp
  {
  }

  lemma FourParts(a: seq<byte>, b: seq<byte>, c: seq<byte>, d: seq<byte>)
    requires |a| % 2 == 0 && |b| % 2 == 0 && |c| % 2 == 0
    ensures WordSum(((a + b) + c) + d) == WordSum(a) + WordSum(b) + WordSum(c) + WordSum(d)
  {
    WordSumConcat((a + b) + c, d);
    WordSumConcat(a + b, c);
    WordSumConcat(a, b);
  }

  lemma TwoWords(a: byte, b: byte, c: byte, d: byte)
    ensures WordSum([a, b, c, d]) == BigEndian(a, b) + BigEndian(c, d)
  {
    WordSumIs(a, b, [c, d]);
    WordSumIs(c, d, []);
    assert [a, b] + [c, d] == [a, b, c, d] && [c, d] + [] == [c, d];
  }

  lemma TwoPairs(a: byte, b: byte, s: seq<byte>)
    requires |s| == 2
    ensures WordSum([a, b] + s) == BigEndian(a, b) + BigEndian(s[0], s[1])
  {
    TwoWords(a, b, s[0], s[1]);
    assert [a, b] + s == [a, b, s[0], s[1]];
  }

  /** What the parser demands of a datagram, byte by byte. */
  ghost predicate Acceptable(d: seq<byte>, vrid: byte) {
    |d| >= 28 &&
    var words := And(d[0], 0x0f);
    && words >= 5 && |d| >= 4 * words + 8
    && d[8] == 255
    && d[4 * words] == 0x31 && d[4 * words + 1] == vrid
    && CoveredAtZero(d[4 * words..], Ipv4(d[12], d[13], d[14], d[15]))
  }

  /** The receiver's sum over the pseudo-header and the payload. */
  predicate CoveredAtZero(vrrp: seq<byte>, src: Ipv4) {
    WordSum(WithPseudoHeader(vrrp, Octets(src))) % 0xffff == 0
  }

  /**
   Exactly which datagrams are accepted, and as what: those with an IP header
   of five words or more and a whole VRRP header behind it, TTL 255, version 3,
   type 1, our virtual router, and a right checksum over the pseudo-header.
   */
  lemma AcceptedExactlyWhen(d: seq<byte>, vrid: byte)
    ensures ParseAdvertisement(d, vrid).Some? <==> Acceptable(d, vrid)
    ensures Acceptable(d, vrid) ==>
      var at := 4 * And(d[0], 0x0f);
      ParseAdvertisement(d, vrid)
      == Some(Advert(d[at + 2], Ipv4(d[12], d[13], d[14], d[15]), BigEndian(d[at + 4] % 0x10, d[at + 5])))
  {
    if |d| >= 20 {
      AndOneDigit(d[0]);
      var at := HeaderLength(d);
      assert at == 4 * And(d[0], 0x0f);
      if 20 <= at && at + 8 <= |d| {
        var src := Ipv4(d[12], d[13], d[14], d[15]);
        assert d[12..16] == Octets(src);
        ChecksumZero(WithPseudoHeader(d[at..], Octets(src)));
        PseudoHeaderSumPositive(d[at..], Octets(src));
        PayloadFields(d, at, vrid);
      }
    }
  }

  lemma PayloadFields(d: seq<byte>, at: nat, vrid: byte)
    requires 20 <= at && at + 8 <= |d|
    ensures d[at..][0] == d[at] && d[at..][1] == d[at + 1] && d[at..][2] == d[at + 2]
    ensures d[at..][4] == d[at + 4] && d[at..][5] == d[at + 5]
  {
  }

  // ----- error detection ----------------------------------------------------

  /** A change of less than a word's modulus cannot keep the sum divisible by it. */
  lemma SmallChangeShows(s: nat, delta: int)
    requires s % 0xffff == 0 && delta != 0 && -0xffff < delta < 0xffff && s + delta >= 0
    ensures (s + delta) % 0xffff != 0
  {
  }

  /** What the checksum of datagram `d` covers. */
  function Covered(d: seq<byte>): (s: seq<byte>)
    requires 20 <= |d| && HeaderLength(d) <= |d|
  {
    WithPseudoHeader(d[HeaderLength(d)..], d[12..16])
  }

  /** A byte of the payload or of the source address is covered by the checksum. */
  lemma CoveredUpdate(d: seq<byte>, i: nat, v: byte) returns (j: nat)
    requires 20 <= |d| && 20 <= HeaderLength(d) <= |d| && i < |d|
    requires 12 <= i < 16 || HeaderLength(d) <= i
    ensures j < |Covered(d)| && Covered(d)[j] == d[i]
    ensures Covered(d[i := v]) == Covered(d)[j := v]
  {
    var ihl := HeaderLength(d);
    var e := d[i := v];
    if i < 16 {
      j := i - 12;
      assert e[ihl..] == d[ihl..];
      assert e[12..16] == d[12..16][i - 12 := v];
    } else {
      j := i - ihl + 12;
      assert e[12..16] == d[12..16];
      assert e[ihl..] == d[ihl..][i - ihl := v];
    }
  }

  lemma ByteErrorShows(full: seq<byte>, j: nat, v: byte)
    requires j < |full| && v != full[j] && Checksum(full) == 0
    ensures Checksum(full[j := v]) != 0
  {
    WordSumUpdate(full, j, v);
    ChecksumZero(full);
    ChecksumZero(full[j := v]);
    SmallChangeShows(WordSum(full), (v - full[j]) * Weight(j));
  }

  lemma AcceptedChecks(d: seq<byte>, vrid: byte)
    requires ParseAdvertisement(d, vrid).Some?
    ensures 20 <= |d| && 20 <= HeaderLength(d) <= |d| && Checksum(Covered(d)) == 0
  {
  }

  /**
   Any one byte changed, in the payload or in the source address, of any
   datagram that was accepted: it is accepted no more.
   */
  lemma DetectsByteError(d: seq<byte>, vrid: byte, i: nat, v: byte)
    requires ParseAdvertisement(d, vrid).Some?
    requires i < |d| && v != d[i]
    requires 12 <= i < 16 || HeaderLength(d) <= i
    ensures ParseAdvertisement(d[i := v], vrid) == None
  {
    AcceptedChecks(d, vrid);
    var j := CoveredUpdate(d, i, v);
    ByteErrorShows(Covered(d), j, v);
    if ParseAdvertisement(d[i := v], vrid).Some? {
      AcceptedChecks(d[i := v], vrid);
    }
  }

  /** Two words are the same one's-complement number: equal, or the two zeros. */
  predicate SameResidue(was: u16, now: u16) {
    was == now || (was == 0 && now == 0xffff) || (was == 0xffff && now == 0)
  }

  lemma ResidueKept(s: nat, was: u16, now: u16)
    requires s % 0xffff == 0 && s + now - was >= 0
    ensures (s + now - was) % 0xffff == 0 <==> SameResidue(was, now)
  {
    var delta := now - was;
    if delta == 0xffff {
      ResidueShift(s, 1);
    } else if delta == -0xffff {
      ResidueShift(s, -1);
    } else if delta != 0 {
      SmallChangeShows(s, delta);
    }
  }

  /**
   What the checksum cannot see: one aligned 16-bit word replaced passes the
   test exactly when the word was not changed or all zeros and all ones were
   exchanged (the two zeros of one's-complement arithmetic).
   */
  lemma WordErrorsMissed(vrrp: seq<byte>, src: Quad, i: nat, hi: byte, lo: byte)
    requires Checksum(WithPseudoHeader(vrrp, src)) == 0
    requires i % 2 == 0 && i + 1 < |vrrp|
    ensures Checksum(WithPseudoHeader(vrrp[i := hi][i + 1 := lo], src)) == 0
       <==> SameResidue(FromBe16(vrrp[i], vrrp[i + 1]), FromBe16(hi, lo))
  {
    var full: seq<byte> := WithPseudoHeader(vrrp, src);
    var changed: seq<byte> := full[i + 12 := hi][i + 13 := lo];
    CoveredWord(vrrp, src, i, hi, lo);
    WordUpdate(full, i + 12, hi, lo);
    PseudoHeaderSumPositive(vrrp[i := hi][i + 1 := lo], src);
    ChecksumZero(full);
    ChecksumZero(changed);
    ResidueKept(WordSum(full), FromBe16(vrrp[i], vrrp[i + 1]), FromBe16(hi, lo));
  }
}
