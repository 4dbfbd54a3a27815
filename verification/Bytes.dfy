/** Machine integers and their bits, times, big-endian words and IPv4 addresses as bytes. */
module Bytes {
  type byte = b: int | 0 <= b < 0x100
  type u16 = n: int | 0 <= n < 0x1_0000
  type u32 = n: int | 0 <= n < 0x1_0000_0000

  type u64 = n: int | 0 <= n < WRAP

  /** How many values a u64 has. */
  const WRAP := 0x1_0000_0000_0000_0000

  /** Milliseconds. */
  type Time = nat

  /** An IPv4 address by its octets. */
  datatype Ipv4 = Ipv4(a: byte, b: byte, c: byte, d: byte)

  /** The order of addresses: that of their octets, the first deciding. */
  predicate Higher(x: Ipv4, y: Ipv4) {
    || x.a > y.a
    || (x.a == y.a && x.b > y.b)
    || (x.a == y.a && x.b == y.b && x.c > y.c)
    || (x.a == y.a && x.b == y.b && x.c == y.c && x.d > y.d)
  }

  /** An address as a number. */
  function Number(x: Ipv4): int {
    ((0x100 * (x.a as int) + x.b) * 0x100 + x.c) * 0x100 + x.d
  }

  /** The order of addresses is that of their numbers. */
  lemma HigherIsGreater(x: Ipv4, y: Ipv4)
    ensures Higher(x, y) <==> Number(x) > Number(y)
  {
  }

  datatype Option<+T> = None | Some(value: T)

  function Max(a: int, b: int): int { if a < b then b else a }
  function Min(a: int, b: int): int { if a < b then a else b }

  /** A cut to 32 or to 64 bits leaves what fits. */
  lemma Uncut(n: nat)
    ensures n < 0x1_0000_0000 ==> n % 0x1_0000_0000 == n
    ensures n < WRAP ==> n % WRAP == n
  {
  }

  lemma Regroup<T>(a: seq<T>, b: seq<T>, c: seq<T>)
    ensures (a + b) + c == a + (b + c)
  {
  }

  function Zeros(n: nat): (z: seq<byte>)
    ensures |z| == n
  {
    if n == 0 then [] else Zeros(n - 1) + [0]
  }

  function Be16(n: u16): (s: seq<byte>)
    ensures |s| == 2
  {
    [n / 0x100, n % 0x100]
  }

  function FromBe16(hi: byte, lo: byte): u16 {
    hi * 0x100 + lo
  }

  /** The number that two bytes are, the high one first. */
  function BigEndian(hi: int, lo: int): int {
    0x100 * hi + lo
  }

  lemma BigEndianIs(n: u16, hi: byte, lo: byte)
    ensures BigEndian(Be16(n)[0], Be16(n)[1]) == n
    ensures FromBe16(hi, lo) == BigEndian(hi, lo)
  {
  }

  lemma Be16RoundTrip(n: u16)
    ensures FromBe16(Be16(n)[0], Be16(n)[1]) == n
  {
  }

  /** The four bytes of an address, as they go on the wire. */
  type Quad = s: seq<byte> | |s| == 4 witness [0, 0, 0, 0]

  function Octets(x: Ipv4): Quad {
    [x.a, x.b, x.c, x.d]
  }

  function FromOctets(s: Quad): Ipv4 {
    Ipv4(s[0], s[1], s[2], s[3])
  }

  lemma OctetsRoundTrip(x: Ipv4)
    ensures FromOctets(Octets(x)) == x
  {
  }

  // ----- bits -------------------------------------------------------------------

  /** `v >> n`, one place at a time. */
  function Shr(v: nat, n: nat): nat {
    if n == 0 then v else Shr(v / 2, n - 1)
  }

  /** `a & b`, one bit at a time. */
  function And(a: nat, b: nat): nat {
    if a == 0 || b == 0 then 0 else (if a % 2 == 1 && b % 2 == 1 then 1 else 0) + 2 * And(a / 2, b / 2)
  }

  lemma AndOdd(n: nat, m: nat)
    ensures And(n, 2 * m + 1) == n % 2 + 2 * And(n / 2, m)
  {
  }

  lemma AndPair(n: nat, m: nat)
    ensures And(n, 4 * m + 3) == n % 4 + 4 * And(n / 4, m)
  {
    AndOdd(n, 2 * m + 1);
    AndOdd(n / 2, m);
    Quarter(n);
  }

  lemma Quarter(n: nat)
    ensures n / 2 / 2 == n / 4 && n % 2 + 2 * (n / 2 % 2) == n % 4
  {
  }

  /** Masking a hexadecimal digit takes its value. */
  lemma AndDigit(n: nat, m: nat)
    ensures And(n, 0x10 * m + 0x0f) == n % 0x10 + 0x10 * And(n / 0x10, m)
  {
    AndPair(n, 4 * m + 3);
    AndPair(n / 4, m);
    Sixteenth(n);
  }

  lemma Sixteenth(n: nat)
    ensures n / 4 / 4 == n / 0x10 && n % 4 + 4 * (n / 4 % 4) == n % 0x10
  {
  }

  lemma AndOneDigit(n: nat)
    ensures And(n, 0x0f) == n % 0x10
  {
    AndDigit(n, 0);
  }

  lemma AndThreeDigits(n: nat)
    ensures And(n, 0x0fff) == n % 0x1000
  {
    AndDigit(n, 0xff);
    AndDigit(n / 0x10, 0x0f);
    AndDigit(n / 0x10 / 0x10, 0);
    ThreeDigits(n);
  }

  lemma ThreeDigits(n: nat)
    ensures n % 0x10 + 0x10 * (n / 0x10 % 0x10 + 0x10 * (n / 0x10 / 0x10 % 0x10)) == n % 0x1000
  {
    var a := n / 0x10;
    var b := a / 0x10;
    var c := b / 0x10;
    var r := n % 0x10 + 0x10 * (a % 0x10 + 0x10 * (b % 0x10));
    assert n == 0x1000 * c + r;
    RemainderIs(n, c, r);
  }

  lemma RemainderIs(n: nat, q: nat, r: nat)
    requires n == 0x1000 * q + r && r < 0x1000
    ensures n % 0x1000 == r
  {
  }

  lemma ShrDigit(n: nat)
    ensures Shr(n, 4) == n / 0x10
  {
    assert Shr(n, 4) == Shr(n / 2, 3) == Shr(n / 2 / 2, 2) == Shr(n / 2 / 2 / 2, 1) == Shr(n / 2 / 2 / 2 / 2, 0);
  }
}
