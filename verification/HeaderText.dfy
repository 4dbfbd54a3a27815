/**
 What the text functions of Http mean: names by their letters, texts by their
 code points, numbers by their digits.
 */
module HeaderText {
  import opened Bytes
  import opened Http

  // ----- names ------------------------------------------------------------------------

  /** The character, a letter in either case. */
  predicate OfEitherCase(b: byte, c: char) {
    b == c as int || ('a' <= c <= 'z' && b == c as int - 32)
  }

  predicate Named(name: seq<byte>, word: string) {
    |name| == |word| && forall k :: 0 <= k < |word| ==> OfEitherCase(name[k], word[k])
  }

  /** `name` is `word` in ASCII: lower-case letters and hyphens. */
  predicate Spells(name: seq<byte>, word: string) {
    |name| == |word| && forall k :: 0 <= k < |word| ==> name[k] == word[k] as int && ('a' <= word[k] <= 'z' || word[k] == '-')
  }

  /** Names are compared without their case. */
  lemma NamedExactlyWhen(name: seq<byte>, letters: seq<byte>, word: string)
    requires Spells(letters, word)
    ensures SameName(name, letters) <==> Named(name, word)
  {
    var low, lowered := Lowered(name), Lowered(letters);
    if SameName(name, letters) {
      forall k | 0 <= k < |word|
        ensures OfEitherCase(name[k], word[k])
      {
        assert low[k] == LowerByte(name[k]) && lowered[k] == LowerByte(letters[k]) == letters[k];
      }
    }
    if Named(name, word) {
      forall k | 0 <= k < |word|
        ensures low[k] == lowered[k]
      {
        assert OfEitherCase(name[k], word[k]) && letters[k] == word[k] as int;
      }
      assert low == lowered;
    }
  }

  /** The header line gives a value to `word`: its name in any letter case, a colon, the value. */
  predicate Gives(line: seq<byte>, word: string) {
    |line| > |word| && Named(line[..|word|], word) && line[|word|] == 58
  }

  function Given(line: seq<byte>, word: string): seq<byte>
    requires Gives(line, word)
  {
    line[|word| + 1..]
  }

  lemma NoColonIn(name: seq<byte>, letters: seq<byte>, word: string)
    requires Spells(letters, word) && Named(name, word)
    ensures 58 !in name
  {
    forall b | b in name
      ensures b != 58
    {
      var k :| 0 <= k < |name| && name[k] == b;
      assert OfEitherCase(name[k], word[k]) && letters[k] == word[k] as int;
    }
  }

  lemma SplitParts(s: seq<byte>, k: nat)
    requires k < |s| && s[k] == 58 && 58 !in s[..k]
    ensures SplitOnce(s, 58) == Some((s[..k], s[k + 1..])) && UpTo(s, 58) == s[..k]
  {
    Around(s, k);
    SplitAtFirst(s[..k], s[k], s[k + 1..]);
    UpToAt(s[..k], s[k], s[k + 1..]);
  }

  lemma Around(s: seq<byte>, k: nat)
    requires k < |s|
    ensures s[..k] + ([s[k]] + s[k + 1..]) == s
  {
  }

  /** Splitting at the first colon finds the name and the value of such a line, and of no other. */
  lemma GivesExactlyWhen(line: seq<byte>, letters: seq<byte>, word: string)
    requires Spells(letters, word)
    ensures Gives(line, word) <==> SplitOnce(line, 58).Some? && SameName(SplitOnce(line, 58).value.0, letters)
    ensures Gives(line, word) ==> SplitOnce(line, 58).value.1 == Given(line, word)
  {
    if Gives(line, word) {
      var name := line[..|word|];
      NoColonIn(name, letters, word);
      SplitParts(line, |word|);
      NamedExactlyWhen(name, letters, word);
    } else if SplitOnce(line, 58).Some? {
      var name := SplitOnce(line, 58).value.0;
      NamedExactlyWhen(name, letters, word);
    }
  }

  // ----- code points --------------------------------------------------------------------

  /** A Unicode scalar value: any code point but the surrogates. */
  type Scalar = c: int | 0 <= c < 0xd800 || 0xe000 <= c < 0x11_0000

  /** UTF-8, as the table of section 3 of RFC 3629 has it. */
  function Encoded(c: Scalar): (s: seq<byte>)
    ensures 1 <= |s| <= 4
  {
    if c < 0x80 then [c]
    else if c < 0x800 then [0xc0 + c / 0x40, 0x80 + c % 0x40]
    else if c < 0x1_0000 then [0xe0 + c / 0x1000, 0x80 + c / 0x40 % 0x40, 0x80 + c % 0x40]
    else [0xf0 + c / 0x4_0000, 0x80 + c / 0x1000 % 0x40, 0x80 + c / 0x40 % 0x40, 0x80 + c % 0x40]
  }

  function Text(cs: seq<Scalar>): seq<byte> {
    if |cs| == 0 then [] else Encoded(cs[0]) + Text(cs[1..])
  }

  /** The code point of the sequence at the start. */
  function FirstOf(s: seq<byte>): (c: Scalar)
    requires Utf8Len(s) > 0
  {
    match Utf8Len(s)
    case 1 => s[0]
    case 2 => TwoOf(s[0], s[1])
    case 3 => ThreeOf(s[0], s[1], s[2])
    case _ => FourOf(s[0], s[1], s[2], s[3])
  }

  function TwoOf(a: int, b: int): int {
    (a - 0xc0) * 0x40 + (b - 0x80)
  }

  function ThreeOf(a: int, b: int, c: int): int {
    (a - 0xe0) * 0x1000 + (b - 0x80) * 0x40 + (c - 0x80)
  }

  function FourOf(a: int, b: int, c: int, d: int): int {
    (a - 0xf0) * 0x4_0000 + (b - 0x80) * 0x1000 + (c - 0x80) * 0x40 + (d - 0x80)
  }

  lemma FirstEncoded(s: seq<byte>)
    requires Utf8Len(s) > 0
    ensures Encoded(FirstOf(s)) == s[..Utf8Len(s)]
  {
    match Utf8Len(s) {
      case 1 =>
      case 2 => assert TwoOf(s[0], s[1]) / 0x40 == s[0] - 0xc0;
      case 3 => ThreeDigits(s[0], s[1], s[2]);
      case _ => FourDigits(s[0], s[1], s[2], s[3]);
    }
  }

  lemma ThreeDigits(a: int, b: int, c: int)
    requires 0x80 <= b < 0xc0 && 0x80 <= c < 0xc0
    ensures var n := ThreeOf(a, b, c);
      n / 0x1000 == a - 0xe0 && n / 0x40 % 0x40 == b - 0x80 && n % 0x40 == c - 0x80
  {
    assert ThreeOf(a, b, c) / 0x40 == (a - 0xe0) * 0x40 + (b - 0x80);
  }

  lemma FourDigits(a: int, b: int, c: int, d: int)
    requires 0x80 <= b < 0xc0 && 0x80 <= c < 0xc0 && 0x80 <= d < 0xc0
    ensures var n := FourOf(a, b, c, d);
      && n / 0x4_0000 == a - 0xf0 && n / 0x1000 % 0x40 == b - 0x80
      && n / 0x40 % 0x40 == c - 0x80 && n % 0x40 == d - 0x80
  {
    assert FourOf(a, b, c, d) / 0x40 == (a - 0xf0) * 0x1000 + (b - 0x80) * 0x40 + (c - 0x80);
    assert FourOf(a, b, c, d) / 0x1000 == (a - 0xf0) * 0x40 + (b - 0x80);
  }

  lemma EncodedFirst(c: Scalar, rest: seq<byte>)
    ensures Utf8Len(Encoded(c) + rest) == |Encoded(c)|
  {
    var s := Encoded(c) + rest;
    assert forall k :: 0 <= k < |Encoded(c)| ==> s[k] == Encoded(c)[k];
  }

  /** Valid UTF-8 is what encodes some code points. */
  lemma Utf8ExactlyWhen(s: seq<byte>)
    ensures ValidUtf8(s) <==> exists cs :: Text(cs) == s
  {
    if ValidUtf8(s) {
      var cs := Decoded(s);
    }
    if cs :| Text(cs) == s {
      TextValid(cs);
    }
  }

  lemma {:induction false} Decoded(s: seq<byte>) returns (cs: seq<Scalar>)
    requires ValidUtf8(s)
    ensures Text(cs) == s
    decreases |s|
  {
    if |s| == 0 {
      return [];
    }
    var n := Utf8Len(s);
    var rest := Decoded(s[n..]);
    FirstEncoded(s);
    cs := [FirstOf(s)] + rest;
    assert cs[1..] == rest && s == s[..n] + s[n..];
  }

  lemma {:induction false} TextValid(cs: seq<Scalar>)
    ensures ValidUtf8(Text(cs))
  {
    if |cs| > 0 {
      EncodedFirst(cs[0], Text(cs[1..]));
      TextValid(cs[1..]);
      assert Text(cs)[|Encoded(cs[0])|..] == Text(cs[1..]);
    }
  }

  // ----- white space ----------------------------------------------------------------------

  /** The characters with Unicode's White_Space property. */
  predicate White(c: Scalar) {
    9 <= c <= 13 || c in {0x20, 0x85, 0xa0, 0x1680, 0x2028, 0x2029, 0x202f, 0x205f, 0x3000} || 0x2000 <= c <= 0x200a
  }

  predicate AllWhite(cs: seq<Scalar>) {
    forall k :: 0 <= k < |cs| ==> White(cs[k])
  }

  predicate NoWhite(cs: seq<Scalar>) {
    forall k :: 0 <= k < |cs| ==> !White(cs[k])
  }

  lemma WhiteFirst(c: Scalar, rest: seq<byte>)
    ensures WhiteLen(Encoded(c) + rest) == if White(c) then |Encoded(c)| else 0
  {
    var s := Encoded(c) + rest;
    assert forall k :: 0 <= k < |Encoded(c)| ==> s[k] == Encoded(c)[k];
  }

  lemma EncodedTail(c: Scalar)
    ensures !Continues(Encoded(c)[0]) && forall k :: 1 <= k < |Encoded(c)| ==> Continues(Encoded(c)[k])
  {
  }

  lemma WhiteTail(s: seq<byte>)
    requires WhiteLen(s) > 0
    ensures !Continues(s[0]) && forall k :: 1 <= k < WhiteLen(s) ==> Continues(s[k])
  {
  }

  /** White space is at the end of a text if its last character is white space. */
  lemma EndsWhiteExactlyWhen(s: seq<byte>, c: Scalar, n: nat)
    requires 1 <= n <= 3
    ensures EndsWhite(s + Encoded(c), n) <==> White(c) && n == |Encoded(c)|
  {
    var e, all := Encoded(c), s + Encoded(c);
    EncodedTail(c);
    if n <= |all| {
      var u := all[|all| - n..];
      if n == |e| {
        assert u == e + [];
        WhiteFirst(c, []);
      } else {
        LastBytes(s, e, n);
        if WhiteLen(u) == n {
          WhiteTail(u);
        }
      }
    }
  }

  /** Where the last `n` bytes begin, or where the character at the end does among them. */
  lemma LastBytes(s: seq<byte>, e: seq<byte>, n: nat)
    requires 1 <= n <= |s| + |e| && |e| > 0
    ensures var u := (s + e)[|s| + |e| - n..]; if n < |e| then u[0] == e[|e| - n] else u[n - |e|] == e[0]
  {
  }

  lemma WhiteEnd(s: seq<byte>, c: Scalar)
    ensures WhiteAtEnd(s + Encoded(c)) == if White(c) then |Encoded(c)| else 0
  {
    EndsWhiteExactlyWhen(s, c, 1);
    EndsWhiteExactlyWhen(s, c, 2);
    EndsWhiteExactlyWhen(s, c, 3);
    WhiteFirst(c, []);
  }

  lemma {:induction false} TextConcat(a: seq<Scalar>, b: seq<Scalar>)
    ensures Text(a + b) == Text(a) + Text(b)
  {
    if |a| == 0 {
      assert a + b == b;
    } else {
      assert (a + b)[1..] == a[1..] + b;
      TextConcat(a[1..], b);
    }
  }

  lemma TextLast(cs: seq<Scalar>)
    requires |cs| > 0
    ensures Text(cs) == Text(cs[..|cs| - 1]) + Encoded(cs[|cs| - 1])
  {
    LastApart(cs);
    TextConcat(cs[..|cs| - 1], [cs[|cs| - 1]]);
    TextOne(cs[|cs| - 1]);
  }

  lemma LastApart<T>(s: seq<T>)
    requires |s| > 0
    ensures s[..|s| - 1] + [s[|s| - 1]] == s
  {
  }

  lemma TextOne(c: Scalar)
    ensures Text([c]) == Encoded(c)
  {
    assert Text([c]) == Encoded(c) + Text([]);
  }

  lemma {:induction false} TrimStartText(white: seq<Scalar>, cs: seq<Scalar>)
    requires AllWhite(white) && (|cs| > 0 ==> !White(cs[0]))
    ensures TrimStart(Text(white + cs)) == Text(cs)
  {
    if |white| == 0 {
      assert white + cs == cs;
      if |cs| > 0 {
        WhiteFirst(cs[0], Text(cs[1..]));
      }
    } else {
      var rest := white[1..] + cs;
      assert (white + cs)[1..] == rest;
      WhiteFirst(white[0], Text(rest));
      assert Text(white + cs)[|Encoded(white[0])|..] == Text(rest);
      TrimStartText(white[1..], cs);
    }
  }

  lemma TrimEndGoesOn(s: seq<byte>, c: Scalar)
    requires White(c)
    ensures TrimEnd(s + Encoded(c)) == TrimEnd(s)
  {
    WhiteEnd(s, c);
    assert (s + Encoded(c))[..|s|] == s;
  }

  lemma {:induction false} TrimEndText(cs: seq<Scalar>, white: seq<Scalar>)
    requires AllWhite(white) && (|cs| > 0 ==> !White(cs[|cs| - 1]))
    ensures TrimEnd(Text(cs + white)) == Text(cs)
    decreases |white|
  {
    if |white| == 0 {
      assert cs + white == cs;
      if |cs| > 0 {
        TextLast(cs);
        WhiteEnd(Text(cs[..|cs| - 1]), cs[|cs| - 1]);
      }
    } else {
      var init, c := white[..|white| - 1], white[|white| - 1];
      assert cs + white == (cs + init) + [c];
      TextConcat(cs + init, [c]);
      TextOne(c);
      TrimEndGoesOn(Text(cs + init), c);
      TrimEndText(cs, init);
    }
  }

  /** Trimming takes all white space from both ends of a text, and nothing else. */
  lemma TrimmedText(before: seq<Scalar>, cs: seq<Scalar>, after: seq<Scalar>)
    requires AllWhite(before) && AllWhite(after)
    requires |cs| > 0 ==> !White(cs[0]) && !White(cs[|cs| - 1])
    ensures Trim(Text(before + cs + after)) == Text(cs)
  {
    if |cs| > 0 {
      assert before + cs + after == before + (cs + after);
      TrimStartText(before, cs + after);
      TrimEndText(cs, after);
    } else {
      assert before + cs + after == before + after + [];
      TrimStartText(before + after, []);
      TrimEndText([], []);
    }
  }

  /** Of a character that is no white space, no byte starts any. */
  lemma NoWhiteInside(c: Scalar, k: nat, rest: seq<byte>)
    requires !White(c) && k < |Encoded(c)|
    ensures WhiteLen(Encoded(c)[k..] + rest) == 0
  {
    var s := Encoded(c)[k..] + rest;
    if k == 0 {
      WhiteFirst(c, rest);
      assert Encoded(c)[0..] == Encoded(c);
    } else {
      EncodedTail(c);
      assert s[0] == Encoded(c)[k];
      if WhiteLen(s) > 0 {
        WhiteTail(s);
      }
    }
  }

  lemma OneOff(e: seq<byte>, k: nat, rest: seq<byte>)
    requires k < |e|
    ensures e[k..] == [e[k]] + e[k + 1..]
    ensures (e[k..] + rest)[0] == e[k] && (e[k..] + rest)[1..] == e[k + 1..] + rest
  {
  }

  lemma {:induction false} WordPasses(c: Scalar, k: nat, rest: seq<byte>)
    requires !White(c) && k <= |Encoded(c)|
    ensures Word(Encoded(c)[k..] + rest) == Encoded(c)[k..] + Word(rest)
    decreases |Encoded(c)| - k
  {
    var e := Encoded(c);
    if k < |e| {
      NoWhiteInside(c, k, rest);
      OneOff(e, k, rest);
      WordPasses(c, k + 1, rest);
    } else {
      assert e[k..] + rest == rest;
    }
  }

  lemma {:induction false} WordText(word: seq<Scalar>, rest: seq<Scalar>)
    requires NoWhite(word) && (|rest| > 0 ==> White(rest[0]))
    ensures Word(Text(word + rest)) == Text(word)
  {
    if |word| == 0 {
      assert word + rest == rest;
      if |rest| > 0 {
        WhiteFirst(rest[0], Text(rest[1..]));
      }
    } else {
      assert (word + rest)[1..] == word[1..] + rest;
      assert Encoded(word[0])[0..] == Encoded(word[0]);
      WordPasses(word[0], 0, Text(word[1..] + rest));
      WordText(word[1..], rest);
    }
  }

  /** The second of the words of a text, whatever white space stands before and between them. */
  lemma SecondWordText(before: seq<Scalar>, first: seq<Scalar>, gap: seq<Scalar>, second: seq<Scalar>, rest: seq<Scalar>)
    requires AllWhite(before) && AllWhite(gap) && NoWhite(first) && NoWhite(second)
    requires |first| > 0 && |gap| > 0 && |second| > 0 && (|rest| > 0 ==> White(rest[0]))
    ensures SecondWord(Text(before + (first + (gap + (second + rest))))) == Text(second)
  {
    TrimStartText(before, first + (gap + (second + rest)));
    WordText(first, gap + (second + rest));
    TextConcat(first, gap + (second + rest));
    assert (Text(first) + Text(gap + (second + rest)))[|Text(first)|..] == Text(gap + (second + rest));
    TrimStartText(gap, second + rest);
    WordText(second, rest);
  }

  // ----- numbers ----------------------------------------------------------------------------

  /** The number that some digits are, 0 for none. */
  function Decimal(s: seq<byte>): Option<nat> {
    if |s| == 0 then Some(0) else
    var init, d := Decimal(s[..|s| - 1]), s[|s| - 1];
    if init == None || !(48 <= d <= 57) then None else Some(init.value * 10 + (d - 48))
  }

  /** An unsigned number as the source's `parse` reads it: an optional `+`, digits, and no overflow. */
  function ParseUsize(s: seq<byte>): Option<nat> {
    var digits := if |s| > 0 && s[0] == 43 then s[1..] else s;
    if |digits| == 0 then None
    else match Decimal(digits) case None => None case Some(n) => if n < WRAP then Some(n) else None
  }

  /** A number in decimal, without leading zeros. */
  function Printed(n: nat): (s: seq<byte>)
    ensures |s| > 0
  {
    if n < 10 then [48 + n] else Printed(n / 10) + [48 + n % 10]
  }

  function ZeroDigits(n: nat): (s: seq<byte>)
    ensures |s| == n
  {
    if n == 0 then [] else ZeroDigits(n - 1) + [48]
  }

  lemma LastDigit(init: seq<byte>, d: byte)
    requires 48 <= d <= 57
    ensures Decimal(init + [d]) == match Decimal(init) case None => None case Some(n) => Some(n * 10 + (d - 48))
  {
    assert (init + [d])[..|init + [d]| - 1] == init;
  }

  lemma {:induction false} ZerosAreNothing(z: nat)
    ensures Decimal(ZeroDigits(z)) == Some(0)
  {
    if z > 0 {
      ZerosAreNothing(z - 1);
      LastDigit(ZeroDigits(z - 1), 48);
    }
  }

  lemma {:induction false} PrintedReads(z: nat, n: nat)
    ensures Decimal(ZeroDigits(z) + Printed(n)) == Some(n)
    decreases n
  {
    if n < 10 {
      ZerosAreNothing(z);
      LastDigit(ZeroDigits(z), 48 + n);
    } else {
      PrintedReads(z, n / 10);
      LastDigit(ZeroDigits(z) + Printed(n / 10), 48 + n % 10);
      Regroup(ZeroDigits(z), Printed(n / 10), [48 + n % 10]);
    }
  }

  lemma {:induction false} ReadsPrinted(d: seq<byte>, n: nat) returns (z: nat)
    requires |d| > 0 && Decimal(d) == Some(n)
    ensures d == ZeroDigits(z) + Printed(n)
    decreases |d|
  {
    var init, last := d[..|d| - 1], d[|d| - 1];
    if |init| == 0 {
      z := 0;
    } else {
      var m := Decimal(init).value;
      var y := ReadsPrinted(init, m);
      NextDigit(y, m, last - 48);
      z := if m == 0 then y + 1 else y;
    }
    assert d == init + [last];
  }

  lemma NextDigit(z: nat, m: nat, d: nat)
    requires d < 10
    ensures ZeroDigits(z) + Printed(m) + [48 + d] == ZeroDigits(if m == 0 then z + 1 else z) + Printed(m * 10 + d)
  {
    if m > 0 {
      assert (m * 10 + d) / 10 == m && (m * 10 + d) % 10 == d;
      Regroup(ZeroDigits(z), Printed(m), [48 + d]);
    }
  }

  /** The digits of `n`, with any zeros before them. */
  ghost predicate Numeral(d: seq<byte>, n: nat) {
    exists z: nat :: d == ZeroDigits(z) + Printed(n)
  }

  lemma {:induction false} DecimalDigits(d: seq<byte>)
    requires Decimal(d).Some?
    ensures AllDigits(d)
  {
    if |d| > 0 {
      DecimalDigits(d[..|d| - 1]);
    }
  }

  lemma NumeralExactlyWhen(d: seq<byte>, n: nat)
    ensures Numeral(d, n) <==> |d| > 0 && Decimal(d) == Some(n)
    ensures Numeral(d, n) ==> |d| > 0 && d[0] != 43
  {
    if |d| > 0 && Decimal(d) == Some(n) {
      var z := ReadsPrinted(d, n);
    }
    if z: nat :| d == ZeroDigits(z) + Printed(n) {
      PrintedReads(z, n);
      DecimalDigits(d);
    }
  }

  /** A number is read from its digits, with zeros and one `+` before them or without, if 64 bits hold it. */
  lemma ReadExactlyWhen(s: seq<byte>, n: nat)
    ensures ParseUsize(s) == Some(n)
       <==> n < 0x1_0000_0000_0000_0000 && |s| > 0 && Numeral(if s[0] == 43 then s[1..] else s, n)
  {
    if |s| > 0 {
      NumeralExactlyWhen(if s[0] == 43 then s[1..] else s, n);
    }
  }
}
