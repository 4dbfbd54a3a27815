/**
 What src/router.rs and src/api.rs know of HTTP: where a request head ends, its
 lines, and the pieces of text they take from it, all over bytes.
 */
module Http {
  import opened Bytes

  const LF: byte := 10
  const CR: byte := 13
  const CRLF: seq<byte> := [13, 10]
  const BLANK: seq<byte> := [13, 10, 13, 10]

  // ----- the head's end ---------------------------------------------------------------

  /** One past the first CR LF CR LF. */
  function FindHeadEnd(s: seq<byte>): (end: Option<nat>)
    ensures end.Some? ==> 4 <= end.value <= |s|
  {
    if |s| < 4 then None
    else if s[..4] == BLANK then Some(4)
    else Later(1, FindHeadEnd(s[1..]))
  }

  function Later(n: nat, end: Option<nat>): Option<nat> {
    match end
    case None => None
    case Some(e) => Some(e + n)
  }

  /** What is found in some bytes is found in more, at the same place, and nothing else is. */
  lemma {:induction false} HeadEndPrefix(a: seq<byte>, b: seq<byte>)
    ensures FindHeadEnd(a).Some? ==> FindHeadEnd(a + b) == FindHeadEnd(a)
    ensures FindHeadEnd(a) == None && FindHeadEnd(a + b).Some? ==> FindHeadEnd(a + b).value > |a|
  {
    if |a| >= 4 {
      assert (a + b)[..4] == a[..4];
      assert (a + b)[1..] == a[1..] + b;
      HeadEndPrefix(a[1..], b);
    }
  }

  // ----- lines ------------------------------------------------------------------------

  /** Where the first LF is, or the length. */
  function FirstLf(s: seq<byte>): (k: nat)
    ensures k <= |s| && LF !in s[..k]
    ensures k < |s| ==> s[k] == LF
  {
    if |s| == 0 || s[0] == LF then 0
    else
      var k := FirstLf(s[1..]);
      assert s[..k + 1] == [s[0]] + s[1..][..k];
      k + 1
  }

  /** The lines, each with its LF; what follows the last LF, if anything, is one too. */
  function Lines(s: seq<byte>): seq<seq<byte>>
    decreases |s|
  {
    if |s| == 0 then [] else
    var k := FirstLf(s);
    if k == |s| then [s] else [s[..k + 1]] + Lines(s[k + 1..])
  }

  /** What stands between the LFs, before the first and after the last. */
  function Pieces(s: seq<byte>): (p: seq<seq<byte>>)
    ensures |p| > 0
    decreases |s|
  {
    var k := FirstLf(s);
    if k == |s| then [s] else [s[..k]] + Pieces(s[k + 1..])
  }

  function Join(lines: seq<seq<byte>>): seq<byte> {
    if |lines| == 0 then [] else lines[0] + Join(lines[1..])
  }

  /** A line with its LF. */
  predicate IsLine(l: seq<byte>) {
    |l| > 0 && l[|l| - 1] == LF && LF !in l[..|l| - 1]
  }

  predicate AllLines(lines: seq<seq<byte>>) {
    forall l :: l in lines ==> IsLine(l)
  }

  function Bare(l: seq<byte>): seq<byte>
    requires IsLine(l)
  {
    l[..|l| - 1]
  }

  lemma {:induction false} FirstLfAt(s: seq<byte>, k: nat)
    requires k < |s| && s[k] == LF && LF !in s[..k]
    ensures FirstLf(s) == k
  {
    if k > 0 {
      assert s[0] == s[..k][0];
      assert s[1..][..k - 1] == s[..k][1..];
      FirstLfAt(s[1..], k - 1);
    }
  }

  lemma FirstLfOfLine(l: seq<byte>, rest: seq<byte>)
    requires IsLine(l)
    ensures FirstLf(l + rest) == |l| - 1
  {
    assert (l + rest)[..|l| - 1] == l[..|l| - 1];
    FirstLfAt(l + rest, |l| - 1);
  }

  lemma {:induction false} LinesOfJoin(lines: seq<seq<byte>>)
    requires AllLines(lines)
    ensures Lines(Join(lines)) == lines
  {
    if |lines| > 0 {
      var l, rest := lines[0], Join(lines[1..]);
      FirstLfOfLine(l, rest);
      assert (l + rest)[..|l|] == l && (l + rest)[|l|..] == rest;
      LinesOfJoin(lines[1..]);
    }
  }

  lemma LinesStep(s: seq<byte>)
    requires FirstLf(s) < |s|
    ensures var l, rest := s[..FirstLf(s) + 1], s[FirstLf(s) + 1..];
      IsLine(l) && s == l + rest && Lines(s) == [l] + Lines(rest)
  {
    var k := FirstLf(s);
    var l, rest := s[..k + 1], s[k + 1..];
    assert l[..|l| - 1] == s[..k] && l[|l| - 1] == s[k];
    assert s == l + rest;
    assert Lines(s) == [l] + Lines(rest);
  }

  lemma JoinStep(l: seq<byte>, lines: seq<seq<byte>>)
    ensures Join([l] + lines) == l + Join(lines)
  {
    assert ([l] + lines)[1..] == lines;
  }

  lemma {:induction false} JoinOfLines(s: seq<byte>)
    ensures Join(Lines(s)) == s
    ensures |s| > 0 && s[|s| - 1] == LF ==> AllLines(Lines(s)) && |Lines(s)| > 0
    decreases |s|
  {
    if |s| > 0 {
      var k := FirstLf(s);
      if k == |s| {
        JoinStep(s, []);
        assert [s] + [] == [s] && LF !in s[..k] && s[..k] == s;
      } else {
        var rest := s[k + 1..];
        LinesStep(s);
        JoinOfLines(rest);
        JoinStep(s[..k + 1], Lines(rest));
      }
    }
  }

  /** The first piece of some lines is the first of them, without its LF. */
  lemma PiecesOfLines(lines: seq<seq<byte>>)
    requires AllLines(lines) && |lines| > 0
    ensures Pieces(Join(lines)) == [Bare(lines[0])] + Pieces(Join(lines[1..]))
  {
    var l, rest := lines[0], Join(lines[1..]);
    FirstLfOfLine(l, rest);
    assert (l + rest)[..|l| - 1] == Bare(l) && (l + rest)[|l|..] == rest;
  }

  // ----- where lines end a head ------------------------------------------------------

  predicate EndsCrlf(l: seq<byte>) {
    |l| >= 2 && l[|l| - 2..] == CRLF
  }

  lemma {:induction false} LineTail(l: seq<byte>)
    requires IsLine(l) && |l| >= 2
    ensures l[0] != LF && IsLine(l[1..])
    ensures |l| > 2 ==> l[1] != LF && (EndsCrlf(l[1..]) <==> EndsCrlf(l))
  {
    var body, t := l[..|l| - 1], l[1..];
    assert body[0] == l[0] && t[..|t| - 1] == body[1..];
    if |l| > 2 {
      assert body[1] == l[1];
      assert t[|t| - 2..] == l[|l| - 2..];
    }
  }

  /** The search, one byte on. */
  lemma SearchStep(s: seq<byte>)
    requires |s| > 0
    ensures FindHeadEnd(s) == if |s| >= 4 && s[..4] == BLANK then Some(4) else Later(1, FindHeadEnd(s[1..]))
  {
    if |s| < 4 {
      assert FindHeadEnd(s[1..]) == None;
    }
  }

  lemma NotBlankHere(s: seq<byte>)
    requires |s| > 0 && (s[0] != CR || (|s| > 1 && s[1] != LF))
    ensures FindHeadEnd(s) == Later(1, FindHeadEnd(s[1..]))
  {
    SearchStep(s);
    assert |s| >= 4 ==> s[..4][0] == s[0] && s[..4][1] == s[1];
  }

  /** Behind a line, the head ends there if a blank line follows CR LF, and else where it ends in the rest. */
  lemma {:induction false} HeadEndBehind(l: seq<byte>, rest: seq<byte>)
    requires IsLine(l)
    ensures FindHeadEnd(l + rest) == if EndsCrlf(l) && StartsBlank(rest) then Some(|l| + 2) else Later(|l|, FindHeadEnd(rest))
    decreases |l|
  {
    var s := l + rest;
    if |l| == 1 {
      assert s[1..] == rest;
      NotBlankHere(s);
    } else if |l| == 2 {
      TwoByteLine(l, rest);
    } else {
      LineTail(l);
      LongLine(l, rest);
      HeadEndBehind(l[1..], rest);
    }
  }

  lemma LongLine(l: seq<byte>, rest: seq<byte>)
    requires IsLine(l) && |l| > 2
    ensures FindHeadEnd(l + rest) == Later(1, FindHeadEnd(l[1..] + rest))
  {
    var s := l + rest;
    LineTail(l);
    assert s[1..] == l[1..] + rest && s[1] == l[1];
    NotBlankHere(s);
  }

  predicate StartsBlank(s: seq<byte>) {
    |s| >= 2 && s[..2] == CRLF
  }

  lemma TwoByteLine(l: seq<byte>, rest: seq<byte>)
    requires IsLine(l) && |l| == 2
    ensures FindHeadEnd(l + rest) == if EndsCrlf(l) && StartsBlank(rest) then Some(|l| + 2) else Later(|l|, FindHeadEnd(rest))
  {
    var s := l + rest;
    var t := [LF] + rest;
    assert l == [l[0], LF] && s[1..] == t && t[1..] == rest;
    NotBlankHere(t);
    SearchStep(s);
    BlankHere(l, rest);
  }

  lemma BlankHere(l: seq<byte>, rest: seq<byte>)
    requires IsLine(l) && |l| == 2
    ensures |l + rest| >= 4 && (l + rest)[..4] == BLANK <==> EndsCrlf(l) && StartsBlank(rest)
  {
    assert l[0..] == l;
    if |rest| >= 2 {
      assert (l + rest)[..4] == l + rest[..2];
      assert BLANK == CRLF + CRLF;
      assert (l + rest)[..4] == BLANK ==> l == BLANK[..2] == CRLF && rest[..2] == BLANK[2..] == CRLF;
    }
  }

  /** The blank line ends the lines: the last one, behind CR LF, and no one before. */
  predicate BlankOnlyLast(prev: seq<byte>, lines: seq<seq<byte>>)
    decreases |lines|
  {
    |lines| > 0 &&
    var ends := lines[0] == CRLF && EndsCrlf(prev);
    if |lines| == 1 then ends else !ends && BlankOnlyLast(lines[0], lines[1..])
  }

  /** Behind `prev` and in front of `more`, the line `l` ends the head or it does not. */
  lemma AtLine(prev: seq<byte>, l: seq<byte>, more: seq<byte>)
    requires IsLine(prev) && IsLine(l)
    ensures FindHeadEnd(prev + (l + more))
         == if l == CRLF && EndsCrlf(prev) then Some(|prev| + |l|) else Later(|prev|, FindHeadEnd(l + more))
  {
    HeadEndBehind(prev, l + more);
    BlankAhead(l, more);
  }

  lemma NotByItself(l: seq<byte>, more: seq<byte>)
    requires IsLine(l)
    ensures FindHeadEnd(l + more) != Some(|l|)
  {
    HeadEndBehind(l, more);
  }

  lemma {:induction false} HeadEndsLast(prev: seq<byte>, lines: seq<seq<byte>>, tail: seq<byte>)
    requires IsLine(prev) && AllLines(lines) && |lines| > 0
    ensures FindHeadEnd(prev + (Join(lines) + tail)) == Some(|prev| + |Join(lines)|) <==> BlankOnlyLast(prev, lines)
    decreases |lines|
  {
    var l, rest := lines[0], lines[1..];
    assert Join(lines) + tail == l + (Join(rest) + tail);
    AtLine(prev, l, Join(rest) + tail);
    if |lines| > 1 {
      HeadEndsLast(l, rest, tail);
      SomeBytes(rest);
    } else {
      NotByItself(l, Join(rest) + tail);
    }
  }

  lemma SomeBytes(lines: seq<seq<byte>>)
    requires AllLines(lines) && |lines| > 0
    ensures |Join(lines)| > 0
  {
    assert IsLine(lines[0]);
  }

  /** What starts with CR LF after a line starts with a blank line. */
  lemma BlankAhead(l: seq<byte>, more: seq<byte>)
    requires IsLine(l)
    ensures StartsBlank(l + more) <==> l == CRLF
  {
    if l == CRLF {
      assert (l + more)[..2] == l;
    }
    if StartsBlank(l + more) {
      OnlyBlankStarts(l, more);
    }
  }

  lemma OnlyBlankStarts(l: seq<byte>, more: seq<byte>)
    requires IsLine(l) && StartsBlank(l + more)
    ensures l == CRLF
  {
    var s := l + more;
    assert s[0] == s[..2][0] == CR && s[1] == s[..2][1] == LF;
    assert FirstLf(s) == 1 by {
      assert s[..1] == [CR];
      FirstLfAt(s, 1);
    }
    FirstLfOfLine(l, more);
    assert l == [s[0], s[1]];
  }

  // ----- text -------------------------------------------------------------------------

  /** How many bytes the UTF-8 sequence at the start has, 0 if there is none. */
  function Utf8Len(s: seq<byte>): (n: nat)
    ensures n <= |s|
  {
    if |s| >= 1 && s[0] < 0x80 then 1
    else if |s| >= 2 && 0xc2 <= s[0] <= 0xdf && Continues(s[1]) then 2
    else if |s| >= 3 && 0xe0 <= s[0] <= 0xef && Continues(s[1]) && Continues(s[2])
      && (s[0] == 0xe0 ==> s[1] >= 0xa0) && (s[0] == 0xed ==> s[1] < 0xa0) then 3
    else if |s| >= 4 && 0xf0 <= s[0] <= 0xf4 && Continues(s[1]) && Continues(s[2]) && Continues(s[3])
      && (s[0] == 0xf0 ==> s[1] >= 0x90) && (s[0] == 0xf4 ==> s[1] < 0x90) then 4
    else 0
  }

  predicate Continues(b: byte) {
    0x80 <= b < 0xc0
  }

  predicate ValidUtf8(s: seq<byte>)
    decreases |s|
  {
    |s| == 0 || (Utf8Len(s) > 0 && ValidUtf8(s[Utf8Len(s)..]))
  }

  lemma {:induction false} AsciiValid(s: seq<byte>)
    requires forall k :: 0 <= k < |s| ==> s[k] < 0x80
    ensures ValidUtf8(s)
  {
    if |s| > 0 {
      AsciiValid(s[1..]);
    }
  }

  /** How many bytes the white-space character at the start has, 0 if there is none. */
  function WhiteLen(s: seq<byte>): (n: nat)
    ensures n <= |s|
  {
    if |s| >= 1 && (9 <= s[0] <= 13 || s[0] == 32) then 1
    else if |s| >= 2 && s[0] == 0xc2 && (s[1] == 0x85 || s[1] == 0xa0) then 2
    else if |s| >= 3 && White3(s[0], s[1], s[2]) then 3
    else 0
  }

  /** The white space of three bytes: U+1680, U+2000 to 200A, 2028, 2029, 202F, 205F and 3000. */
  predicate White3(a: byte, b: byte, c: byte) {
    || (a == 0xe1 && b == 0x9a && c == 0x80)
    || (a == 0xe2 && b == 0x80 && (0x80 <= c <= 0x8a || c == 0xa8 || c == 0xa9 || c == 0xaf))
    || (a == 0xe2 && b == 0x81 && c == 0x9f)
    || (a == 0xe3 && b == 0x80 && c == 0x80)
  }

  function TrimStart(s: seq<byte>): (t: seq<byte>)
    ensures |t| <= |s|
    decreases |s|
  {
    if WhiteLen(s) == 0 then s else TrimStart(s[WhiteLen(s)..])
  }

  /** The last `n` bytes are a white-space character. */
  predicate EndsWhite(s: seq<byte>, n: nat) {
    n <= |s| && WhiteLen(s[|s| - n..]) == n
  }

  /** How many bytes the white-space character at the end has. */
  function WhiteAtEnd(s: seq<byte>): (n: nat)
    ensures n <= |s|
  {
    if EndsWhite(s, 1) then 1 else if EndsWhite(s, 2) then 2 else if EndsWhite(s, 3) then 3 else 0
  }

  function TrimEnd(s: seq<byte>): (t: seq<byte>)
    ensures |t| <= |s| && t == s[..|t|]
    decreases |s|
  {
    if WhiteAtEnd(s) == 0 then s else TrimEnd(s[..|s| - WhiteAtEnd(s)])
  }

  /** White space has no printable ASCII byte in it. */
  lemma WhiteBytes(t: seq<byte>)
    requires WhiteLen(t) == |t| > 0
    ensures forall b :: b in t ==> b <= 32 || b >= 0x80
  {
    if |t| == 1 {
      assert t == [t[0]];
    } else if |t| == 2 {
      assert t == [t[0], t[1]];
    } else {
      assert t == [t[0], t[1], t[2]];
    }
  }

  /** White space at the end comes after any printable ASCII byte. */
  lemma WhiteAfter(s: seq<byte>, i: nat)
    requires i < |s| && 32 < s[i] < 0x80
    ensures i < |s| - WhiteAtEnd(s)
  {
    var n := WhiteAtEnd(s);
    if n > 0 {
      var t := s[|s| - n..];
      assert EndsWhite(s, n);
      WhiteBytes(t);
      forall j | |s| - n <= j < |s|
        ensures s[j] <= 32 || s[j] >= 0x80
      {
        assert s[j] == t[j - (|s| - n)] && s[j] in t;
      }
    }
  }

  lemma NothingToTrim(s: seq<byte>)
    requires WhiteAtEnd(s) == 0
    ensures TrimEnd(s) == s
  {
  }

  function Trim(s: seq<byte>): seq<byte> {
    TrimEnd(TrimStart(s))
  }

  /** What stands before the first `sep`, all of it if there is none. */
  function UpTo(s: seq<byte>, sep: byte): (t: seq<byte>)
    ensures |t| <= |s| && t == s[..|t|] && sep !in t
    ensures |t| < |s| ==> s[|t|] == sep
  {
    if |s| == 0 || s[0] == sep then []
    else
      var t := UpTo(s[1..], sep);
      assert [s[0]] + t == s[..|t| + 1];
      [s[0]] + t
  }

  lemma {:induction false} UpToAt(s: seq<byte>, sep: byte, rest: seq<byte>)
    requires sep !in s
    ensures UpTo(s + ([sep] + rest), sep) == s && UpTo(s, sep) == s
  {
    if |s| > 0 {
      assert (s + ([sep] + rest))[1..] == s[1..] + ([sep] + rest);
      UpToAt(s[1..], sep, rest);
    } else {
      assert s + ([sep] + rest) == [sep] + rest;
    }
  }

  /** The two sides of the first `sep`. */
  function SplitOnce(s: seq<byte>, sep: byte): Option<(seq<byte>, seq<byte>)> {
    var t := UpTo(s, sep);
    if |t| == |s| then None else Some((t, s[|t| + 1..]))
  }

  lemma SplitAtFirst(s: seq<byte>, sep: byte, rest: seq<byte>)
    requires sep !in s
    ensures SplitOnce(s + ([sep] + rest), sep) == Some((s, rest))
  {
    UpToAt(s, sep, rest);
    assert (s + ([sep] + rest))[|s| + 1..] == rest;
  }

  function LowerByte(b: byte): byte {
    if 65 <= b <= 90 then b + 32 else b
  }

  function Lowered(s: seq<byte>): (t: seq<byte>)
    ensures |t| == |s|
    ensures forall k :: 0 <= k < |s| ==> t[k] == LowerByte(s[k])
  {
    seq(|s|, k requires 0 <= k < |s| => LowerByte(s[k]))
  }

  /** The same but for ASCII letter case. */
  predicate SameName(a: seq<byte>, b: seq<byte>) {
    Lowered(a) == Lowered(b)
  }

  /** Visible ASCII. */
  predicate Visible(s: seq<byte>) {
    forall k :: 0 <= k < |s| ==> 32 < s[k] < 0x7f
  }

  predicate AllDigits(s: seq<byte>) {
    forall k :: 0 <= k < |s| ==> 48 <= s[k] <= 57
  }

  predicate AsciiWhite(s: seq<byte>) {
    forall k :: 0 <= k < |s| ==> 9 <= s[k] <= 13 || s[k] == 32
  }

  lemma {:induction false} TrimStartSkips(white: seq<byte>, s: seq<byte>)
    requires AsciiWhite(white) && |s| > 0 && 32 < s[0] < 0x7f
    ensures TrimStart(white + s) == s
  {
    if |white| > 0 {
      assert (white + s)[1..] == white[1..] + s;
      TrimStartSkips(white[1..], s);
    } else {
      assert white + s == s && WhiteLen(s) == 0;
    }
  }

  lemma OneWhiteAtEnd(s: seq<byte>)
    requires |s| > 0 && (9 <= s[|s| - 1] <= 13 || s[|s| - 1] == 32)
    ensures WhiteAtEnd(s) == 1
  {
    assert s[|s| - 1..][0] == s[|s| - 1];
  }

  lemma TrimEndStep(s: seq<byte>, n: nat)
    requires WhiteAtEnd(s) == n > 0
    ensures TrimEnd(s) == TrimEnd(s[..|s| - n])
  {
  }

  lemma {:induction false} TrimEndSkips(s: seq<byte>, white: seq<byte>)
    requires AsciiWhite(white) && |s| > 0 && 32 < s[|s| - 1] < 0x7f
    ensures TrimEnd(s + white) == s
  {
    var t, n := s + white, |white| - 1;
    if |white| > 0 {
      OneWhiteAtEnd(t);
      TrimEndStep(t, 1);
      assert t[..|t| - 1] == s + white[..n];
      TrimEndSkips(s, white[..n]);
    } else {
      assert t == s;
      WhiteAfter(s, |s| - 1);
      NothingToTrim(s);
    }
  }

  /** Trimming takes the white space from both ends. */
  lemma TrimBetween(before: seq<byte>, s: seq<byte>, after: seq<byte>)
    requires AsciiWhite(before) && AsciiWhite(after)
    requires |s| > 0 && 32 < s[0] < 0x7f && 32 < s[|s| - 1] < 0x7f
    ensures Trim(before + s + after) == s
  {
    assert before + s + after == before + (s + after);
    TrimStartSkips(before, s + after);
    TrimEndSkips(s, after);
  }

  /** Up to the first white space. */
  function Word(s: seq<byte>): (w: seq<byte>)
    ensures |w| <= |s|
  {
    if |s| == 0 || WhiteLen(s) > 0 then [] else [s[0]] + Word(s[1..])
  }

  /** The second of the words between white space, empty if there is none. */
  function SecondWord(s: seq<byte>): seq<byte> {
    var t := TrimStart(s);
    Word(TrimStart(t[|Word(t)|..]))
  }

  lemma {:induction false} WordAt(s: seq<byte>, rest: seq<byte>)
    requires Visible(s)
    ensures Word(s + ([32] + rest)) == s
  {
    var t := s + ([32] + rest);
    if |s| > 0 {
      assert WhiteLen(t) == 0;
      assert t[1..] == s[1..] + ([32] + rest);
      WordAt(s[1..], rest);
    } else {
      assert t == [32] + rest;
    }
  }

  /** The second word of three, one space between them. */
  lemma SecondWordRead(first: seq<byte>, second: seq<byte>, rest: seq<byte>)
    requires |first| > 0 && |second| > 0 && Visible(first) && Visible(second)
    ensures SecondWord(first + ([32] + (second + ([32] + rest)))) == second
  {
    var later := second + ([32] + rest);
    var s := first + ([32] + later);
    assert s[0] == first[0] && later[0] == second[0];
    TrimStartSkips([], s);
    assert [] + s == s;
    WordAt(first, later);
    assert s[|first|..] == [32] + later;
    TrimStartSkips([32], later);
    WordAt(second, rest);
  }
}
