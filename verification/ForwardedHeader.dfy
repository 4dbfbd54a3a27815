/**
 The request head that src/router.rs sends on for a client that came in over
 TLS: one `X-Forwarded-Proto: https` line after the request line, any such line
 of the client's dropped. Proved: what it keeps, that routing sees no
 difference, and exactly when the head still ends where it did.
 */
module ForwardedHeader {
  import opened Bytes
  import opened Http
  import opened HeaderText

  /** `X-Forwarded-Proto: https` and CR LF. */
  const PROTO: seq<byte> :=
    [88, 45, 70, 111, 114, 119, 97, 114, 100, 101, 100, 45, 80, 114, 111, 116, 111, 58, 32, 104, 116, 116, 112, 115, 13, 10]

  /** `x-forwarded-proto` */
  const PROTO_NAME: seq<byte> :=
    [120, 45, 102, 111, 114, 119, 97, 114, 100, 101, 100, 45, 112, 114, 111, 116, 111]

  /** `host` */
  const HOST: seq<byte> := [104, 111, 115, 116]

  // ----- the rewriting ----------------------------------------------------------------

  /** The line claims a scheme. */
  predicate Claims(line: seq<byte>) {
    SameName(UpTo(line, 58), PROTO_NAME)
  }

  /** The lines that are not to be dropped. */
  function Keep(drop: seq<byte> -> bool, lines: seq<seq<byte>>): seq<seq<byte>> {
    if |lines| == 0 then []
    else if drop(lines[0]) then Keep(drop, lines[1..])
    else [lines[0]] + Keep(drop, lines[1..])
  }

  /** The lines of the new head from those of the old: `line` after the first, and all others that are not to be dropped. */
  function Rewritten(line: seq<byte>, drop: seq<byte> -> bool, lines: seq<seq<byte>>): seq<seq<byte>> {
    if |lines| == 0 then [line] else [lines[0], line] + Keep(drop, lines[1..])
  }

  function NewLines(head: seq<byte>, end: nat): seq<seq<byte>>
    requires end <= |head|
  {
    Rewritten(PROTO, Claims, Lines(head[..end]))
  }

  function Forwarded(head: seq<byte>, end: nat): seq<byte>
    requires end <= |head|
  {
    Join(NewLines(head, end)) + head[end..]
  }

  /** Where the new head ends: what follows it is what followed the old one. */
  function NewEnd(head: seq<byte>, end: nat): nat
    requires end <= |head|
  {
    |Join(NewLines(head, end))|
  }

  lemma {:induction false} JoinConcat(a: seq<seq<byte>>, b: seq<seq<byte>>)
    ensures Join(a + b) == Join(a) + Join(b)
  {
    if |a| == 0 {
      assert a + b == b;
    } else {
      assert (a + b)[1..] == a[1..] + b;
      JoinConcat(a[1..], b);
    }
  }

  lemma JoinOne(a: seq<byte>)
    ensures Join([a]) == a
  {
    assert [a][1..] == [] && a + [] == a;
  }

  lemma {:induction false} KeepConcat(drop: seq<byte> -> bool, a: seq<seq<byte>>, b: seq<seq<byte>>)
    ensures Keep(drop, a + b) == Keep(drop, a) + Keep(drop, b)
  {
    if |a| == 0 {
      assert a + b == b;
    } else {
      assert (a + b)[1..] == a[1..] + b;
      KeepConcat(drop, a[1..], b);
    }
  }

  lemma KeepOne(drop: seq<byte> -> bool, l: seq<byte>)
    ensures Keep(drop, [l]) == if drop(l) then [] else [l]
  {
    assert [l][1..] == [];
  }

  /** One more line looked at by the loop. */
  lemma KeepNext(line: seq<byte>, drop: seq<byte> -> bool, lines: seq<seq<byte>>, i: nat)
    requires 1 <= i < |lines|
    ensures Join(Rewritten(line, drop, lines[..i + 1]))
         == Join(Rewritten(line, drop, lines[..i])) + if drop(lines[i]) then [] else lines[i]
  {
    var l := lines[i];
    assert lines[..i + 1][1..] == lines[..i][1..] + [l];
    KeepConcat(drop, lines[..i][1..], [l]);
    KeepOne(drop, l);
    var kept := Keep(drop, [l]);
    assert Rewritten(line, drop, lines[..i + 1]) == Rewritten(line, drop, lines[..i]) + kept;
    JoinConcat(Rewritten(line, drop, lines[..i]), kept);
    JoinOne(l);
  }

  lemma RewrittenStart(line: seq<byte>, drop: seq<byte> -> bool, lines: seq<seq<byte>>)
    ensures Join(Rewritten(line, drop, lines[..if |lines| == 0 then 0 else 1])) == (if |lines| == 0 then [] else lines[0]) + line
  {
    JoinOne(line);
    if |lines| > 0 {
      assert [lines[0], line] == [lines[0]] + [line];
      JoinConcat([lines[0]], [line]);
      JoinOne(lines[0]);
      assert Rewritten(line, drop, lines[..1]) == [lines[0], line];
    }
  }

  method ForwardedHttps(head: seq<byte>, end: nat) returns (out: seq<byte>)
    requires end <= |head|
    ensures out == Forwarded(head, end)
  {
    var lines := Lines(head[..end]);
    RewrittenStart(PROTO, Claims, lines);
    out := [];
    if |lines| > 0 {
      out := out + lines[0];
    }
    out := out + PROTO;
    var i := if |lines| == 0 then 0 else 1;
    while i < |lines|
      invariant 0 <= i <= |lines| && (|lines| > 0 ==> i >= 1)
      invariant out == Join(Rewritten(PROTO, Claims, lines[..i]))
    {
      KeepNext(PROTO, Claims, lines, i);
      if !Claims(lines[i]) {
        out := out + lines[i];
      }
      i := i + 1;
    }
    assert lines[..i] == lines;
    out := out + head[end..];
  }

  // ----- what it keeps ----------------------------------------------------------------

  /** What is put in: a line that claims a scheme, of UTF-8 text and ending in CR LF. */
  ghost predicate Fit(line: seq<byte>) {
    IsLine(line) && Claims(line) && EndsCrlf(line) && ValidUtf8(Bare(line))
  }

  lemma ProtoFits()
    ensures Fit(PROTO)
  {
    ProtoText();
    ProtoClaims();
    AsciiValid(Bare(PROTO));
  }

  lemma ProtoText()
    ensures IsLine(PROTO) && EndsCrlf(PROTO) && PROTO != CRLF
    ensures forall k :: 0 <= k < |Bare(PROTO)| ==> Bare(PROTO)[k] < 0x80
  {
    assert forall k :: 0 <= k < 25 ==> PROTO[k] != LF && PROTO[k] < 0x80;
    assert PROTO[24..] == CRLF;
  }

  lemma ProtoClaims()
    ensures Claims(PROTO)
  {
    assert forall k :: 0 <= k < 17 ==> PROTO[k] != 58 && LowerByte(PROTO[k]) == PROTO_NAME[k];
    assert forall k :: 0 <= k < 17 ==> LowerByte(PROTO_NAME[k]) == PROTO_NAME[k];
    NamedLine(PROTO, PROTO_NAME);
  }

  /** The line put in, letter by letter. */
  lemma ProtoIs()
    ensures |PROTO| == 26 && forall k :: 0 <= k < 26 ==> PROTO[k] == "X-Forwarded-Proto: https\r\n"[k] as int
  {
  }

  /** A line claims a scheme if its name is that one, in any letter case. */
  lemma ClaimsExactlyWhen(line: seq<byte>)
    requires IsLine(line)
    ensures Claims(line) <==> Gives(line, "x-forwarded-proto")
  {
    var name := UpTo(line, 58);
    NameSpelled();
    GivesExactlyWhen(line, PROTO_NAME, "x-forwarded-proto");
    NamedExactlyWhen(name, PROTO_NAME, "x-forwarded-proto");
    if Claims(line) {
      ClaimParts(line);
    }
  }

  lemma NameSpelled()
    ensures Spells(PROTO_NAME, "x-forwarded-proto") && Spells(HOST, "host")
  {
  }

  lemma SameLetters(a: seq<byte>, b: seq<byte>)
    requires |a| == |b| && forall k :: 0 <= k < |b| ==> LowerByte(a[k]) == LowerByte(b[k])
    ensures SameName(a, b)
  {
    assert Lowered(a) == Lowered(b);
  }

  /** A line that starts with these letters, of either case, and a colon. */
  lemma NamedLine(line: seq<byte>, name: seq<byte>)
    requires |line| > |name| && line[|name|] == 58 && 58 !in line[..|name|]
    requires forall k :: 0 <= k < |name| ==> LowerByte(line[k]) == LowerByte(name[k])
    ensures SameName(UpTo(line, 58), name)
  {
    var t, rest := line[..|name|], line[|name| + 1..];
    UpToAt(t, 58, rest);
    Parted(line, |name|, 58);
    SameLetters(t, name);
  }

  lemma Parted(s: seq<byte>, k: nat, b: byte)
    requires k < |s| && s[k] == b
    ensures s == s[..k] + ([b] + s[k + 1..])
  {
  }

  lemma {:induction false} KeepLines(drop: seq<byte> -> bool, lines: seq<seq<byte>>)
    requires AllLines(lines)
    ensures AllLines(Keep(drop, lines)) && forall l :: l in Keep(drop, lines) ==> !drop(l)
  {
    if |lines| > 0 {
      KeepLines(drop, lines[1..]);
    }
  }

  lemma {:induction false} KeepKept(drop: seq<byte> -> bool, lines: seq<seq<byte>>)
    requires forall l :: l in lines ==> !drop(l)
    ensures Keep(drop, lines) == lines
  {
    if |lines| > 0 {
      KeepKept(drop, lines[1..]);
    }
  }

  lemma RewrittenLines(line: seq<byte>, drop: seq<byte> -> bool, lines: seq<seq<byte>>)
    requires AllLines(lines) && IsLine(line)
    ensures AllLines(Rewritten(line, drop, lines))
  {
    if |lines| > 0 {
      KeepLines(drop, lines[1..]);
    }
  }

  /** The lines of `s`, the last of them blank. */
  predicate IsHead(lines: seq<seq<byte>>, s: seq<byte>) {
    AllLines(lines) && |lines| >= 2 && Join(lines) == s && lines[|lines| - 1] == CRLF
  }

  /** A head that ends in a blank line is a list of lines. */
  lemma HeadLines(head: seq<byte>, end: nat)
    requires FindHeadEnd(head) == Some(end)
    ensures IsHead(Lines(head[..end]), head[..end])
  {
    EndsBlank(head, end);
    BlankLast(head[..end]);
  }

  predicate EndsInBlank(s: seq<byte>) {
    |s| >= 4 && s[|s| - 4] == CR && s[|s| - 3] == LF && s[|s| - 2] == CR && s[|s| - 1] == LF
  }

  lemma BlankLast(s: seq<byte>)
    requires EndsInBlank(s)
    ensures IsHead(Lines(s), s)
  {
    var t := s[..|s| - 2];
    WithoutBlank(s);
    var lines := Lines(t);
    JoinOfLines(t);
    JoinConcat(lines, [CRLF]);
    JoinOne(CRLF);
    LinesOfJoin(lines + [CRLF]);
  }

  lemma WithoutBlank(s: seq<byte>)
    requires EndsInBlank(s)
    ensures var t := s[..|s| - 2]; t[|t| - 1] == LF && s == t + CRLF
  {
  }

  lemma {:induction false} EndsBlank(s: seq<byte>, end: nat)
    requires FindHeadEnd(s) == Some(end)
    ensures EndsInBlank(s[..end])
  {
    SearchStep(s);
    if s[..4] == BLANK {
      assert s[0] == BLANK[0] && s[1] == BLANK[1] && s[2] == BLANK[2] && s[3] == BLANK[3];
    } else {
      EndsBlank(s[1..], end - 1);
    }
  }

  /**
   What the rewriting keeps: the request line first, exactly one line that
   claims a scheme after it, ours; every other line in its order; and every
   byte after the head.
   */
  lemma RewriteKeeps(head: seq<byte>, end: nat)
    requires FindHeadEnd(head) == Some(end)
    ensures var made, end' := Forwarded(head, end), NewEnd(head, end);
      && made[end'..] == head[end..]
      && var had, lines := Lines(head[..end]), Lines(made[..end']);
         && |had| > 0 && lines == [had[0], PROTO] + Keep(Claims, had[1..])
         && (forall i :: 1 <= i < |lines| ==> (Claims(lines[i]) <==> i == 1))
  {
    var had, made := Lines(head[..end]), Join(NewLines(head, end));
    HeadLines(head, end);
    ProtoFits();
    RewrittenLines(PROTO, Claims, had);
    LinesOfJoin(NewLines(head, end));
    SplitBehind(made, head[end..]);
    KeepLines(Claims, had[1..]);
    OneDropped(had[0], PROTO, Claims, Keep(Claims, had[1..]));
  }

  lemma SplitBehind(a: seq<byte>, b: seq<byte>)
    ensures (a + b)[..|a|] == a && (a + b)[|a|..] == b
  {
  }

  lemma OneDropped(first: seq<byte>, line: seq<byte>, drop: seq<byte> -> bool, kept: seq<seq<byte>>)
    requires drop(line) && forall l :: l in kept ==> !drop(l)
    ensures var lines := [first, line] + kept;
      forall i :: 1 <= i < |lines| ==> (drop(lines[i]) <==> i == 1)
  {
  }

  /** Rewriting what was rewritten changes nothing. */
  lemma Idempotent(head: seq<byte>, end: nat)
    requires FindHeadEnd(head) == Some(end)
    ensures Forwarded(Forwarded(head, end), NewEnd(head, end)) == Forwarded(head, end)
  {
    var had, made := Lines(head[..end]), Join(NewLines(head, end));
    HeadLines(head, end);
    ProtoFits();
    RewrittenLines(PROTO, Claims, had);
    LinesOfJoin(NewLines(head, end));
    SplitBehind(made, head[end..]);
    RewrittenTwice(PROTO, Claims, had);
  }

  lemma RewrittenTwice(line: seq<byte>, drop: seq<byte> -> bool, lines: seq<seq<byte>>)
    requires AllLines(lines) && |lines| > 0 && drop(line)
    ensures Rewritten(line, drop, Rewritten(line, drop, lines)) == Rewritten(line, drop, lines)
  {
    var once := Rewritten(line, drop, lines);
    KeepLines(drop, lines[1..]);
    KeepKept(drop, Keep(drop, lines[1..]));
    assert once[1..] == [line] + Keep(drop, lines[1..]);
    KeepConcat(drop, [line], Keep(drop, lines[1..]));
    KeepOne(drop, line);
  }

  // ----- where the head ends ------------------------------------------------------------

  /** The same of the new head, seen in the old one's lines: `prev` is the line that will stand before them. */
  predicate BlankStaysLast(prev: seq<byte>, drop: seq<byte> -> bool, lines: seq<seq<byte>>)
    decreases |lines|
  {
    |lines| > 0 &&
    if drop(lines[0]) then BlankStaysLast(prev, drop, lines[1..])
    else
      var ends := lines[0] == CRLF && EndsCrlf(prev);
      if |lines| == 1 then ends else !ends && BlankStaysLast(lines[0], drop, lines[1..])
  }

  lemma {:induction false} StaysLastMeans(prev: seq<byte>, drop: seq<byte> -> bool, lines: seq<seq<byte>>)
    requires |lines| > 0 && !drop(lines[|lines| - 1])
    ensures BlankStaysLast(prev, drop, lines) <==> BlankOnlyLast(prev, Keep(drop, lines))
    ensures |Keep(drop, lines)| > 0
    decreases |lines|
  {
    if |lines| > 1 {
      StaysLastMeans(if drop(lines[0]) then prev else lines[0], drop, lines[1..]);
      assert !drop(lines[0]) ==> Keep(drop, lines)[0] == lines[0] && Keep(drop, lines)[1..] == Keep(drop, lines[1..]);
    } else {
      assert lines == [lines[0]];
      KeepOne(drop, lines[0]);
    }
  }

  lemma RewrittenBytes(line: seq<byte>, drop: seq<byte> -> bool, lines: seq<seq<byte>>, tail: seq<byte>)
    requires |lines| > 0
    ensures var made, kept := Join(Rewritten(line, drop, lines)), Join(Keep(drop, lines[1..]));
      && made + tail == lines[0] + (line + (kept + tail))
      && |made| == |lines[0]| + (|line| + |kept|)
  {
    var kept := Keep(drop, lines[1..]);
    assert Rewritten(line, drop, lines) == [lines[0]] + ([line] + kept);
    JoinConcat([lines[0]], [line] + kept);
    JoinConcat([line], kept);
    JoinOne(line);
    JoinOne(lines[0]);
  }

  /** Behind the first line, a line put in and those kept end the head. */
  lemma PutInEnds(first: seq<byte>, line: seq<byte>, kept: seq<seq<byte>>, tail: seq<byte>)
    requires IsLine(first) && IsLine(line) && line != CRLF && AllLines(kept) && |kept| > 0
    ensures FindHeadEnd(first + (line + (Join(kept) + tail))) == Some(|first| + (|line| + |Join(kept)|)) <==> BlankOnlyLast(line, kept)
  {
    AtLine(first, line, Join(kept) + tail);
    HeadEndsLast(line, kept, tail);
  }

  /** The head's end in the new head, for any line put in and any lines dropped but the last. */
  lemma RewrittenEnd(line: seq<byte>, drop: seq<byte> -> bool, lines: seq<seq<byte>>, tail: seq<byte>)
    requires IsLine(line) && line != CRLF && AllLines(lines) && |lines| >= 2 && !drop(lines[|lines| - 1])
    ensures var made := Join(Rewritten(line, drop, lines));
      FindHeadEnd(made + tail) == Some(|made|) <==> BlankStaysLast(line, drop, lines[1..])
  {
    KeepLines(drop, lines[1..]);
    StaysLastMeans(line, drop, lines[1..]);
    RewrittenBytes(line, drop, lines, tail);
    PutInEnds(lines[0], line, Keep(drop, lines[1..]), tail);
  }

  /**
   The head's end, exactly: the reader of the new head finds its end where the
   old one's was, after the same lines, if and only if taking out the
   scheme-claiming lines and putting ours behind the request line brings no
   blank line behind CR LF too early, nor takes the last one from behind it.
   */
  lemma HeadEndKeptExactlyWhen(head: seq<byte>, end: nat)
    requires FindHeadEnd(head) == Some(end)
    ensures FindHeadEnd(Forwarded(head, end)) == Some(NewEnd(head, end))
       <==> BlankStaysLast(PROTO, Claims, Lines(head[..end])[1..])
  {
    var lines := Lines(head[..end]);
    HeadLines(head, end);
    LastClaimsNothing(lines, head[..end]);
    ProtoText();
    RewrittenEnd(PROTO, Claims, lines, head[end..]);
  }

  /**
   A bare LF can move it: a client's scheme line that ends in one, before a
   blank line, hid that blank line; once it is dropped the head ends there.
   */
  lemma BareLfMovesTheEnd(first: seq<byte>, claim: seq<byte>, last: seq<byte>)
    requires IsLine(first) && IsLine(claim) && IsLine(last)
    requires Claims(claim) && !EndsCrlf(claim) && EndsCrlf(last) && claim != CRLF && last != CRLF
    ensures var lines := [first, claim, CRLF, last, CRLF];
      var end := |Join(lines)|;
      && FindHeadEnd(Join(lines)) == Some(end)
      && FindHeadEnd(Forwarded(Join(lines), end)) != Some(NewEnd(Join(lines), end))
  {
    var lines := [first, claim, CRLF, last, CRLF];
    var head := Join(lines);
    HiddenBlank(first, claim, last);
    assert head[..|head|] == head;
    LinesOfJoin(lines);
    assert lines[1..] == [claim, CRLF, last, CRLF];
    HeadEndKeptExactlyWhen(head, |head|);
    ProtoText();
    BlankClaimsNothing();
    assert [claim, CRLF, last, CRLF][1..] == [CRLF, last, CRLF];
  }

  lemma HiddenBlank(first: seq<byte>, claim: seq<byte>, last: seq<byte>)
    requires IsLine(first) && IsLine(claim) && IsLine(last)
    requires !EndsCrlf(claim) && EndsCrlf(last) && claim != CRLF && last != CRLF
    ensures var head := Join([first, claim, CRLF, last, CRLF]); FindHeadEnd(head) == Some(|head|)
  {
    var rest := [claim, CRLF, last, CRLF];
    assert rest[1..] == [CRLF, last, CRLF] && [CRLF, last, CRLF][1..] == [last, CRLF] && [last, CRLF][1..] == [CRLF];
    assert BlankOnlyLast(CRLF, [last, CRLF]);
    assert BlankOnlyLast(claim, [CRLF, last, CRLF]);
    HeadEndsLast(first, rest, []);
    assert [first, claim, CRLF, last, CRLF][1..] == rest;
    assert Join(rest) + [] == Join(rest);
  }

  lemma LastClaimsNothing(lines: seq<seq<byte>>, s: seq<byte>)
    requires IsHead(lines, s)
    ensures AllLines(lines) && |lines| >= 2 && !Claims(lines[|lines| - 1])
  {
    BlankClaimsNothing();
  }

  lemma BlankClaimsNothing()
    ensures !Claims(CRLF)
  {
    assert |Lowered(UpTo(CRLF, 58))| <= 2 && |Lowered(PROTO_NAME)| == 17;
  }

  /** Where every LF follows a CR, the head's end is kept. */
  lemma CrlfHeadEndKept(head: seq<byte>, end: nat)
    requires FindHeadEnd(head) == Some(end)
    requires forall k :: 0 <= k < end && head[k] == LF ==> k > 0 && head[k - 1] == CR
    ensures FindHeadEnd(Forwarded(head, end)) == Some(NewEnd(head, end))
  {
    var lines := Lines(head[..end]);
    HeadLines(head, end);
    CrlfLines(lines);
    Halves(head, end);
    EndsLast(lines, head[end..]);
    CrlfStays(lines);
    HeadEndKeptExactlyWhen(head, end);
  }

  lemma Halves(s: seq<byte>, n: nat)
    requires n <= |s|
    ensures s == s[..n] + s[n..]
  {
  }

  lemma EndsLast(lines: seq<seq<byte>>, tail: seq<byte>)
    requires AllLines(lines) && |lines| >= 2 && FindHeadEnd(Join(lines) + tail) == Some(|Join(lines)|)
    ensures BlankOnlyLast(lines[0], lines[1..])
  {
    JoinedHead(lines, tail);
    HeadEndsLast(lines[0], lines[1..], tail);
  }

  lemma CrlfStays(lines: seq<seq<byte>>)
    requires |lines| >= 2 && (forall l :: l in lines ==> EndsCrlf(l)) && BlankOnlyLast(lines[0], lines[1..])
    ensures BlankStaysLast(PROTO, Claims, lines[1..])
  {
    ProtoText();
    BlankClaimsNothing();
    SameEnd(lines[0], PROTO, Claims, lines[1..]);
  }

  lemma JoinedHead(lines: seq<seq<byte>>, tail: seq<byte>)
    requires |lines| > 0
    ensures Join(lines) + tail == lines[0] + (Join(lines[1..]) + tail)
    ensures |Join(lines)| == |lines[0]| + |Join(lines[1..])|
  {
    Regroup(lines[0], Join(lines[1..]), tail);
  }

  lemma {:induction false} CrlfLines(lines: seq<seq<byte>>)
    requires AllLines(lines)
    requires var s := Join(lines); forall k :: 0 <= k < |s| && s[k] == LF ==> k > 0 && s[k - 1] == CR
    ensures forall l :: l in lines ==> EndsCrlf(l)
  {
    if |lines| > 0 {
      var l, rest := lines[0], Join(lines[1..]);
      assert Join(lines) == l + rest;
      CrlfLine(l, rest);
      CrlfLines(lines[1..]);
    }
  }

  lemma CrlfLine(l: seq<byte>, rest: seq<byte>)
    requires IsLine(l)
    requires var s := l + rest; forall k :: 0 <= k < |s| && s[k] == LF ==> k > 0 && s[k - 1] == CR
    ensures EndsCrlf(l)
    ensures forall k :: 0 <= k < |rest| && rest[k] == LF ==> k > 0 && rest[k - 1] == CR
  {
    var s := l + rest;
    assert s[|l| - 1] == LF;
    assert s[|l| - 2] == CR;
    forall k | 0 <= k < |rest| && rest[k] == LF
      ensures k > 0 && rest[k - 1] == CR
    {
      assert s[|l| + k] == LF;
      assert s[|l| + k - 1] == CR;
    }
  }

  /** If all lines end in CR LF, the blank line that ends them still does. */
  lemma {:induction false} SameEnd(prev: seq<byte>, prev': seq<byte>, drop: seq<byte> -> bool, lines: seq<seq<byte>>)
    requires EndsCrlf(prev) && EndsCrlf(prev') && forall l :: l in lines ==> EndsCrlf(l)
    requires BlankOnlyLast(prev, lines) && !drop(CRLF)
    ensures BlankStaysLast(prev', drop, lines)
    decreases |lines|
  {
    if |lines| > 1 {
      SameEnd(lines[0], if drop(lines[0]) then prev' else lines[0], drop, lines[1..]);
    }
  }

  // ----- routing -------------------------------------------------------------------------

  /** Without the port, if what follows the last colon is digits. */
  function WithoutPort(v: seq<byte>): seq<byte> {
    var k := LastColon(v);
    if k < |v| && AllDigits(v[k + 1..]) then v[..k] else v
  }

  function LastColon(v: seq<byte>): (k: nat)
    ensures k <= |v|
  {
    LastColonBefore(v, |v|)
  }

  /** The last colon among the first `n`, or the length. */
  function LastColonBefore(v: seq<byte>, n: nat): (k: nat)
    requires n <= |v|
    ensures k <= |v|
  {
    if n == 0 then |v| else if v[n - 1] == 58 then n - 1 else LastColonBefore(v, n - 1)
  }

  /** The value of the first Host header in lines without their LF, if one comes before a blank line and all text up to it is UTF-8. */
  function HostIn(lines: seq<seq<byte>>): Option<seq<byte>> {
    if |lines| == 0 || !ValidUtf8(lines[0]) then None else
    var line := Trim(lines[0]);
    if |line| == 0 then None
    else match SplitOnce(line, 58)
      case Some((k, v)) => if SameName(Trim(k), HOST) then Some(WithoutPort(Lowered(Trim(v)))) else HostIn(lines[1..])
      case None => HostIn(lines[1..])
  }

  function HostOf(head: seq<byte>): Option<seq<byte>> {
    HostIn(Pieces(head)[1..])
  }

  function RequestPath(head: seq<byte>): Option<seq<byte>> {
    var line := Pieces(head)[0];
    if !ValidUtf8(line) || |SecondWord(line)| == 0 then None else Some(UpTo(SecondWord(line), 63))
  }

  function RequestTarget(head: seq<byte>): Option<seq<byte>> {
    var line := Pieces(head)[0];
    if !ValidUtf8(line) || |SecondWord(line)| == 0 || SecondWord(line)[0] != 47 then None else Some(SecondWord(line))
  }

  /** Trimming at the end stops at a visible character. */
  lemma {:induction false} TrimEndKeeps(s: seq<byte>, i: nat)
    requires i < |s| && 32 < s[i] < 0x7f
    ensures |TrimEnd(s)| > i
    decreases |s|
  {
    WhiteAfter(s, i);
    if WhiteAtEnd(s) > 0 {
      TrimEndKeeps(s[..|s| - WhiteAtEnd(s)], i);
    }
  }

  lemma UpToPrefix(s: seq<byte>, t: seq<byte>, sep: byte)
    requires |t| <= |s| && t == s[..|t|] && |UpTo(s, sep)| < |t|
    ensures UpTo(t, sep) == UpTo(s, sep)
  {
    var a := UpTo(s, sep);
    assert t[..|a|] == a;
    Parted(t, |a|, sep);
    UpToAt(a, sep, t[|a| + 1..]);
  }

  /** A letter, as the first and the last of the scheme's name are. */
  predicate Letter(b: byte) {
    65 <= b <= 90 || 97 <= b <= 122
  }

  lemma NameIsLetters(name: seq<byte>)
    requires SameName(name, PROTO_NAME)
    ensures |name| == 17 && Letter(name[0]) && Letter(name[16]) && !SameName(name, HOST)
  {
    var low := Lowered(name);
    assert |low| == |Lowered(PROTO_NAME)| == 17 && |Lowered(HOST)| == 4;
    assert low[0] == LowerByte(name[0]) == 120 && low[16] == LowerByte(name[16]) == 111;
  }

  lemma LettersStay(s: seq<byte>)
    requires |s| > 0 && Letter(s[0])
    ensures TrimStart(s) == s
    ensures Letter(s[|s| - 1]) ==> Trim(s) == s
  {
    assert WhiteLen(s) == 0;
    assert TrimStart(s) == s;
    if Letter(s[|s| - 1]) {
      WhiteAfter(s, |s| - 1);
      NothingToTrim(s);
    }
  }

  /** A line that claims a scheme is its name, a colon, and more before the LF. */
  lemma ClaimParts(l: seq<byte>)
    requires IsLine(l) && Claims(l)
    ensures |UpTo(l, 58)| == 17 && |l| > 17 && l[17] == 58 && |Bare(l)| >= 18
    ensures Letter(l[0]) && Letter(UpTo(l, 58)[16]) && UpTo(l, 58)[0] == l[0]
  {
    var name := UpTo(l, 58);
    NameIsLetters(name);
    assert l[16] == name[16] && l[|l| - 1] == LF;
    assert |l| > 17;
  }

  /** The name stands before the line's first colon, also when the line is trimmed. */
  lemma NameStays(l: seq<byte>)
    requires IsLine(l) && Claims(l)
    ensures var name, line := UpTo(l, 58), Trim(Bare(l));
      SplitOnce(line, 58).Some? && SplitOnce(line, 58).value.0 == name
  {
    var s := Bare(l);
    ClaimParts(l);
    LettersStay(s);
    TrimEndKeeps(s, 17);
    UpToPrefix(l, s, 58);
    UpToPrefix(s, Trim(s), 58);
  }

  lemma NameIsNotHost(l: seq<byte>)
    requires IsLine(l) && Claims(l)
    ensures Trim(UpTo(l, 58)) == UpTo(l, 58) && !SameName(UpTo(l, 58), HOST)
  {
    NameIsLetters(UpTo(l, 58));
    LettersStay(UpTo(l, 58));
  }

  /** Looking for the host passes over a line that claims a scheme. */
  lemma ClaimsIsNoHost(l: seq<byte>, lines: seq<seq<byte>>)
    requires IsLine(l) && Claims(l) && ValidUtf8(Bare(l))
    requires |lines| > 0 && lines[0] == Bare(l)
    ensures HostIn(lines) == HostIn(lines[1..])
  {
    NameStays(l);
    NameIsNotHost(l);
  }

  /** The lines without their LFs, as the scan of a head that ends in LF sees them. */
  function Bares(lines: seq<seq<byte>>): (b: seq<seq<byte>>)
    requires AllLines(lines)
    ensures |b| == |lines| + 1
  {
    if |lines| == 0 then [[]] else [Bare(lines[0])] + Bares(lines[1..])
  }

  lemma {:induction false} PiecesAreBares(lines: seq<seq<byte>>)
    requires AllLines(lines)
    ensures Pieces(Join(lines)) == Bares(lines)
  {
    if |lines| > 0 {
      PiecesOfLines(lines);
      PiecesAreBares(lines[1..]);
    } else {
      assert Join(lines) == [];
    }
  }

  lemma BaresTail(lines: seq<seq<byte>>)
    requires AllLines(lines) && |lines| > 0
    ensures AllLines(lines[1..]) && Bares(lines)[0] == Bare(lines[0]) && Bares(lines)[1..] == Bares(lines[1..])
  {
  }

  /** The same first line, and the same host after it. */
  lemma HostNext(a: seq<seq<byte>>, b: seq<seq<byte>>)
    requires |a| > 0 && |b| > 0 && a[0] == b[0] && HostIn(a).Some?
    requires HostIn(a[1..]).Some? ==> HostIn(b[1..]) == HostIn(a[1..])
    ensures HostIn(b) == HostIn(a)
  {
  }

  /** Dropping the claims does not change the host found. */
  lemma {:induction false} SameHost(lines: seq<seq<byte>>)
    requires AllLines(lines) && AllLines(Keep(Claims, lines)) && HostIn(Bares(lines)).Some?
    ensures HostIn(Bares(Keep(Claims, lines))) == HostIn(Bares(lines))
  {
    if |lines| > 0 {
      var l, rest := lines[0], lines[1..];
      BaresTail(lines);
      KeepLines(Claims, rest);
      if Claims(l) {
        ClaimsIsNoHost(l, Bares(lines));
        SameHost(rest);
      } else {
        var kept := Keep(Claims, lines);
        assert kept[1..] == Keep(Claims, rest);
        BaresTail(kept);
        if HostIn(Bares(rest)).Some? {
          SameHost(rest);
        }
        HostNext(Bares(lines), Bares(kept));
      }
    }
  }

  /** Nor does putting one in. */
  lemma RewrittenHost(line: seq<byte>, lines: seq<seq<byte>>)
    requires Fit(line) && AllLines(lines) && |lines| > 0
    requires HostIn(Bares(lines)[1..]).Some?
    ensures var made := Rewritten(line, Claims, lines);
      AllLines(made) && Bares(made)[0] == Bares(lines)[0] && HostIn(Bares(made)[1..]) == HostIn(Bares(lines)[1..])
  {
    var made, rest := Rewritten(line, Claims, lines), lines[1..];
    RewrittenLines(line, Claims, lines);
    BaresTail(lines);
    KeepLines(Claims, rest);
    BaresTwo(lines[0], line, Keep(Claims, rest));
    ClaimsIsNoHost(line, Bares(made)[1..]);
    SameHost(rest);
  }

  lemma BaresTwo(a: seq<byte>, b: seq<byte>, more: seq<seq<byte>>)
    requires AllLines([a, b] + more) && AllLines(more)
    ensures var bares := Bares([a, b] + more);
      bares[0] == Bare(a) && bares[1..][0] == Bare(b) && bares[1..][1..] == Bares(more)
  {
    var all := [a, b] + more;
    BaresTail(all);
    assert all[1..] == [b] + more;
    BaresTail(all[1..]);
    assert all[1..][1..] == more;
  }

  /** What routing reads of lines depends on their texts only. */
  lemma SameRouting(lines: seq<seq<byte>>, made: seq<seq<byte>>)
    requires AllLines(lines) && AllLines(made)
    requires Bares(made)[0] == Bares(lines)[0] && HostIn(Bares(made)[1..]) == HostIn(Bares(lines)[1..])
    ensures HostOf(Join(made)) == HostOf(Join(lines)) == HostIn(Bares(lines)[1..])
    ensures RequestPath(Join(made)) == RequestPath(Join(lines))
    ensures RequestTarget(Join(made)) == RequestTarget(Join(lines))
  {
    PiecesAreBares(lines);
    PiecesAreBares(made);
  }

  /**
   Routing sees no difference: for every head that has a host, the new head
   has the same host, path and target. Only such heads are rewritten.
   */
  lemma RoutingKept(head: seq<byte>, end: nat)
    requires FindHeadEnd(head) == Some(end) && HostOf(head[..end]).Some?
    ensures var made, end' := Forwarded(head, end), NewEnd(head, end);
      && HostOf(made[..end']) == HostOf(head[..end])
      && RequestPath(made[..end']) == RequestPath(head[..end])
      && RequestTarget(made[..end']) == RequestTarget(head[..end])
  {
    var had := Lines(head[..end]);
    HeadLines(head, end);
    ProtoFits();
    PiecesAreBares(had);
    RewrittenHost(PROTO, had);
    SameRouting(had, NewLines(head, end));
    SplitBehind(Join(NewLines(head, end)), head[end..]);
  }

  // ----- what routing reads of a client's head ----------------------------------------------

  /** `Host` in any letter case. */
  predicate NamesHost(key: seq<byte>) {
    Named(key, "host")
  }

  lemma {:induction false} LastColonAt(a: seq<byte>, b: seq<byte>, n: nat)
    requires 58 !in b && n <= |b|
    ensures LastColonBefore(a + ([58] + b), |a| + 1 + n) == |a|
  {
    var v := a + ([58] + b);
    if n > 0 {
      assert v[|a| + n] == b[n - 1] && b[n - 1] in b;
      LastColonAt(a, b, n - 1);
    }
  }

  lemma LoweredWithPort(name: seq<byte>, port: seq<byte>)
    requires AllDigits(port)
    ensures Lowered(name + ([58] + port)) == Lowered(name) + ([58] + port)
  {
    var all, low := name + ([58] + port), Lowered(name) + ([58] + port);
    forall k | 0 <= k < |all|
      ensures LowerByte(all[k]) == low[k]
    {
      assert k > |name| ==> all[k] == port[k - |name| - 1];
    }
  }

  lemma DigitsHaveNoColon(port: seq<byte>)
    requires AllDigits(port)
    ensures 58 !in port
  {
  }

  /** The port goes, the name stays, in lower case. */
  lemma PortStripped(name: seq<byte>, port: seq<byte>)
    requires AllDigits(port)
    ensures WithoutPort(Lowered(name + ([58] + port))) == Lowered(name)
  {
    var low := Lowered(name);
    LoweredWithPort(name, port);
    DigitsHaveNoColon(port);
    LastColonAt(low, port, |port|);
    ColonParts(low, port);
  }

  lemma ColonParts(a: seq<byte>, b: seq<byte>)
    ensures (a + ([58] + b))[..|a|] == a && (a + ([58] + b))[|a| + 1..] == b
  {
  }

  lemma {:induction false} NoColonKept(v: seq<byte>, n: nat)
    requires 58 !in v && n <= |v|
    ensures LastColonBefore(v, n) == |v|
  {
    if n > 0 {
      assert v[n - 1] in v;
      NoColonKept(v, n - 1);
    }
  }

  lemma LettersRead(key: seq<byte>)
    requires NamesHost(key)
    ensures Letter(key[0]) && Letter(key[3]) && 58 !in key && Visible(key) && SameName(key, HOST)
  {
    var low := Lowered(key);
    NameSpelled();
    NamedExactlyWhen(key, HOST, "host");
    assert low == Lowered(HOST) == HOST;
    assert low[0] == LowerByte(key[0]) && low[1] == LowerByte(key[1]) && low[2] == LowerByte(key[2]) && low[3] == LowerByte(key[3]);
    assert key == [key[0], key[1], key[2], key[3]];
  }

  /** Spaces and tabs. */
  predicate Spaces(s: seq<byte>) {
    forall k :: 0 <= k < |s| ==> s[k] == 32 || s[k] == 9
  }

  /** The spaces in a header line: before the colon, before the value, and at the end. */
  datatype Gaps = Gaps(colon: seq<byte>, value: seq<byte>, end: seq<byte>)

  predicate IsGaps(g: Gaps) {
    Spaces(g.colon) && Spaces(g.value) && Spaces(g.end)
  }

  /** A header's text: key, colon, value. */
  function Field(key: seq<byte>, value: seq<byte>, g: Gaps): seq<byte> {
    (key + g.colon) + ([58] + (g.value + value))
  }

  /** Its line. */
  function FieldLine(key: seq<byte>, value: seq<byte>, g: Gaps): seq<byte> {
    Field(key, value, g) + (g.end + CRLF)
  }

  lemma FieldEnds(key: seq<byte>, value: seq<byte>, g: Gaps)
    requires |key| > 0 && |value| > 0
    ensures var text := Field(key, value, g); |text| > 0 && text[0] == key[0] && text[|text| - 1] == value[|value| - 1]
  {
  }

  lemma FieldIsAscii(key: seq<byte>, value: seq<byte>, g: Gaps)
    requires NamesHost(key) && Visible(value) && IsGaps(g)
    ensures ValidUtf8(Field(key, value, g) + (g.end + [CR])) && LF !in Field(key, value, g) + (g.end + [CR])
  {
    LettersRead(key);
    var text := Field(key, value, g) + (g.end + [CR]);
    assert forall k :: 0 <= k < |text| ==> text[k] < 0x80 && text[k] != LF;
    AsciiValid(text);
  }

  lemma FieldTrimmed(key: seq<byte>, value: seq<byte>, g: Gaps)
    requires NamesHost(key) && |value| > 0 && Visible(value) && IsGaps(g)
    ensures Trim(Field(key, value, g) + (g.end + [CR])) == Field(key, value, g)
  {
    LettersRead(key);
    FieldEnds(key, value, g);
    TrimBetween([], Field(key, value, g), g.end + [CR]);
    assert [] + Field(key, value, g) == Field(key, value, g);
  }

  lemma FieldSplit(key: seq<byte>, value: seq<byte>, g: Gaps)
    requires NamesHost(key) && IsGaps(g)
    ensures SplitOnce(Field(key, value, g), 58) == Some((key + g.colon, g.value + value))
    ensures Trim(key + g.colon) == key && SameName(key, HOST)
  {
    LettersRead(key);
    assert 58 !in key + g.colon;
    SplitAtFirst(key + g.colon, 58, g.value + value);
    TrimBetween([], key, g.colon);
    assert [] + key == key;
  }

  lemma ValueTrimmed(value: seq<byte>, g: Gaps)
    requires |value| > 0 && Visible(value) && IsGaps(g)
    ensures Trim(g.value + value) == value
  {
    TrimBetween(g.value, value, []);
    assert g.value + value + [] == g.value + value;
  }

  /** A Host line, with its value between white space, and CR at its end. */
  lemma HostLineRead(key: seq<byte>, value: seq<byte>, g: Gaps, lines: seq<seq<byte>>)
    requires NamesHost(key) && |value| > 0 && Visible(value) && IsGaps(g)
    requires |lines| > 0 && lines[0] == Field(key, value, g) + (g.end + [CR])
    ensures HostIn(lines) == Some(WithoutPort(Lowered(value)))
  {
    FieldIsAscii(key, value, g);
    FieldTrimmed(key, value, g);
    FieldSplit(key, value, g);
    ValueTrimmed(value, g);
  }

  /** The line has a name, and the name is not Host; or it has no colon, but some text. */
  ghost predicate OtherLine(l: seq<byte>) {
    && IsLine(l) && ValidUtf8(Bare(l)) && 32 < l[0] < 0x7f
    && (58 !in l || exists k :: NameEnds(l, k) && !Named(l[..k], "host"))
  }

  predicate NameEnds(l: seq<byte>, k: int) {
    0 < k < |l| && l[k] == 58 && 58 !in l[..k] && Visible(l[..k])
  }

  /** Trimming leaves what starts with a visible character its start, up to the last one. */
  lemma {:induction false} TrimKeeps(s: seq<byte>, i: nat)
    requires i < |s| && 32 < s[0] < 0x7f && 32 < s[i] < 0x7f
    ensures i < |Trim(s)| <= |s| && Trim(s) == s[..|Trim(s)|]
  {
    assert TrimStart(s) == s;
    TrimEndKeeps(s, i);
  }

  lemma NoColonNoName(s: seq<byte>)
    requires |s| > 0 && 32 < s[0] < 0x7f && 58 !in s
    ensures |Trim(s)| > 0 && SplitOnce(Trim(s), 58) == None
  {
    TrimKeeps(s, 0);
    UpToAt(Trim(s), 58, []);
  }

  lemma NameKept(s: seq<byte>, k: int)
    requires NameEnds(s, k)
    ensures SplitOnce(Trim(s), 58).Some? && SplitOnce(Trim(s), 58).value.0 == s[..k] && Trim(s[..k]) == s[..k]
  {
    TrimKeeps(s, k);
    SplitParts(s, k);
    UpToPrefix(s, Trim(s), 58);
    TrimKeeps(s[..k], k - 1);
  }

  lemma OtherNamePassed(s: seq<byte>, k: int, lines: seq<seq<byte>>)
    requires ValidUtf8(s) && NameEnds(s, k) && !Named(s[..k], "host") && |lines| > 0 && lines[0] == s
    ensures HostIn(lines) == HostIn(lines[1..])
  {
    NameSpelled();
    NameKept(s, k);
    NamedExactlyWhen(s[..k], HOST, "host");
  }

  /** Looking for the host passes over any other line. */
  lemma OtherPassed(l: seq<byte>, lines: seq<seq<byte>>)
    requires OtherLine(l) && |lines| > 0 && lines[0] == Bare(l)
    ensures HostIn(lines) == HostIn(lines[1..])
  {
    var s := Bare(l);
    if 58 !in l {
      NoColonNoName(s);
    } else {
      var k :| NameEnds(l, k) && !Named(l[..k], "host");
      assert s[..k] == l[..k];
      OtherNamePassed(s, k, lines);
    }
  }

  lemma {:induction false} OthersPassed(others: seq<seq<byte>>, more: seq<seq<byte>>)
    requires AllLines(others) && AllLines(more) && forall l :: l in others ==> OtherLine(l)
    ensures AllLines(others + more) && HostIn(Bares(others + more)) == HostIn(Bares(more))
    decreases |others|
  {
    if |others| == 0 {
      assert others + more == more;
    } else {
      assert (others + more)[1..] == others[1..] + more;
      OthersPassed(others[1..], more);
      BaresTail(others + more);
      OtherPassed(others[0], Bares(others + more));
    }
  }

  /**
   Routing reads a client's head as it was meant: the host is the first Host
   line's value in lower case, without a port, whatever spaces that line has,
   whatever other lines stand before it and any lines behind.
   */
  lemma ClientHostRead(first: seq<byte>, others: seq<seq<byte>>, key: seq<byte>, name: seq<byte>, port: seq<byte>,
                       g: Gaps, rest: seq<seq<byte>>)
    requires IsLine(first) && AllLines(others) && AllLines(rest) && forall l :: l in others ==> OtherLine(l)
    requires NamesHost(key) && |name| > 0 && Visible(name) && 58 !in name && AllDigits(port) && IsGaps(g)
    ensures HostOf(WithHost(first, others, FieldLine(key, name + ([58] + port), g), rest)) == Some(Lowered(name))
    ensures HostOf(WithHost(first, others, FieldLine(key, name, g), rest)) == Some(Lowered(name))
  {
    HostHeadRead(first, others, key, name + ([58] + port), g, rest);
    PortStripped(name, port);
    HostHeadRead(first, others, key, name, g, rest);
    LoweredHasNoColon(name);
    NoColonKept(Lowered(name), |name|);
  }

  function WithHost(first: seq<byte>, others: seq<seq<byte>>, line: seq<byte>, rest: seq<seq<byte>>): seq<byte> {
    Join([first] + (others + ([line] + rest)))
  }

  /** What follows the last colon is taken for no port if it is not all digits. */
  lemma NoPortRead(first: seq<byte>, others: seq<seq<byte>>, key: seq<byte>, name: seq<byte>, more: seq<byte>,
                   g: Gaps, rest: seq<seq<byte>>)
    requires IsLine(first) && AllLines(others) && AllLines(rest) && forall l :: l in others ==> OtherLine(l)
    requires NamesHost(key) && |name| > 0 && Visible(name) && Visible(more) && 58 !in more && !AllDigits(more) && IsGaps(g)
    ensures var value := name + ([58] + more);
      HostOf(WithHost(first, others, FieldLine(key, value, g), rest)) == Some(Lowered(value))
  {
    HostHeadRead(first, others, key, name + ([58] + more), g, rest);
    LoweredHasNoColon(more);
    LoweredParts(name, more);
    LoweredDigits(more);
    NoPort(Lowered(name), Lowered(more));
  }

  lemma NoPort(name: seq<byte>, more: seq<byte>)
    requires 58 !in more && !AllDigits(more)
    ensures WithoutPort(name + ([58] + more)) == name + ([58] + more)
  {
    LastColonAt(name, more, |more|);
    ColonParts(name, more);
  }

  lemma LoweredParts(name: seq<byte>, more: seq<byte>)
    ensures Lowered(name + ([58] + more)) == Lowered(name) + ([58] + Lowered(more))
  {
    var all, low := name + ([58] + more), Lowered(name) + ([58] + Lowered(more));
    forall k | 0 <= k < |all|
      ensures LowerByte(all[k]) == low[k]
    {
      assert k > |name| ==> all[k] == more[k - |name| - 1];
    }
  }

  lemma LoweredDigits(s: seq<byte>)
    ensures AllDigits(Lowered(s)) <==> AllDigits(s)
  {
    assert forall k :: 0 <= k < |s| ==> Lowered(s)[k] == LowerByte(s[k]);
    if AllDigits(Lowered(s)) {
      forall k | 0 <= k < |s|
        ensures 48 <= s[k] <= 57
      {
        assert 48 <= Lowered(s)[k] <= 57;
      }
    }
  }

  /** No host is read behind a blank line, or behind a line that is not UTF-8. */
  lemma NoHostRead(first: seq<byte>, others: seq<seq<byte>>, line: seq<byte>, rest: seq<seq<byte>>)
    requires IsLine(first) && AllLines(others) && AllLines(rest) && forall l :: l in others ==> OtherLine(l)
    requires line == CRLF || (IsLine(line) && !ValidUtf8(Bare(line)))
    ensures HostOf(Join([first] + others)) == None
    ensures HostOf(WithHost(first, others, line, rest)) == None
  {
    HostBehindFirst(first, others + []);
    OthersPassed(others, []);
    assert others + [] == others;
    assert IsLine(line);
    OthersPassed(others, [line] + rest);
    HostBehindFirst(first, others + ([line] + rest));
    BaresTail([line] + rest);
    OneWhiteAtEnd([CR]);
    assert TrimStart([CR]) == TrimStart([CR][1..]) == [];
  }

  /** The host is looked for behind the request line. */
  lemma HostBehindFirst(first: seq<byte>, lines: seq<seq<byte>>)
    requires IsLine(first) && AllLines(lines)
    ensures HostOf(Join([first] + lines)) == HostIn(Bares(lines))
  {
    var all := [first] + lines;
    PiecesAreBares(all);
    BaresTail(all);
    assert all[1..] == lines;
  }

  lemma LoweredHasNoColon(name: seq<byte>)
    requires 58 !in name
    ensures 58 !in Lowered(name)
  {
    var low := Lowered(name);
    assert forall k :: 0 <= k < |low| ==> low[k] == LowerByte(name[k]) && name[k] in name;
  }

  lemma FieldIsLine(key: seq<byte>, value: seq<byte>, g: Gaps)
    requires NamesHost(key) && Visible(value) && IsGaps(g)
    ensures var line := FieldLine(key, value, g); IsLine(line) && Bare(line) == Field(key, value, g) + (g.end + [CR])
  {
    FieldIsAscii(key, value, g);
    var line := FieldLine(key, value, g);
    assert line == (Field(key, value, g) + (g.end + [CR])) + [LF];
  }

  lemma HostHeadRead(first: seq<byte>, others: seq<seq<byte>>, key: seq<byte>, value: seq<byte>, g: Gaps,
                     rest: seq<seq<byte>>)
    requires IsLine(first) && AllLines(others) && AllLines(rest) && forall l :: l in others ==> OtherLine(l)
    requires NamesHost(key) && |value| > 0 && Visible(value) && IsGaps(g)
    ensures HostOf(WithHost(first, others, FieldLine(key, value, g), rest)) == Some(WithoutPort(Lowered(value)))
  {
    var line := FieldLine(key, value, g);
    FieldIsLine(key, value, g);
    OthersPassed(others, [line] + rest);
    HostBehindFirst(first, others + ([line] + rest));
    BaresTail([line] + rest);
    HostLineRead(key, value, g, Bares([line] + rest));
  }

  /** A request line as clients write it, and what follows it. */
  function Requested(verb: seq<byte>, target: seq<byte>, version: seq<byte>, rest: seq<byte>): seq<byte> {
    verb + ([32] + (target + ([32] + (version + CRLF)))) + rest
  }

  lemma FirstPiece(verb: seq<byte>, target: seq<byte>, version: seq<byte>, rest: seq<byte>)
    requires Visible(verb) && Visible(target) && Visible(version)
    ensures var line := verb + ([32] + (target + ([32] + (version + [CR]))));
      Pieces(Requested(verb, target, version, rest))[0] == line && ValidUtf8(line)
  {
    var line := verb + ([32] + (target + ([32] + (version + [CR]))));
    var head := Requested(verb, target, version, rest);
    assert head == line + [LF] + rest;
    assert forall k :: 0 <= k < |line| ==> line[k] < 0x80 && line[k] != LF;
    assert head[..|line|] == line;
    FirstLfAt(head, |line|);
    AsciiValid(line);
  }

  /** The request line's second word is the target, if it starts with a slash. */
  lemma ClientTargetRead(verb: seq<byte>, target: seq<byte>, version: seq<byte>, rest: seq<byte>)
    requires |verb| > 0 && |target| > 0 && Visible(verb) && Visible(target) && Visible(version)
    ensures var head := Requested(verb, target, version, rest);
      && RequestPath(head) == Some(UpTo(target, 63))
      && RequestTarget(head) == if target[0] == 47 then Some(target) else None
  {
    FirstPiece(verb, target, version, rest);
    SecondWordRead(verb, target, version + [CR]);
  }

  /** A request line that is not UTF-8, or has only one word, has no path and no target. */
  lemma NoTargetRead(line: seq<byte>, rest: seq<byte>)
    requires LF !in line && (!ValidUtf8(line) || (|line| > 0 && Visible(line)))
    ensures RequestPath(line + ([LF] + rest)) == None && RequestTarget(line + ([LF] + rest)) == None
  {
    var head := line + ([LF] + rest);
    assert head[..|line|] == line;
    FirstLfAt(head, |line|);
    if |line| > 0 && Visible(line) {
      OneWord(line);
    }
  }

  lemma {:induction false} WordOfVisible(s: seq<byte>)
    requires Visible(s)
    ensures Word(s) == s
  {
    if |s| > 0 {
      assert WhiteLen(s) == 0;
      WordOfVisible(s[1..]);
    }
  }

  lemma OneWord(s: seq<byte>)
    requires |s| > 0 && Visible(s)
    ensures SecondWord(s) == []
  {
    assert WhiteLen(s) == 0;
    WordOfVisible(s);
    assert s[|s|..] == [];
  }

  /** And the path is the second word up to its query, if it has one. */
  lemma ClientPathRead(verb: seq<byte>, path: seq<byte>, query: seq<byte>, version: seq<byte>, rest: seq<byte>)
    requires |verb| > 0 && |path| > 0 && Visible(verb) && Visible(path) && Visible(query) && Visible(version)
    requires 63 !in path
    ensures RequestPath(Requested(verb, path + ([63] + query), version, rest)) == Some(path)
    ensures RequestPath(Requested(verb, path, version, rest)) == Some(path)
  {
    var target := path + ([63] + query);
    assert Visible(target);
    ClientTargetRead(verb, target, version, rest);
    ClientTargetRead(verb, path, version, rest);
    UpToAt(path, 63, query);
  }
}
