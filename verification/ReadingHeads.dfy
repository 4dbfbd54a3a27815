/**
 Reading a request from a stream that delivers its bytes in pieces of any size
 (src/router.rs, src/api.rs): what comes out depends on the pieces exactly if
 the head ends just past the limit, within one read of it.
 */
module ReadingHeads {
  import opened Bytes
  import opened Http
  import opened HeaderText

  const MAX_HEAD := 16 * 1024
  const MAX_BODY := 1024 * 1024

  /** The read buffers of the router and of the API. */
  const ROUTER_READ := 2048
  const API_READ := 4096

  /** `buf` is everything that was read, `end` where its head ends, `rest` the reads still to come. */
  datatype HeadRead =
    | Got(buf: seq<byte>, end: nat, rest: seq<seq<byte>>)
    | TooLong(buf: seq<byte>)
    | StreamEnded(buf: seq<byte>)

  /** Piece after piece is added to `buf`. */
  function Accumulate(buf: seq<byte>, chunks: seq<seq<byte>>): (r: HeadRead)
    ensures r.Got? ==> 4 <= r.end <= |r.buf|
    decreases |chunks|
  {
    if |chunks| == 0 then StreamEnded(buf) else
    var more := buf + chunks[0];
    match FindHeadEnd(more)
    case Some(end) => Got(more, end, chunks[1..])
    case None => if |more| > MAX_HEAD then TooLong(more) else Accumulate(more, chunks[1..])
  }

  /** The router's loop: read, look for the end, give up on too much. */
  method ReadHead(chunks: seq<seq<byte>>) returns (r: HeadRead)
    ensures r == Accumulate([], chunks)
  {
    var head: seq<byte> := [];
    var i := 0;
    while i < |chunks|
      invariant 0 <= i <= |chunks|
      invariant Accumulate([], chunks) == Accumulate(head, chunks[i..])
    {
      head := head + chunks[i];
      assert chunks[i..][1..] == chunks[i + 1..];
      i := i + 1;
      match FindHeadEnd(head) {
        case Some(end) => return Got(head, end, chunks[i..]);
        case None =>
      }
      if |head| > MAX_HEAD {
        return TooLong(head);
      }
    }
    return StreamEnded(head);
  }

  /** A way of delivering `stream`: nonempty reads of at most `most` bytes. */
  ghost predicate Delivers(chunks: seq<seq<byte>>, stream: seq<byte>, most: nat) {
    Join(chunks) == stream && forall r :: r in chunks ==> 1 <= |r| <= most
  }

  /**
   What a reader that has `buf`, without a head in it, makes of the rest. It
   never holds more than the limit and one read, and what it holds is the
   beginning of the stream. A head that ends in time is found where it ends;
   without one, or without one in time, it is not.
   */
  lemma {:induction false} Accumulates(buf: seq<byte>, chunks: seq<seq<byte>>, most: nat)
    requires FindHeadEnd(buf) == None && |buf| <= MAX_HEAD
    requires forall r :: r in chunks ==> 1 <= |r| <= most
    ensures var stream, got := buf + Join(chunks), Accumulate(buf, chunks);
      && got.buf <= stream && |got.buf| <= MAX_HEAD + most
      && (got.Got? ==>
            && FindHeadEnd(stream) == Some(got.end) && got.end <= |got.buf|
            && stream == got.buf + Join(got.rest) && (forall r :: r in got.rest ==> 1 <= |r| <= most))
      && (got.StreamEnded? ==> FindHeadEnd(stream) == None && |stream| <= MAX_HEAD)
      && (got.TooLong? ==>
            |stream| > MAX_HEAD && (FindHeadEnd(stream) == None || FindHeadEnd(stream).value > MAX_HEAD + 1))
    decreases |chunks|
  {
    if |chunks| == 0 {
      assert buf + Join(chunks) == buf;
    } else {
      var more, later := buf + chunks[0], Join(chunks[1..]);
      assert buf + Join(chunks) == more + later;
      HeadEndPrefix(more, later);
      if FindHeadEnd(more) == None && |more| <= MAX_HEAD {
        Accumulates(more, chunks[1..], most);
      }
    }
  }

  /** One byte at a time. */
  function Bytewise(s: seq<byte>): (chunks: seq<seq<byte>>)
    ensures |chunks| == |s|
    ensures forall r :: r in chunks ==> |r| == 1
  {
    if |s| == 0 then [] else [[s[0]]] + Bytewise(s[1..])
  }

  lemma {:induction false} BytewiseDelivers(s: seq<byte>)
    ensures Join(Bytewise(s)) == s
  {
    if |s| > 0 {
      assert Bytewise(s)[1..] == Bytewise(s[1..]);
      BytewiseDelivers(s[1..]);
    }
  }

  /** Read byte by byte, a head without an end among the first 16 KiB and a byte is given up on. */
  lemma {:induction false} BytewiseTooLong(buf: seq<byte>, s: seq<byte>)
    requires |buf| <= MAX_HEAD < |buf| + |s| && FindHeadEnd(buf) == None
    requires FindHeadEnd(buf + s) == None || FindHeadEnd(buf + s).value > MAX_HEAD + 1
    ensures Accumulate(buf, Bytewise(s)).TooLong?
    decreases |s|
  {
    var more := buf + [s[0]];
    assert Bytewise(s)[0] == [s[0]] && Bytewise(s)[1..] == Bytewise(s[1..]);
    assert buf + s == more + s[1..];
    HeadEndPrefix(more, s[1..]);
    if |more| <= MAX_HEAD {
      BytewiseTooLong(more, s[1..]);
    }
  }

  /** Every way of delivering the stream gets its head read. */
  ghost predicate AlwaysRead(stream: seq<byte>, most: nat) {
    forall chunks :: Delivers(chunks, stream, most) ==> Accumulate([], chunks).Got?
  }

  /** A head is read whatever the pieces, if and only if it ends within the first 16 KiB and one byte. */
  lemma HeadReadExactlyWhen(stream: seq<byte>, most: nat)
    requires most >= 1
    ensures AlwaysRead(stream, most) <==> FindHeadEnd(stream).Some? && FindHeadEnd(stream).value <= MAX_HEAD + 1
  {
    if FindHeadEnd(stream).Some? && FindHeadEnd(stream).value <= MAX_HEAD + 1 {
      forall chunks | Delivers(chunks, stream, most)
        ensures Accumulate([], chunks).Got?
      {
        Reads(stream, chunks, most);
      }
    } else {
      BytewiseRefuses(stream, most);
    }
  }

  /** `Accumulates` for a whole stream. */
  lemma Reads(stream: seq<byte>, chunks: seq<seq<byte>>, most: nat)
    requires Delivers(chunks, stream, most)
    ensures var got := Accumulate([], chunks);
      && got.buf <= stream && |got.buf| <= MAX_HEAD + most
      && (got.Got? ==>
            && FindHeadEnd(stream) == Some(got.end) && got.end <= |got.buf|
            && stream == got.buf + Join(got.rest) && (forall r :: r in got.rest ==> 1 <= |r| <= most))
      && (got.StreamEnded? ==> FindHeadEnd(stream) == None && |stream| <= MAX_HEAD)
      && (got.TooLong? ==>
            |stream| > MAX_HEAD && (FindHeadEnd(stream) == None || FindHeadEnd(stream).value > MAX_HEAD + 1))
  {
    Accumulates([], chunks, most);
    assert [] + Join(chunks) == stream;
  }

  lemma BytewiseRefuses(stream: seq<byte>, most: nat)
    requires most >= 1
    requires FindHeadEnd(stream) == None || FindHeadEnd(stream).value > MAX_HEAD + 1
    ensures Delivers(Bytewise(stream), stream, most) && !Accumulate([], Bytewise(stream)).Got?
  {
    BytewiseDelivers(stream);
    assert [] + stream == stream;
    if |stream| > MAX_HEAD {
      BytewiseTooLong([], stream);
    } else {
      Reads(stream, Bytewise(stream), most);
    }
  }

  // ----- when the pieces matter ---------------------------------------------------------

  /** Byte by byte, then one read, and byte by byte again. */
  function AroundOne(a: seq<byte>, m: seq<byte>, b: seq<byte>): seq<seq<byte>> {
    Bytewise(a) + ([m] + Bytewise(b))
  }

  /** The one read takes the stream from the limit to the end of the head. */
  function LastMoment(stream: seq<byte>, end: nat): seq<seq<byte>>
    requires MAX_HEAD < end <= |stream|
  {
    AroundOne(stream[..MAX_HEAD], stream[MAX_HEAD..end], stream[end..])
  }

  lemma {:induction false} JoinConcat(a: seq<seq<byte>>, b: seq<seq<byte>>)
    ensures Join(a + b) == Join(a) + Join(b)
  {
    if |a| == 0 {
      assert a + b == b;
    } else {
      assert (a + b)[1..] == a[1..] + b;
      JoinConcat(a[1..], b);
    }
  }

  lemma AroundOneJoins(a: seq<byte>, m: seq<byte>, b: seq<byte>)
    ensures Join(AroundOne(a, m, b)) == a + (m + b)
  {
    BytewiseDelivers(a);
    BytewiseDelivers(b);
    JoinConcat(Bytewise(a), [m] + Bytewise(b));
    assert ([m] + Bytewise(b))[1..] == Bytewise(b);
  }

  lemma AroundOneSmall(a: seq<byte>, m: seq<byte>, b: seq<byte>, most: nat)
    requires 1 <= |m| <= most
    ensures forall r :: r in AroundOne(a, m, b) ==> 1 <= |r| <= most
  {
    forall r | r in AroundOne(a, m, b)
      ensures 1 <= |r| <= most
    {
      assert r in Bytewise(a) || r == m || r in Bytewise(b);
    }
  }

  lemma LastMomentDelivers(stream: seq<byte>, end: nat, most: nat)
    requires MAX_HEAD < end <= |stream| && end - MAX_HEAD <= most
    ensures Delivers(LastMoment(stream, end), stream, most)
  {
    AroundOneJoins(stream[..MAX_HEAD], stream[MAX_HEAD..end], stream[end..]);
    AroundOneSmall(stream[..MAX_HEAD], stream[MAX_HEAD..end], stream[end..], most);
    ThreeParts(stream, MAX_HEAD, end);
  }

  lemma ThreeParts(s: seq<byte>, i: nat, j: nat)
    requires i <= j <= |s|
    ensures s[..i] + (s[i..j] + s[j..]) == s && s[..i] + s[i..j] == s[..j]
    ensures s[..i] + s[i..] == s && s[..j] + s[j..] == s
  {
  }

  lemma {:induction false} BytewisePasses(buf: seq<byte>, s: seq<byte>, later: seq<seq<byte>>)
    requires |buf| + |s| <= MAX_HEAD && FindHeadEnd(buf + s) == None
    ensures Accumulate(buf, Bytewise(s) + later) == Accumulate(buf + s, later)
    decreases |s|
  {
    if |s| == 0 {
      assert buf + s == buf && Bytewise(s) + later == later;
    } else {
      var more := buf + [s[0]];
      assert buf + s == more + s[1..];
      assert (Bytewise(s) + later)[0] == [s[0]] && (Bytewise(s) + later)[1..] == Bytewise(s[1..]) + later;
      HeadEndPrefix(more, s[1..]);
      BytewisePasses(more, s[1..], later);
    }
  }

  lemma AroundOneRead(a: seq<byte>, m: seq<byte>, b: seq<byte>)
    requires |a| <= MAX_HEAD && FindHeadEnd(a) == None && FindHeadEnd(a + m).Some?
    ensures Accumulate([], AroundOne(a, m, b)).Got?
  {
    assert [] + a == a;
    BytewisePasses([], a, [m] + Bytewise(b));
    assert ([m] + Bytewise(b))[0] == m;
  }

  lemma HeadEndsThere(stream: seq<byte>)
    requires FindHeadEnd(stream).Some? && FindHeadEnd(stream).value > MAX_HEAD
    ensures var end := FindHeadEnd(stream).value;
      end <= |stream| && FindHeadEnd(stream[..MAX_HEAD]) == None && FindHeadEnd(stream[..end]).Some?
  {
    var end := FindHeadEnd(stream).value;
    ThreeParts(stream, MAX_HEAD, end);
    HeadEndPrefix(stream[..MAX_HEAD], stream[MAX_HEAD..]);
    HeadEndPrefix(stream[..end], stream[end..]);
  }

  /** A head that ends past the limit is read from those pieces. */
  lemma LastMomentRead(stream: seq<byte>)
    requires FindHeadEnd(stream).Some? && FindHeadEnd(stream).value > MAX_HEAD
    ensures FindHeadEnd(stream).value <= |stream|
    ensures Accumulate([], LastMoment(stream, FindHeadEnd(stream).value)).Got?
  {
    var end := FindHeadEnd(stream).value;
    HeadEndsThere(stream);
    ThreeParts(stream, MAX_HEAD, end);
    AroundOneRead(stream[..MAX_HEAD], stream[MAX_HEAD..end], stream[end..]);
  }

  /** One way of cutting the stream gets its head read, and another does not. */
  ghost predicate CutMatters(stream: seq<byte>, most: nat) {
    exists a, b :: Delivers(a, stream, most) && Delivers(b, stream, most)
      && Accumulate([], a).Got? && !Accumulate([], b).Got?
  }

  /** The head ends past the limit and a byte, but within one read of the limit. */
  predicate EndsAtTheLimit(stream: seq<byte>, most: nat) {
    FindHeadEnd(stream).Some? && MAX_HEAD + 1 < FindHeadEnd(stream).value <= MAX_HEAD + most
  }

  /**
   Exactly when the pieces matter: a head that ends earlier is always read; one
   that ends later, or never, is always refused.
   */
  lemma CutMattersExactlyWhen(stream: seq<byte>, most: nat)
    requires most >= 1
    ensures CutMatters(stream, most) <==> EndsAtTheLimit(stream, most)
  {
    if EndsAtTheLimit(stream, most) {
      LastMomentRead(stream);
      LastMomentDelivers(stream, FindHeadEnd(stream).value, most);
      BytewiseRefuses(stream, most);
    } else {
      forall a, b | Delivers(a, stream, most) && Delivers(b, stream, most) && Accumulate([], a).Got?
        ensures Accumulate([], b).Got?
      {
        Reads(stream, a, most);
        Reads(stream, b, most);
      }
    }
  }

  /**
   Whatever a client sends and however, the router holds at most 18 KiB of it,
   the beginning of what was sent; and a head that it reads is the stream's own.
   */
  lemma RouterReads(stream: seq<byte>, chunks: seq<seq<byte>>)
    requires Delivers(chunks, stream, ROUTER_READ)
    ensures var got := Accumulate([], chunks);
      && got.buf <= stream && |got.buf| <= 18 * 1024
      && (got.Got? ==> FindHeadEnd(stream) == Some(got.end) && got.buf[..got.end] == stream[..got.end])
  {
    Reads(stream, chunks, ROUTER_READ);
  }

  // ----- the API's request ------------------------------------------------------------

  datatype Request = Request(verb: seq<byte>, path: seq<byte>, authorization: Option<seq<byte>>, body: seq<byte>)

  /** A request, or the status it is refused with. */
  datatype Answer = Ok(request: Request) | Refused(status: nat)

  datatype Head = Head(verb: seq<byte>, path: seq<byte>, authorization: Option<seq<byte>>, length: nat) | Bad(status: nat)

  /** Up to the first CR LF, all of it if there is none. */
  function UpToCrlf(s: seq<byte>): (t: seq<byte>)
    ensures |t| <= |s|
    ensures |t| < |s| ==> |t| + 2 <= |s|
  {
    if |s| == 0 || s[..Two(s)] == CRLF then [] else [s[0]] + UpToCrlf(s[1..])
  }

  function Two(s: seq<byte>): (n: nat)
    ensures n <= |s|
  {
    if |s| < 2 then |s| else 2
  }

  function CrlfPieces(s: seq<byte>): (p: seq<seq<byte>>)
    ensures |p| > 0
    decreases |s|
  {
    var t := UpToCrlf(s);
    if |t| == |s| then [s] else [t] + CrlfPieces(s[|t| + 2..])
  }

  /** The header lines, one after the other; the last of a kind counts. */
  function HeaderLines(lines: seq<seq<byte>>, h: Head): Head
    requires h.Head?
    decreases |lines|
  {
    if |lines| == 0 then h else
    match SplitOnce(lines[0], 58)
    case None => HeaderLines(lines[1..], h)
    case Some((k, rest)) =>
      var v := Trim(rest);
      if SameName(k, CONTENT_LENGTH) then
        match ParseUsize(v)
        case None => Bad(400)
        case Some(n) => HeaderLines(lines[1..], h.(length := n))
      else if SameName(k, AUTHORIZATION) then HeaderLines(lines[1..], h.(authorization := Some(v)))
      else if SameName(k, TRANSFER_ENCODING) then Bad(411)
      else HeaderLines(lines[1..], h)
  }

  /** `content-length`, `authorization` and `transfer-encoding`, in ASCII. */
  const CONTENT_LENGTH: seq<byte> := [99, 111, 110, 116, 101, 110, 116, 45, 108, 101, 110, 103, 116, 104]
  const AUTHORIZATION: seq<byte> := [97, 117, 116, 104, 111, 114, 105, 122, 97, 116, 105, 111, 110]
  const TRANSFER_ENCODING: seq<byte> :=
    [116, 114, 97, 110, 115, 102, 101, 114, 45, 101, 110, 99, 111, 100, 105, 110, 103]

  function ParseHead(head: seq<byte>): Head {
    if !ValidUtf8(head) then Bad(400) else
    var lines := CrlfPieces(head);
    match SplitOnce(lines[0], 32)
    case None => Bad(400)
    case Some((name, rest)) =>
      if |name| == 0 then Bad(400)
      else
        var h := HeaderLines(lines[1..], Head(name, UpTo(rest, 32), None, 0));
        if h.Head? && h.length > MAX_BODY then Bad(413) else h
  }

  /** The body grows until it is long enough, then it is cut to length. */
  function GrowBody(body: seq<byte>, chunks: seq<seq<byte>>, length: nat): Option<seq<byte>>
    decreases |chunks|
  {
    if |body| >= length then Some(body[..length])
    else if |chunks| == 0 then None
    else GrowBody(body + chunks[0], chunks[1..], length)
  }

  /** The API's first loop: it looks for the end before it reads. */
  method ReadUntilHead(chunks: seq<seq<byte>>) returns (r: HeadRead)
    ensures r == Accumulate([], chunks)
  {
    var buf: seq<byte> := [];
    var i := 0;
    while FindHeadEnd(buf) == None
      invariant 0 <= i <= |chunks|
      invariant FindHeadEnd(buf) == None ==>
        Accumulate([], chunks) == if |buf| > MAX_HEAD then TooLong(buf) else Accumulate(buf, chunks[i..])
      invariant FindHeadEnd(buf).Some? ==> Accumulate([], chunks) == Got(buf, FindHeadEnd(buf).value, chunks[i..])
      decreases |chunks| - i
    {
      if |buf| > MAX_HEAD {
        return TooLong(buf);
      }
      if i == |chunks| {
        return StreamEnded(buf);
      }
      NextRead(buf, chunks, i);
      buf := buf + chunks[i];
      i := i + 1;
    }
    return Got(buf, FindHeadEnd(buf).value, chunks[i..]);
  }

  lemma NextRead(buf: seq<byte>, chunks: seq<seq<byte>>, i: nat)
    requires i < |chunks|
    ensures var more := buf + chunks[i];
      Accumulate(buf, chunks[i..]) ==
        if FindHeadEnd(more).Some? then Got(more, FindHeadEnd(more).value, chunks[i + 1..])
        else if |more| > MAX_HEAD then TooLong(more) else Accumulate(more, chunks[i + 1..])
  {
    assert chunks[i..][1..] == chunks[i + 1..];
  }

  /** Its second loop: what came behind the head, and reads until there is enough. */
  method ReadBody(behind: seq<byte>, chunks: seq<seq<byte>>, length: nat) returns (body: Option<seq<byte>>)
    ensures body == GrowBody(behind, chunks, length)
  {
    var b := behind;
    var i := 0;
    while |b| < length
      invariant 0 <= i <= |chunks|
      invariant GrowBody(behind, chunks, length) == GrowBody(b, chunks[i..], length)
      decreases |chunks| - i
    {
      if i == |chunks| {
        return None;
      }
      b := b + chunks[i];
      assert chunks[i..][1..] == chunks[i + 1..];
      i := i + 1;
    }
    return Some(b[..length]);
  }

  /** The API's reading of a request. */
  method ReadRequest(chunks: seq<seq<byte>>) returns (a: Answer)
    ensures a == Answered(chunks)
  {
    var got := ReadUntilHead(chunks);
    match got {
      case TooLong(_) => return Refused(431);
      case StreamEnded(_) => return Refused(400);
      case Got(buf, end, rest) =>
        var h := ParseHead(buf[..end]);
        if h.Bad? {
          return Refused(h.status);
        }
        var body := ReadBody(buf[end..], rest, h.length);
        if body == None {
          return Refused(400);
        }
        return Ok(Request(h.verb, h.path, h.authorization, body.value));
    }
  }

  function Answered(chunks: seq<seq<byte>>): Answer {
    match Accumulate([], chunks)
    case TooLong(_) => Refused(431)
    case StreamEnded(_) => Refused(400)
    case Got(buf, end, rest) =>
      var h := ParseHead(buf[..end]);
      if h.Bad? then Refused(h.status) else Completed(h, GrowBody(buf[end..], rest, h.length))
  }

  function Completed(h: Head, body: Option<seq<byte>>): Answer
    requires h.Head?
  {
    match body
    case None => Refused(400)
    case Some(b) => Ok(Request(h.verb, h.path, h.authorization, b))
  }

  /** The first `length` bytes, if there are so many. */
  function FirstBytes(s: seq<byte>, length: nat): Option<seq<byte>> {
    if |s| >= length then Some(s[..length]) else None
  }

  lemma {:induction false} BodyGrows(body: seq<byte>, chunks: seq<seq<byte>>, length: nat)
    ensures GrowBody(body, chunks, length) == FirstBytes(body + Join(chunks), length)
    decreases |chunks|
  {
    var all := body + Join(chunks);
    if |body| >= length {
      assert all[..length] == body[..length];
    } else if |chunks| == 0 {
      assert all == body;
    } else {
      assert all == body + chunks[0] + Join(chunks[1..]);
      BodyGrows(body + chunks[0], chunks[1..], length);
    }
  }

  /** What the API makes of a stream, said without any pieces. */
  function AnswerTo(stream: seq<byte>): Answer {
    match FindHeadEnd(stream)
    case None => Refused(if |stream| > MAX_HEAD then 431 else 400)
    case Some(end) =>
      if end > MAX_HEAD + 1 then Refused(431) else
      var h := ParseHead(stream[..end]);
      if h.Bad? then Refused(h.status) else Completed(h, FirstBytes(stream[end..], h.length))
  }

  lemma SplitAt(buf: seq<byte>, later: seq<byte>, end: nat)
    requires end <= |buf|
    ensures (buf + later)[..end] == buf[..end] && (buf + later)[end..] == buf[end..] + later
  {
  }

  /**
   The API's answer is the same in whatever pieces the stream arrives, unless
   the head ends past the limit but within one read of it: the head's method,
   path and authorization, and as many of the following bytes as
   `content-length` says; or a refusal.
   */
  lemma AnswerIndependent(stream: seq<byte>, chunks: seq<seq<byte>>)
    requires Delivers(chunks, stream, API_READ) && !EndsAtTheLimit(stream, API_READ)
    ensures Answered(chunks) == AnswerTo(stream)
  {
    Reads(stream, chunks, API_READ);
    var got := Accumulate([], chunks);
    if got.Got? {
      SplitAt(got.buf, Join(got.rest), got.end);
      var h := ParseHead(stream[..got.end]);
      if h.Head? {
        BodyGrows(got.buf[got.end..], got.rest, h.length);
      }
    }
  }

  /** Every way of cutting the stream is answered alike. */
  ghost predicate AnsweredAlike(stream: seq<byte>) {
    forall a, b :: Delivers(a, stream, API_READ) && Delivers(b, stream, API_READ) ==> Answered(a) == Answered(b)
  }

  lemma {:induction false} LinesNever431(lines: seq<seq<byte>>, h: Head)
    requires h.Head?
    ensures HeaderLines(lines, h) != Bad(431)
    decreases |lines|
  {
    if |lines| > 0 {
      match SplitOnce(lines[0], 58) {
        case None => LinesNever431(lines[1..], h);
        case Some((k, rest)) =>
          var v := Trim(rest);
          if SameName(k, CONTENT_LENGTH) && ParseUsize(v).Some? {
            LinesNever431(lines[1..], h.(length := ParseUsize(v).value));
          }
          LinesNever431(lines[1..], h.(authorization := Some(v)));
          LinesNever431(lines[1..], h);
      }
    }
  }

  /** A head that was read is never refused as too long. */
  lemma ReadNever431(chunks: seq<seq<byte>>)
    requires Accumulate([], chunks).Got?
    ensures Answered(chunks) != Refused(431)
  {
    var got := Accumulate([], chunks);
    var head := got.buf[..got.end];
    match SplitOnce(CrlfPieces(head)[0], 32) {
      case None =>
      case Some((name, rest)) => LinesNever431(CrlfPieces(head)[1..], Head(name, UpTo(rest, 32), None, 0));
    }
  }

  lemma AnsweredApart(stream: seq<byte>) returns (a: seq<seq<byte>>, b: seq<seq<byte>>)
    requires EndsAtTheLimit(stream, API_READ)
    ensures Delivers(a, stream, API_READ) && Delivers(b, stream, API_READ)
    ensures Answered(a) != Refused(431) && Answered(b) == Refused(431)
  {
    LastMomentRead(stream);
    a, b := LastMoment(stream, FindHeadEnd(stream).value), Bytewise(stream);
    LastMomentDelivers(stream, FindHeadEnd(stream).value, API_READ);
    ReadNever431(a);
    BytewiseRefuses(stream, API_READ);
    Reads(stream, b, API_READ);
  }

  /** So the pieces matter to the answer exactly if they matter to the head. */
  lemma AnsweredAlikeExactlyWhen(stream: seq<byte>)
    ensures AnsweredAlike(stream) <==> !EndsAtTheLimit(stream, API_READ)
  {
    if EndsAtTheLimit(stream, API_READ) {
      var a, b := AnsweredApart(stream);
    } else {
      forall a, b | Delivers(a, stream, API_READ) && Delivers(b, stream, API_READ)
        ensures Answered(a) == Answered(b)
      {
        AnswerIndependent(stream, a);
        AnswerIndependent(stream, b);
      }
    }
  }

  lemma ParsedBounded(head: seq<byte>)
    ensures ParseHead(head).Head? ==> ParseHead(head).length <= MAX_BODY
  {
  }

  lemma CompletedBounded(h: Head, behind: seq<byte>, rest: seq<seq<byte>>)
    requires h.Head? && h.length <= MAX_BODY
    ensures var a := Completed(h, GrowBody(behind, rest, h.length)); a.Ok? ==> |a.request.body| <= MAX_BODY
  {
    BodyGrows(behind, rest, h.length);
  }

  /** An accepted request's body is what was asked for, and at most 1 MiB. */
  lemma AcceptedBounded(chunks: seq<seq<byte>>)
    ensures Answered(chunks).Ok? ==> |Answered(chunks).request.body| <= MAX_BODY
  {
    match Accumulate([], chunks) {
      case Got(buf, end, rest) =>
        var h := ParseHead(buf[..end]);
        ParsedBounded(buf[..end]);
        if h.Head? {
          CompletedBounded(h, buf[end..], rest);
        }
      case _ =>
    }
  }

  // ----- a client's request, read back ------------------------------------------------

  predicate CrlfAt(s: seq<byte>, k: int) {
    0 <= k < |s| - 1 && s[k] == CR && s[k + 1] == LF
  }

  /** Text for one line: no CR LF in it. */
  ghost predicate OneLine(s: seq<byte>) {
    forall k :: !CrlfAt(s, k)
  }

  ghost predicate OneLineEach(lines: seq<seq<byte>>) {
    forall l :: l in lines ==> OneLine(l)
  }

  /** The lines, each with CR LF behind it. */
  function Ended(lines: seq<seq<byte>>): seq<byte> {
    if |lines| == 0 then [] else lines[0] + (CRLF + Ended(lines[1..]))
  }

  /** A head: a request line, header lines, and the blank line. */
  function HeadOf(first: seq<byte>, lines: seq<seq<byte>>): seq<byte> {
    Ended([first] + lines) + CRLF
  }

  lemma LineHere(line: seq<byte>, rest: seq<byte>)
    requires OneLine(line) && |line| > 0
    ensures var s := line + (CRLF + rest);
      s[..Two(s)] != CRLF && s[1..] == line[1..] + (CRLF + rest) && OneLine(line[1..])
  {
    var s := line + (CRLF + rest);
    assert !CrlfAt(line, 0);
    assert s[..Two(s)][0] == line[0] && s[..Two(s)][1] == if |line| > 1 then line[1] else CR;
    forall k
      ensures !CrlfAt(line[1..], k)
    {
      assert !CrlfAt(line, k + 1);
    }
  }

  lemma {:induction false} UpToCrlfAt(line: seq<byte>, rest: seq<byte>)
    requires OneLine(line)
    ensures UpToCrlf(line + (CRLF + rest)) == line
  {
    var s := line + (CRLF + rest);
    if |line| > 0 {
      LineHere(line, rest);
      UpToCrlfAt(line[1..], rest);
    } else {
      assert s[..2] == CRLF;
    }
  }

  lemma PieceFirst(line: seq<byte>, rest: seq<byte>)
    requires OneLine(line)
    ensures CrlfPieces(line + (CRLF + rest)) == [line] + CrlfPieces(rest)
  {
    UpToCrlfAt(line, rest);
    assert (line + (CRLF + rest))[|line| + 2..] == rest;
  }

  lemma {:induction false} PiecesOf(lines: seq<seq<byte>>)
    requires OneLineEach(lines)
    ensures CrlfPieces(Ended(lines) + CRLF) == lines + [[], []]
  {
    if |lines| == 0 {
      PieceFirst([], []);
      assert [] + (CRLF + []) == [] + CRLF;
      assert CrlfPieces([]) == [[]];
    } else {
      PieceFirst(lines[0], Ended(lines[1..]) + CRLF);
      assert Ended(lines) + CRLF == lines[0] + (CRLF + (Ended(lines[1..]) + CRLF));
      PiecesOf(lines[1..]);
    }
  }

  lemma NamesSpelled()
    ensures Spells(CONTENT_LENGTH, "content-length") && Spells(AUTHORIZATION, "authorization")
    ensures Spells(TRANSFER_ENCODING, "transfer-encoding")
  {
  }

  /** The number in a content-length line, if it is one. */
  function LengthIn(line: seq<byte>): Option<nat>
    requires Gives(line, "content-length")
  {
    ParseUsize(Trim(Given(line, "content-length")))
  }

  /** A line that a request is refused for. */
  predicate Faulty(line: seq<byte>) {
    Gives(line, "transfer-encoding") || (Gives(line, "content-length") && LengthIn(line) == None)
  }

  /** `at` is where the last line is that gives a value to `word`, -1 if none does. */
  predicate Last(lines: seq<seq<byte>>, word: string, at: int) {
    && -1 <= at < |lines| && (at >= 0 ==> Gives(lines[at], word))
    && forall k :: at < k < |lines| ==> !Gives(lines[k], word)
  }

  function AfterFirst(at: int): int {
    if at <= 0 then -1 else at - 1
  }

  lemma LastAfterFirst(lines: seq<seq<byte>>, word: string, at: int)
    requires |lines| > 0 && Last(lines, word, at)
    ensures Last(lines[1..], word, AfterFirst(at))
    ensures Gives(lines[0], word) ==> at >= 0
    ensures at > 0 ==> lines[at] == lines[1..][at - 1]
  {
    forall k | AfterFirst(at) < k < |lines[1..]|
      ensures !Gives(lines[1..][k], word)
    {
      assert lines[1..][k] == lines[k + 1];
    }
  }

  lemma NotBoth(line: seq<byte>)
    ensures !(Gives(line, "content-length") && Gives(line, "authorization"))
    ensures !(Gives(line, "content-length") && Gives(line, "transfer-encoding"))
    ensures !(Gives(line, "authorization") && Gives(line, "transfer-encoding"))
  {
    FirstLetter(line, "content-length");
    FirstLetter(line, "authorization");
    FirstLetter(line, "transfer-encoding");
  }

  lemma FirstLetter(line: seq<byte>, word: string)
    requires |word| > 0
    ensures Gives(line, word) ==> OfEitherCase(line[0], word[0])
  {
    if Gives(line, word) {
      assert OfEitherCase(line[..|word|][0], word[0]);
    }
  }

  /** What one header line does to what was read before. */
  function After(h: Head, line: seq<byte>): Head
    requires h.Head? && !Faulty(line)
  {
    if Gives(line, "content-length") then h.(length := LengthIn(line).value)
    else if Gives(line, "authorization") then h.(authorization := Some(Trim(Given(line, "authorization"))))
    else h
  }

  lemma LineRead(lines: seq<seq<byte>>, h: Head)
    requires |lines| > 0 && h.Head?
    ensures HeaderLines(lines, h) ==
      if Faulty(lines[0]) then Bad(if Gives(lines[0], "transfer-encoding") then 411 else 400)
      else HeaderLines(lines[1..], After(h, lines[0]))
  {
    NamesSpelled();
    NotBoth(lines[0]);
    GivesExactlyWhen(lines[0], CONTENT_LENGTH, "content-length");
    GivesExactlyWhen(lines[0], AUTHORIZATION, "authorization");
    GivesExactlyWhen(lines[0], TRANSFER_ENCODING, "transfer-encoding");
  }

  lemma EmptyLine(lines: seq<seq<byte>>, h: Head)
    requires |lines| > 0 && lines[0] == [] && h.Head?
    ensures HeaderLines(lines, h) == HeaderLines(lines[1..], h)
  {
    assert SplitOnce([], 58) == None;
  }

  lemma TwoEmptyLines(h: Head)
    requires h.Head?
    ensures HeaderLines([[], []], h) == h
  {
    EmptyLine([[], []], h);
    EmptyLine([[], []][1..], h);
  }

  /** Of several values the last one counts, and what was there before counts without one. */
  function Updated(h: Head, lines: seq<seq<byte>>, a: int, c: int): Head
    requires h.Head? && LastOnes(lines, a, c)
  {
    Head(h.verb, h.path,
         if a < 0 then h.authorization else Some(Trim(Given(lines[a], "authorization"))),
         if c < 0 then h.length else LengthIn(lines[c]).value)
  }

  /** No line is faulty, and these are the last authorization and the last content-length. */
  predicate LastOnes(lines: seq<seq<byte>>, a: int, c: int) {
    && (forall k :: 0 <= k < |lines| ==> !Faulty(lines[k]))
    && Last(lines, "authorization", a) && Last(lines, "content-length", c)
  }

  lemma {:induction false} LinesRead(lines: seq<seq<byte>>, h: Head, a: int, c: int)
    requires h.Head? && LastOnes(lines, a, c)
    ensures HeaderLines(lines + [[], []], h) == Updated(h, lines, a, c)
    decreases |lines|
  {
    if |lines| == 0 {
      TwoEmptyLines(h);
      assert lines + [[], []] == [[], []];
    } else {
      var l, rest := lines[0], lines[1..];
      assert (lines + [[], []])[1..] == rest + [[], []];
      LineRead(lines + [[], []], h);
      NotBoth(l);
      LastAfterFirst(lines, "authorization", a);
      LastAfterFirst(lines, "content-length", c);
      LinesRead(rest, After(h, l), AfterFirst(a), AfterFirst(c));
    }
  }

  predicate FirstFault(lines: seq<seq<byte>>, k: int) {
    0 <= k < |lines| && Faulty(lines[k]) && forall j :: 0 <= j < k ==> !Faulty(lines[j])
  }

  function Refusal(line: seq<byte>): Head {
    Bad(if Gives(line, "transfer-encoding") then 411 else 400)
  }

  /** The reading goes on behind a line without a fault. */
  lemma LinePassed(lines: seq<seq<byte>>, k: nat, h: Head) returns (h': Head)
    requires k < |lines| && !Faulty(lines[k]) && h.Head?
    ensures h'.Head? && HeaderLines(lines[k..], h) == HeaderLines(lines[k + 1..], h')
  {
    h' := After(h, lines[k]);
    LineRead(lines[k..], h);
    assert lines[k..][1..] == lines[k + 1..];
  }

  lemma {:induction false} LinesPassed(lines: seq<seq<byte>>, k: nat, h: Head) returns (h': Head)
    requires k <= |lines| && h.Head? && NoFaultBefore(lines, k)
    ensures h'.Head? && HeaderLines(lines[0..], h) == HeaderLines(lines[k..], h')
  {
    h' := h;
    if k > 0 {
      NoFaultBack(lines, k);
      h' := LinesPassed(lines, k - 1, h);
      h' := LinePassed(lines, k - 1, h');
    }
  }

  predicate NoFaultBefore(lines: seq<seq<byte>>, k: nat)
    requires k <= |lines|
  {
    forall j :: 0 <= j < k ==> !Faulty(lines[j])
  }

  lemma NoFaultBack(lines: seq<seq<byte>>, k: nat)
    requires 0 < k <= |lines| && NoFaultBefore(lines, k)
    ensures NoFaultBefore(lines, k - 1) && !Faulty(lines[k - 1])
  {
  }

  /** The first faulty line decides the refusal. */
  lemma LinesRefused(lines: seq<seq<byte>>, h: Head, k: int)
    requires h.Head? && FirstFault(lines, k)
    ensures HeaderLines(lines, h) == Refusal(lines[k])
  {
    assert NoFaultBefore(lines, k);
    var h' := LinesPassed(lines, k, h);
    assert lines[0..] == lines;
    LineRead(lines[k..], h');
  }

  /** A request line: the method, the path, and the rest behind a space, if there is any. */
  ghost predicate IsRequestLine(first: seq<byte>, verb: seq<byte>, path: seq<byte>) {
    && |verb| > 0 && 32 !in verb && 32 !in path
    && (first == verb + ([32] + path) || exists rest :: first == verb + ([32] + (path + ([32] + rest))))
  }

  lemma RequestLineParts(first: seq<byte>, verb: seq<byte>, path: seq<byte>)
    requires IsRequestLine(first, verb, path)
    ensures SplitOnce(first, 32).Some? && SplitOnce(first, 32).value.0 == verb && UpTo(SplitOnce(first, 32).value.1, 32) == path
  {
    UpToAt(path, 32, []);
    if first == verb + ([32] + path) {
      SplitAtFirst(verb, 32, path);
    } else {
      var rest :| first == verb + ([32] + (path + ([32] + rest)));
      SplitAtFirst(verb, 32, path + ([32] + rest));
      UpToAt(path, 32, rest);
    }
  }

  lemma HeadPieces(first: seq<byte>, lines: seq<seq<byte>>)
    requires OneLine(first) && OneLineEach(lines)
    ensures CrlfPieces(HeadOf(first, lines))[0] == first
    ensures CrlfPieces(HeadOf(first, lines))[1..] == lines + [[], []]
  {
    PiecesOf([first] + lines);
    assert [first] + lines + [[], []] == [first] + (lines + [[], []]);
  }

  /**
   What the API makes of a head with any header lines in any order: the method
   and the path; the value of the last authorization line, its name in any
   letter case; and the number in the last content-length line, or 413.
   */
  lemma HeadParsed(first: seq<byte>, verb: seq<byte>, path: seq<byte>, lines: seq<seq<byte>>, a: int, c: int)
    requires OneLine(first) && OneLineEach(lines) && ValidUtf8(HeadOf(first, lines))
    requires IsRequestLine(first, verb, path) && LastOnes(lines, a, c)
    ensures var h := Updated(Head(verb, path, None, 0), lines, a, c);
      ParseHead(HeadOf(first, lines)) == if h.length <= 1024 * 1024 then h else Bad(413)
  {
    HeadPieces(first, lines);
    RequestLineParts(first, verb, path);
    LinesRead(lines, Head(verb, path, None, 0), a, c);
  }

  /** A head is refused for its first faulty line: 411 for a transfer-encoding, 400 for a length that is no number. */
  lemma HeadRefused(first: seq<byte>, verb: seq<byte>, path: seq<byte>, lines: seq<seq<byte>>, k: int)
    requires OneLine(first) && OneLineEach(lines) && ValidUtf8(HeadOf(first, lines))
    requires IsRequestLine(first, verb, path) && FirstFault(lines, k)
    ensures ParseHead(HeadOf(first, lines)) == Bad(if Gives(lines[k], "transfer-encoding") then 411 else 400)
  {
    HeadPieces(first, lines);
    RequestLineParts(first, verb, path);
    assert FirstFault(lines + [[], []], k);
    LinesRefused(lines + [[], []], Head(verb, path, None, 0), k);
  }

  /** And 400 for text that is not UTF-8, or for no request line. */
  lemma NoRequestLine(first: seq<byte>, lines: seq<seq<byte>>)
    requires OneLine(first) && OneLineEach(lines)
    requires !ValidUtf8(HeadOf(first, lines)) || 32 !in first || first[0] == 32
    ensures ParseHead(HeadOf(first, lines)) == Bad(400)
  {
    HeadPieces(first, lines);
    if 32 !in first {
      UpToAt(first, 32, []);
    }
  }

  // ----- where such a head ends ---------------------------------------------------------

  lemma LineEnd(line: seq<byte>, rest: seq<byte>)
    requires OneLine(line) && |line| > 0
    ensures var s := line + (CRLF + rest); FindHeadEnd(s) == Later(1, FindHeadEnd(s[1..]))
  {
    var s := line + (CRLF + rest);
    LineHere(line, rest);
    SearchStep(s);
    assert BLANK[..2] == CRLF;
    assert |s| >= 4 ==> s[..4][..2] == s[..2];
  }

  lemma {:induction false} EndBehindLine(line: seq<byte>, rest: seq<byte>)
    requires OneLine(line)
    ensures FindHeadEnd(line + (CRLF + rest)) == Later(|line|, FindHeadEnd(CRLF + rest))
  {
    if |line| > 0 {
      LineHere(line, rest);
      LineEnd(line, rest);
      EndBehindLine(line[1..], rest);
    } else {
      assert line + (CRLF + rest) == CRLF + rest;
    }
  }

  /** Behind a CR LF, the head ends at another one or further on. */
  lemma EndBehindCrlf(rest: seq<byte>)
    ensures FindHeadEnd(CRLF + rest) == if StartsBlank(rest) then Some(4) else Later(2, FindHeadEnd(rest))
  {
    var s := CRLF + rest;
    SearchStep(s);
    assert s[1..] == [LF] + rest && s[1..][1..] == rest;
    NotBlankHere(s[1..]);
    TwoPairs(rest);
  }

  lemma TwoPairs(rest: seq<byte>)
    ensures |CRLF + rest| >= 4 && (CRLF + rest)[..4] == BLANK <==> StartsBlank(rest)
  {
    if |rest| >= 2 {
      assert (CRLF + rest)[..4] == CRLF + rest[..2] && BLANK == CRLF + CRLF;
      assert (CRLF + rest)[..4] == BLANK ==> rest[..2] == BLANK[2..] == CRLF;
    }
  }

  lemma NoBlankAhead(line: seq<byte>, rest: seq<byte>)
    requires OneLine(line) && |line| > 0
    ensures !StartsBlank(line + (CRLF + rest))
  {
    LineHere(line, rest);
  }

  lemma {:induction false} EndsAtBlank(lines: seq<seq<byte>>, rest: seq<byte>)
    requires |lines| > 0 && OneLineEach(lines) && forall k :: 1 <= k < |lines| ==> lines[k] != []
    ensures FindHeadEnd(Ended(lines) + (CRLF + rest)) == Some(|Ended(lines)| + 2)
    decreases |lines|
  {
    var l, more := lines[0], lines[1..];
    var behind := Ended(more) + (CRLF + rest);
    EndedFirst(lines, CRLF + rest);
    EndBehindLine(l, behind);
    EndBehindCrlf(behind);
    if |more| == 0 {
      assert behind == CRLF + rest && behind[..2] == CRLF;
    } else {
      EndedFirst(more, CRLF + rest);
      NoBlankAhead(more[0], Ended(more[1..]) + (CRLF + rest));
      EndsAtBlank(more, rest);
    }
  }

  lemma EndedFirst(lines: seq<seq<byte>>, rest: seq<byte>)
    requires |lines| > 0
    ensures Ended(lines) + rest == lines[0] + (CRLF + (Ended(lines[1..]) + rest))
    ensures |Ended(lines)| == |lines[0]| + 2 + |Ended(lines[1..])|
  {
  }

  /** A head ends at its blank line, if it has no other. */
  lemma HeadOfEnds(first: seq<byte>, lines: seq<seq<byte>>, rest: seq<byte>)
    requires OneLine(first) && OneLineEach(lines) && [] !in lines
    ensures FindHeadEnd(HeadOf(first, lines) + rest) == Some(|HeadOf(first, lines)|)
  {
    EndsAtBlank([first] + lines, rest);
    Regroup(Ended([first] + lines), CRLF, rest);
  }

  /** A stream that breaks off in its head is refused with 400, or 431 if there was too much of it. */
  lemma BrokenOff(stream: seq<byte>, chunks: seq<seq<byte>>)
    requires Delivers(chunks, stream, API_READ) && FindHeadEnd(stream) == None
    ensures Answered(chunks) == Refused(if |stream| > 16 * 1024 then 431 else 400)
  {
    AnswerIndependent(stream, chunks);
  }

  /** And with 400 if it breaks off in its body. */
  lemma BrokenOffLater(first: seq<byte>, lines: seq<seq<byte>>, part: seq<byte>, chunks: seq<seq<byte>>)
    requires OneLine(first) && OneLineEach(lines) && [] !in lines && |HeadOf(first, lines)| <= 16 * 1024 + 1
    requires ParseHead(HeadOf(first, lines)).Head? && |part| < ParseHead(HeadOf(first, lines)).length
    requires Delivers(chunks, HeadOf(first, lines) + part, API_READ)
    ensures Answered(chunks) == Refused(400)
  {
    HeadOfEnds(first, lines, part);
    AnswerIndependent(HeadOf(first, lines) + part, chunks);
    AnswerBehind(HeadOf(first, lines), part);
  }

  lemma AnswerBehind(head: seq<byte>, rest: seq<byte>)
    requires FindHeadEnd(head + rest) == Some(|head|) && |head| <= MAX_HEAD + 1
    ensures var h := ParseHead(head);
      AnswerTo(head + rest) == if h.Bad? then Refused(h.status) else Completed(h, FirstBytes(rest, h.length))
  {
    SplitAt(head, rest, |head|);
  }

  /**
   A client's request, read back: whatever its header lines and however the
   stream is cut into reads, the API gets the method, the path, the last
   authorization, and exactly the body that the last content-length says, and
   nothing of what follows it.
   */
  lemma ClientRequestRead(first: seq<byte>, verb: seq<byte>, path: seq<byte>, lines: seq<seq<byte>>, a: int, c: int,
                          body: seq<byte>, rest: seq<byte>, chunks: seq<seq<byte>>)
    requires OneLine(first) && OneLineEach(lines) && [] !in lines && ValidUtf8(HeadOf(first, lines))
    requires IsRequestLine(first, verb, path) && LastOnes(lines, a, c)
    requires |body| == Updated(Head(verb, path, None, 0), lines, a, c).length <= 1024 * 1024
    requires |HeadOf(first, lines)| <= 16 * 1024 + 1
    requires Delivers(chunks, HeadOf(first, lines) + (body + rest), API_READ)
    ensures Answered(chunks) == Ok(Request(verb, path, Updated(Head(verb, path, None, 0), lines, a, c).authorization, body))
  {
    var head := HeadOf(first, lines);
    HeadOfEnds(first, lines, body + rest);
    HeadParsed(first, verb, path, lines, a, c);
    AnswerIndependent(head + (body + rest), chunks);
    AnswerBehind(head, body + rest);
    assert (body + rest)[..|body|] == body;
  }

  /** A request refused for its head is refused however it is cut. */
  lemma ClientRequestRefused(first: seq<byte>, lines: seq<seq<byte>>, rest: seq<byte>, chunks: seq<seq<byte>>)
    requires OneLine(first) && OneLineEach(lines) && [] !in lines
    requires |HeadOf(first, lines)| <= 16 * 1024 + 1 && ParseHead(HeadOf(first, lines)).Bad?
    requires Delivers(chunks, HeadOf(first, lines) + rest, API_READ)
    ensures Answered(chunks) == Refused(ParseHead(HeadOf(first, lines)).status)
  {
    var head := HeadOf(first, lines);
    HeadOfEnds(first, lines, rest);
    AnswerIndependent(head + rest, chunks);
    AnswerBehind(head, rest);
  }
}
