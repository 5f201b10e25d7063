/** What an actor does with a parsed request: the response it prints, and what a client can read back from it. */
module Exchange {
  import opened Bytes
  import opened Options
  import opened HeadSpec
  import opened HeadGrammar
  import opened HeadStability
  import opened HeadCharacters
  import opened HttpResponse
  import OutputBuffer

  const CONNECTION: seq<byte> := [67, 111, 110, 110, 101, 99, 116, 105, 111, 110] // Connection
  const KEEP_ALIVE: seq<byte> := [75, 101, 101, 112, 45, 65, 108, 105, 118, 101] // Keep-Alive
  const CONTENT_LENGTH: seq<byte> := // Content-Length
    [67, 111, 110, 116, 101, 110, 116, 45, 76, 101, 110, 103, 116, 104]
  const KEEP_ALIVE_REPLY: seq<byte> := [107, 101, 101, 112, 45, 97, 108, 105, 118, 101] // keep-alive
  const CLOSE_REPLY: seq<byte> := [99, 108, 111, 115, 101] // close

  predicate SliceIn(b: seq<byte>, s: Slice) { s.start + s.len <= |b| }

  function Content(b: seq<byte>, s: Slice): seq<byte>
    requires SliceIn(b, s)
  {
    b[s.start..s.start + s.len]
  }

  predicate HeaderIn(b: seq<byte>, h: Header) {
    SliceIn(b, h.value) && (h.name.Some? ==> SliceIn(b, h.name.value))
  }

  /** The header asks for the connection to be kept: exact spelling on both sides. */
  predicate AsksKeepAlive(b: seq<byte>, h: Header)
    requires HeaderIn(b, h)
  {
    h.name.Some? && Content(b, h.name.value) == CONNECTION && Content(b, h.value) == KEEP_ALIVE
  }

  predicate KeepAlive(b: seq<byte>, hs: seq<Header>)
    requires forall i :: 0 <= i < |hs| ==> HeaderIn(b, hs[i])
  {
    exists i :: 0 <= i < |hs| && AsksKeepAlive(b, hs[i])
  }

  /** `context_keep_alive`. */
  method ContextKeepAlive(b: seq<byte>, hs: seq<Header>) returns (keep: bool)
    requires forall i :: 0 <= i < |hs| ==> HeaderIn(b, hs[i])
    ensures keep <==> KeepAlive(b, hs)
  {
    var i := 0;
    while i < |hs|
      invariant 0 <= i <= |hs|
      invariant forall k :: 0 <= k < i ==> !AsksKeepAlive(b, hs[k])
    {
      var header := hs[i];
      i := i + 1;
      if header.name.None? || header.name.value.len != 10 { continue; }
      if Content(b, header.name.value) != CONNECTION { continue; }
      if header.value.len != 10 { continue; }
      if Content(b, header.value) != KEEP_ALIVE { continue; }
      return true;
    }
    keep := false;
  }

  function ReplyHeaders(pathLen: nat, keep: bool): seq<OutHeader> {
    [OutHeader(CONTENT_LENGTH, Decimal(pathLen)), OutHeader(CONNECTION, if keep then KEEP_ALIVE_REPLY else CLOSE_REPLY)]
  }

  /** What the actor appends to the output buffer. */
  function ReplyTexts(body: seq<byte>, keep: bool): seq<seq<byte>> {
    ResponseTexts(200, ReplyHeaders(|body|, keep), body)
  }

  /** `handle_request`: echoes the path; its length is printed into a buffer of ten bytes. */
  method HandleRequest(buffer: OutputBuffer.Buffer, b: seq<byte>, path: Slice, hs: seq<Header>)
    requires buffer.Valid() && SliceIn(b, path) && path.len < 1_000_000_000
    requires forall i :: 0 <= i < |hs| ==> HeaderIn(b, hs[i])
    modifies buffer, buffer.data
    ensures buffer.Valid()
    ensures buffer.Val() ==
            AppendedAll(old(buffer.Val()), ReplyTexts(Content(b, path), KeepAlive(b, hs)))
  {
    var keep := ContextKeepAlive(b, hs);
    HttpResponseInit(buffer, 200, ReplyHeaders(path.len, keep), Content(b, path));
  }

  lemma ReplyHeadersPrintable(pathLen: nat, keep: bool)
    ensures forall i :: 0 <= i < 2 ==> HeaderPrintable(ReplyHeaders(pathLen, keep)[i])
  {
    hide Decimal;
    var d := Decimal(pathLen);
    assert forall i :: 0 <= i < |d| ==> Digit(d[i]);
    assert HeaderPrintable(OutHeader(CONTENT_LENGTH, d));
    assert HeaderPrintable(OutHeader(CONNECTION, if keep then KEEP_ALIVE_REPLY else CLOSE_REPLY));
  }

  /** The slices of an accepted request lie in the buffer, and the path is free of NUL. */
  lemma {:induction false} AcceptedSlices(b: seq<byte>, max: nat)
    requires ParseRequest(b, max).verdict.Accepted?
    ensures var r := ParseRequest(b, max);
      && r.path.Some? && SliceIn(b, r.path.value) && NUL !in Content(b, r.path.value)
      && forall i :: 0 <= i < |r.headers| ==> HeaderIn(b, r.headers[i])
  {
    hide ParseRequest, RequestText, RequestLineText, LineStart, LinesOk;
    var h := RequestSlices(b, max);
    var r := ParseRequest(b, max);
    assert forall i :: 0 <= i < |h.path| ==> !TokenStop(h.path[i]);
    forall i | 0 <= i < |r.headers| ensures HeaderIn(b, r.headers[i]) {
      var line := |RequestLineText(h)|;
      assert HeaderHolds(b, r.headers[i], h.lines[i], LineStart(h.lines, line, i), LineStart(h.lines, line, i + 1));
    }
  }

  /** Some line of the head is a field `Connection` with the value `Keep-Alive`, spelled just so. */
  ghost predicate SaysKeepAlive(h: RequestHead) {
    exists k :: 0 <= k < |h.lines| && h.lines[k].FieldLine?
                && h.lines[k].name == Ascii("Connection") && h.lines[k].text == Ascii("Keep-Alive")
  }

  /** Keep-alive is answered exactly if the text of the request asks for it. */
  lemma {:induction false} KeepAliveExactly(b: seq<byte>, h: RequestHead, max: nat)
    requires RequestOk(h) && RequestText(h) <= b && |h.lines| <= max
    ensures var r := ParseRequest(b, max);
      && r.verdict.Accepted? && (forall i :: 0 <= i < |r.headers| ==> HeaderIn(b, r.headers[i]))
      && (KeepAlive(b, r.headers) <==> SaysKeepAlive(h))
  {
    hide ParseRequest, RequestText, RequestLineText, LineStart, RequestOk, Ascii;
    ParsesRequestText(b, h, max);
    AcceptedSlices(b, max);
    RequestFieldsHold(b, h);
    ReplyWords(true);
    var r, line := ParseRequest(b, max), |RequestLineText(h)|;
    forall k | 0 <= k < |h.lines|
      ensures AsksKeepAlive(b, r.headers[k]) <==>
              h.lines[k].FieldLine? && h.lines[k].name == Ascii("Connection") && h.lines[k].text == Ascii("Keep-Alive")
    {
      assert HeaderHolds(b, r.headers[k], h.lines[k], LineStart(h.lines, line, k), LineStart(h.lines, line, k + 1));
    }
  }

  /** The response to a request, as bytes. */
  function Reply(b: seq<byte>, path: Slice, hs: seq<Header>): seq<byte>
    requires SliceIn(b, path) && forall i :: 0 <= i < |hs| ==> HeaderIn(b, hs[i])
  {
    Flatten(ReplyTexts(Content(b, path), KeepAlive(b, hs)))
  }

  lemma {:induction false} ReplyIs(b: seq<byte>, path: Slice, hs: seq<Header>)
    requires SliceIn(b, path) && forall i :: 0 <= i < |hs| ==> HeaderIn(b, hs[i])
    ensures Reply(b, path, hs) == ResponseBytes(200, ReplyHeaders(path.len, KeepAlive(b, hs)), Content(b, path))
  {
  }

  /** A parsed reply: status 200, the body's length as Content-Length, and the connection answer in words. */
  ghost predicate AnswersEcho(reply: seq<byte>, r: Response, body: seq<byte>, keep: bool) {
    && |body| <= |reply| && r.verdict == Accepted(|reply| - |body|) && r.status == 200 && |r.headers| == 2
    && (forall k :: 0 <= k < 2 ==> HeaderIn(reply, r.headers[k]) && r.headers[k].name.Some?)
    && Content(reply, r.headers[0].name.value) == Ascii("Content-Length")
    && FromDecimal(Content(reply, r.headers[0].value)) == |body|
    && Content(reply, r.headers[1].name.value) == Ascii("Connection")
    && Content(reply, r.headers[1].value) == Ascii(if keep then "keep-alive" else "close")
  }

  /** A reply as it was meant: the status, both headers and the path can be parsed back from it. */
  lemma {:induction false} ReplyTextReadsBack(body: seq<byte>, keep: bool, capacity: nat)
    requires NUL !in body && capacity >= 2
    ensures var hs := ReplyHeaders(|body|, keep); var reply := ResponseBytes(200, hs, body);
      && |body| <= |reply| && reply[|reply| - |body|..] == body
      && Recovered(reply, PhrParseResponse(reply, capacity, 0), 200, hs, |reply| - |body|)
  {
    hide ResponseBytes, ParseResponse, Recovered, HeaderPrintable;
    ReplyHeadersPrintable(|body|, keep);
    RoundTrip(200, ReplyHeaders(|body|, keep), body, capacity);
  }

  /** What was recovered from the head is recovered from every text that agrees with it there. */
  lemma {:induction false} RecoveredIsLocal(a: seq<byte>, b: seq<byte>, max: nat, status: int, hs: seq<OutHeader>,
      n: nat)
    requires n <= |a| && n <= |b| && a[..n] == b[..n]
    requires Recovered(a, PhrParseResponse(a, max, 0), status, hs, n)
    ensures Recovered(b, PhrParseResponse(b, max, 0), status, hs, n)
  {
    hide ParseResponse;
    AcceptedResponseIsLocal(a, b, max);
    assert forall s: Slice, t: seq<byte>, lo: nat, hi: nat | hi <= n && Holds(a, s, t, lo, hi) ::
        Holds(b, s, t, lo, hi) by {
      forall s: Slice, t: seq<byte>, lo: nat, hi: nat | hi <= n && Holds(a, s, t, lo, hi)
        ensures Holds(b, s, t, lo, hi)
      {
        assert b[s.start..s.start + s.len] == b[..n][s.start..s.start + s.len];
        assert a[s.start..s.start + s.len] == a[..n][s.start..s.start + s.len];
      }
    }
  }

  lemma {:induction false} RecoveredAnswers(reply: seq<byte>, r: Response, body: seq<byte>, keep: bool)
    requires |body| <= |reply| && Recovered(reply, r, 200, ReplyHeaders(|body|, keep), |reply| - |body|)
    ensures AnswersEcho(reply, r, body, keep)
  {
    hide Decimal, Reason, FromDecimal, Ascii;
    var hs := ReplyHeaders(|body|, keep);
    assert forall k :: 0 <= k < 2 ==> Holds(reply, r.headers[k].value, hs[k].value, 0, |reply| - |body|);
    DecimalReadsBack(|body|);
    ReplyWords(keep);
  }

  /** The words the server compares and prints, in characters. */
  lemma ReplyWords(keep: bool)
    ensures (if keep then KEEP_ALIVE_REPLY else CLOSE_REPLY) == Ascii(if keep then "keep-alive" else "close")
    ensures CONTENT_LENGTH == Ascii("Content-Length") && CONNECTION == Ascii("Connection")
    ensures KEEP_ALIVE == Ascii("Keep-Alive")
  {
  }

  // ---------------------------------------------------------------- what really goes out

  function Pow10(k: nat): nat { if k == 0 then 1 else 10 * Pow10(k - 1) }

  lemma {:induction false} DecimalLength(n: nat, k: nat)
    requires n < Pow10(k) && k > 0
    ensures |Decimal(n)| <= k
  {
    if n >= 10 {
      DecimalLength(n / 10, k - 1);
    }
  }

  lemma {:induction false} TwoHeaderTexts(a: OutHeader, b: OutHeader)
    ensures HeaderTexts([a, b]) == [HeaderText(a), HeaderText(b)]
  {
    assert [a, b][1..] == [b] && [b][1..] == [];
    assert HeaderTexts([b]) == [HeaderText(b)] + HeaderTexts([]);
  }

  lemma {:induction false} HeaderTextLength(h: OutHeader)
    requires HeaderPrintable(h)
    ensures |HeaderText(h)| == |h.name| + 2 + |h.value| + 2
  {
    HeaderTextIsLine(h);
  }

  lemma {:induction false} StatusLineLength()
    ensures |StatusLine(200)| == 17
  {
    hide Decimal, Reason;
    ThreeDigits(200);
    ReasonOk();
  }

  /** The lengths of the four texts of a reply. */
  lemma {:induction false} ReplyTextLengths(pathLen: nat, keep: bool, body: seq<byte>)
    requires pathLen < 1_000_000_000 && NUL !in body
    ensures var hs := ReplyHeaders(pathLen, keep); var ts := ResponseTexts(200, hs, body);
      && ts == [StatusLine(200), HeaderText(hs[0]), HeaderText(hs[1]), CRLF + body]
      && |ts[0]| == 17 && 0 < |ts[1]| <= 27 && 0 < |ts[2]| <= 24 && (pathLen < 10 ==> |ts[1]| <= 19)
  {
    hide Decimal, Reason, HeaderPrintable, HeaderText, HeaderTexts, StatusLine, Printed;
    var hs := ReplyHeaders(pathLen, keep);
    PrintedWhole(body);
    TwoHeaderTexts(hs[0], hs[1]);
    StatusLineLength();
    assert Pow10(9) == 1_000_000_000 by { assert Pow10(3) == 1000 && Pow10(6) == 1_000_000; }
    DecimalLength(pathLen, 9);
    assert Pow10(1) == 10;
    if pathLen < 10 {
      DecimalLength(pathLen, 1);
    }
    ReplyHeadersPrintable(pathLen, keep);
    HeaderTextLength(hs[0]);
    HeaderTextLength(hs[1]);
  }

  lemma ReasonOk()
    ensures Reason(200) == "Ok"
  {
  }

  lemma {:induction false} AppendedFour(v: OutputBuffer.Value, t: seq<seq<byte>>)
    requires OutputBuffer.Ok(v) && |t| == 4
    ensures var v2 := OutputBuffer.Appended(OutputBuffer.Appended(v, t[0]), t[1]);
      AppendedAll(v, t) == OutputBuffer.Appended(OutputBuffer.Appended(v2, t[2]), t[3])
  {
    assert t == [t[0]] + ([t[1]] + ([t[2]] + [t[3]]));
    AppendedAllSplit(v, [t[0]], [t[1]] + ([t[2]] + [t[3]]));
    AppendOne(v, [], t[0]);
    var v1 := OutputBuffer.Appended(v, t[0]);
    AppendedAllSplit(v1, [t[1]], [t[2]] + [t[3]]);
    AppendOne(v1, [], t[1]);
    var v2 := OutputBuffer.Appended(v1, t[1]);
    AppendedAllSplit(v2, [t[2]], [t[3]]);
    AppendOne(v2, [], t[2]);
    AppendOne(OutputBuffer.Appended(v2, t[2]), [], t[3]);
    assert forall x: seq<byte> :: [] + [x] == [x];
  }

  /** The bytes an empty buffer holds after the reply was printed into it. */
  function Wire(v: OutputBuffer.Value, keep: bool, body: seq<byte>): seq<byte>
    requires OutputBuffer.Ok(v)
  {
    AppendedAll(v, ReplyTexts(body, keep)).filled
  }

  /**
   * The reply goes out byte for byte exactly when its length is not the capacity of the (empty) buffer it is
   * printed into; when it is, the last byte of the echoed path is replaced by NUL and nothing else changes.
   */
  lemma {:induction false} ReplyIntactUnlessExactFill(v: OutputBuffer.Value, keep: bool, body: seq<byte>)
    requires OutputBuffer.Ok(v) && v.filled == [] && v.length >= 69
    requires |body| < 1_000_000_000 && NUL !in body
    ensures var reply := ResponseBytes(200, ReplyHeaders(|body|, keep), body); var wire := Wire(v, keep, body);
      && (wire == reply <==> |reply| != v.length)
      && (|reply| == v.length ==> body != [] && wire == reply[..|reply| - 1] + [NUL])
  {
    hide Decimal, Reason, HeaderText, StatusLine, ReplyHeaders, HeaderTexts, ResponseTexts, AppendedAll;
    var hs := ReplyHeaders(|body|, keep);
    ReplyTextLengths(|body|, keep, body);
    var t := ResponseTexts(200, hs, body);
    AppendedFour(v, t);
    FlattenFour(t);
    ThreeFit(v, t[0], t[1], t[2]);
    var front := t[0] + t[1] + t[2];
    LastByte(body);
    LastFits(v.(filled := front), t[3]);
    assert (front + t[3])[..|front| + |t[3]| - 1] + [NUL] == front + (t[3][..|t[3]| - 1] + [NUL]);
  }

  /**
   * Whatever request was accepted and answered, a client that parses the bytes left in the buffer gets status 200, a
   * Content-Length that is the length of the body and the connection answer; and as body the path it asked for,
   * exactly unless the reply fills the buffer to its last byte.
   */
  lemma {:induction false} ReplyReadsBack(b: seq<byte>, max: nat, v: OutputBuffer.Value, capacity: nat)
    requires ParseRequest(b, max).verdict.Accepted? && capacity >= 2
    requires OutputBuffer.Ok(v) && v.filled == [] && v.length >= 69
    requires ParseRequest(b, max).path.Some? ==> ParseRequest(b, max).path.value.len < 1_000_000_000
    ensures var r := ParseRequest(b, max);
      && r.path.Some? && SliceIn(b, r.path.value) && (forall i :: 0 <= i < |r.headers| ==> HeaderIn(b, r.headers[i]))
      && var body, keep, reply := Content(b, r.path.value), KeepAlive(b, r.headers), Reply(b, r.path.value, r.headers);
      && var wire := Wire(v, keep, body);
      && |wire| == |reply| && AnswersEcho(wire, PhrParseResponse(wire, capacity, 0), body, keep)
      && (wire[|wire| - |body|..] == body <==> |reply| != v.length)
      && (|reply| == v.length ==> body != [] && wire[|wire| - |body|..] == body[..|body| - 1] + [NUL])
  {
    hide ParseRequest, ResponseBytes, ParseResponse, KeepAlive, Recovered, AnswersEcho, Wire, ReplyHeaders, Reply;
    AcceptedSlices(b, max);
    var r := ParseRequest(b, max);
    ReplyIs(b, r.path.value, r.headers);
    var keep := KeepAlive(b, r.headers);
    var body := Content(b, r.path.value);
    WireReadsBack(v, keep, body, capacity);
  }

  lemma {:induction false} WireReadsBack(v: OutputBuffer.Value, keep: bool, body: seq<byte>, capacity: nat)
    requires OutputBuffer.Ok(v) && v.filled == [] && v.length >= 69 && capacity >= 2
    requires |body| < 1_000_000_000 && NUL !in body
    ensures var reply := ResponseBytes(200, ReplyHeaders(|body|, keep), body); var wire := Wire(v, keep, body);
      && |wire| == |reply| && AnswersEcho(wire, PhrParseResponse(wire, capacity, 0), body, keep)
      && (wire[|wire| - |body|..] == body <==> |reply| != v.length)
      && (|reply| == v.length ==> body != [] && wire[|wire| - |body|..] == body[..|body| - 1] + [NUL])
  {
    hide ResponseBytes, ParseResponse, Recovered, AnswersEcho, Wire, ReplyHeaders;
    var reply, wire := ResponseBytes(200, ReplyHeaders(|body|, keep), body), Wire(v, keep, body);
    ReplyTextReadsBack(body, keep, capacity);
    ReplyIntactUnlessExactFill(v, keep, body);
    var n := |reply| - |body|;
    if |reply| == v.length {
      assert wire[..n] == reply[..n];
      assert reply[n..][..|body| - 1] == reply[n..|reply| - 1] == body[..|body| - 1];
      assert wire[n..] == reply[n..|reply| - 1] + [NUL];
      assert wire[n..][|body| - 1] == NUL;
    }
    RecoveredIsLocal(reply, wire, capacity, 200, ReplyHeaders(|body|, keep), n);
    RecoveredAnswers(wire, PhrParseResponse(wire, capacity, 0), body, keep);
  }

  /** Short texts leave the capacity alone and stand one behind the other. */
  lemma {:induction false} ThreeFit(v: OutputBuffer.Value, a: seq<byte>, b: seq<byte>, c: seq<byte>)
    requires OutputBuffer.Ok(v) && v.filled == [] && |a| + |b| + |c| < v.length
    ensures OutputBuffer.Appended(OutputBuffer.Appended(OutputBuffer.Appended(v, a), b), c) == v.(filled := a + b + c)
  {
    assert OutputBuffer.Appended(v, a) == v.(filled := a);
    assert OutputBuffer.Appended(v.(filled := a), b) == v.(filled := a + b);
  }

  /** The last text arrives whole exactly when it does not fill the room. */
  lemma {:induction false} LastFits(v: OutputBuffer.Value, text: seq<byte>)
    requires OutputBuffer.Ok(v) && text != [] && text[|text| - 1] != NUL
    ensures OutputBuffer.Appended(v, text).filled == v.filled + text <==> |text| != OutputBuffer.Room(v)
    ensures |text| == OutputBuffer.Room(v) ==>
      OutputBuffer.Appended(v, text).filled == v.filled + (text[..|text| - 1] + [NUL])
  {
    OutputBuffer.StoredIsText(v, text);
    OutputBuffer.SameFront(v.filled, OutputBuffer.Stored(v, text), v.filled, text);
  }

  lemma LastByte(body: seq<byte>)
    requires NUL !in body
    ensures (CRLF + body)[|body| + 1] != NUL
  {
  }

  lemma {:induction false} FlattenFour(t: seq<seq<byte>>)
    requires |t| == 4
    ensures Flatten(t) == t[0] + t[1] + t[2] + t[3]
  {
    assert t == [t[0]] + ([t[1]] + ([t[2]] + [t[3]]));
    FlattenConcat([t[0]], [t[1]] + ([t[2]] + [t[3]]));
    FlattenConcat([t[1]], [t[2]] + [t[3]]);
    FlattenConcat([t[2]], [t[3]]);
    FlattenOne(t[0]);
    FlattenOne(t[1]);
    FlattenOne(t[2]);
    FlattenOne(t[3]);
  }

  // ---------------------------------------------------------------- a request that loses a byte

  /** The capacity buffers start with (`BUF_SIZE`). */
  const BUF_SIZE: nat := 1024

  lemma {:induction false} ThreeDigitReplyLength(body: seq<byte>)
    requires 100 <= |body| < 1000 && NUL !in body
    ensures |ResponseBytes(200, ReplyHeaders(|body|, true), body)| == |body| + 64
  {
    hide Decimal, Reason, HeaderText, StatusLine, HeaderTexts, ResponseTexts, HeaderPrintable;
    var hs := ReplyHeaders(|body|, true);
    ReplyTextLengths(|body|, true, body);
    FlattenFour(ResponseTexts(200, hs, body));
    ThreeDigits(|body|);
    ReplyHeadersPrintable(|body|, true);
    HeaderTextLength(hs[0]);
    HeaderTextLength(hs[1]);
  }

  /** `GET` of a path of 960 letters, asking to keep the connection. */
  function LongRequest(): (h: RequestHead)
    ensures RequestOk(h)
  {
    var line := FieldLine(CONNECTION, [SP], KEEP_ALIVE, CrLf);
    assert LineOk(line);
    RequestHead(None, [71, 69, 84], Repeat(97, 960), 1, CrLf, [line], CrLf)
  }

  /** What the server reads from it, whatever stands behind it in the buffer. */
  lemma {:induction false} LongRequestRead(tail: seq<byte>, max: nat)
    requires max >= 1
    ensures var b := RequestText(LongRequest()) + tail; var r := ParseRequest(b, max);
      && r.verdict.Accepted? && r.path.Some? && SliceIn(b, r.path.value) && Content(b, r.path.value) == Repeat(97, 960)
      && (forall i :: 0 <= i < |r.headers| ==> HeaderIn(b, r.headers[i])) && KeepAlive(b, r.headers)
  {
    hide ParseRequest, RequestText, RequestLineText, LineStart;
    var h := LongRequest();
    var b := RequestText(h) + tail;
    ParsesRequestText(b, h, max);
    RequestFieldsHold(b, h);
    AcceptedSlices(b, max);
    var hs, line := ParseRequest(b, max).headers, |RequestLineText(h)|;
    assert HeaderHolds(b, hs[0], h.lines[0], LineStart(h.lines, line, 0), LineStart(h.lines, line, 1));
    assert AsksKeepAlive(b, hs[0]);
  }

  /** A real input in the failing case: its reply fills a new buffer exactly, and ends in NUL. */
  lemma {:induction false} LastByteIsLost(tail: seq<byte>, max: nat)
    requires max >= 1
    ensures var b := RequestText(LongRequest()) + tail; var r := ParseRequest(b, max);
      && r.verdict.Accepted? && r.path.Some? && SliceIn(b, r.path.value)
      && (forall i :: 0 <= i < |r.headers| ==> HeaderIn(b, r.headers[i]))
      && var reply := Reply(b, r.path.value, r.headers);
      && var v := OutputBuffer.Value(BUF_SIZE, 0, 0, []);
      && |reply| == BUF_SIZE && reply[BUF_SIZE - 1] == 97
      && Wire(v, KeepAlive(b, r.headers), Content(b, r.path.value)) == reply[..BUF_SIZE - 1] + [NUL]
  {
    hide ParseRequest, RequestText, ResponseBytes, Wire, ReplyHeaders, KeepAlive, Reply;
    var body := Repeat(97, 960);
    LongRequestRead(tail, max);
    var b := RequestText(LongRequest()) + tail;
    ReplyIs(b, ParseRequest(b, max).path.value, ParseRequest(b, max).headers);
    ThreeDigitReplyLength(body);
    ReplyIntactUnlessExactFill(OutputBuffer.Value(BUF_SIZE, 0, 0, []), true, body);
    ReplyTextReadsBack(body, true, 2);
    var reply := ResponseBytes(200, ReplyHeaders(960, true), body);
    assert reply[64..][959] == body[959];
  }

  // ---------------------------------------------------------------- request and reply in characters

  /** The reply as a client sees it. */
  function ReplyChars(body: seq<byte>, keep: bool): seq<byte> {
    Ascii("HTTP/1.1 200 Ok\r\nContent-Length: ") + Decimal(|body|)
    + Ascii("\r\nConnection: ") + Ascii(if keep then "keep-alive" else "close") + Ascii("\r\n\r\n") + body
  }

  lemma {:induction false} AsciiConcat(s: string, t: string)
    ensures Ascii(s + t) == Ascii(s) + Ascii(t)
  {
  }

  /** The status line of every response. */
  lemma {:induction false} StatusLineChars(status: nat)
    ensures StatusLine(status) ==
            Ascii("HTTP/1.1 ") + Decimal(status) + Ascii(" ") + Ascii(Reason(status)) + Ascii("\r\n")
  {
    hide Reason, Decimal;
    assert Ascii("HTTP/1.1 ") == [72, 84, 84, 80, 47, 49, 46, 49, 32];
    assert Ascii(" ") == [32] && Ascii("\r\n") == [13, 10];
  }

  /** The one the server sends. */
  lemma {:induction false} OkLineChars()
    ensures StatusLine(200) == Ascii("HTTP/1.1 200 Ok\r\n")
  {
    hide Reason, Decimal;
    ReasonOk();
    TwoHundred();
    StatusLineChars(200);
    var s: seq<byte> := [72, 84, 84, 80, 47, 49, 46, 49, 32, 50, 48, 48, 32, 79, 107, 13, 10];
    assert Ascii("HTTP/1.1 200 Ok\r\n") == s;
    assert Ascii("HTTP/1.1 ") + [50, 48, 48] + Ascii(" ") + Ascii("Ok") + Ascii("\r\n") == s;
  }

  lemma {:induction false} TwoHundred()
    ensures Decimal(200) == [50, 48, 48]
  {
    assert Decimal(2) == [50] && Decimal(20) == [50] + [48];
  }

  lemma {:induction false} HeaderLiterals()
    ensures Ascii("\r\n") == CRLF && Ascii("Content-Length: ") == Ascii("Content-Length") + [COLON, SP]
    ensures Ascii("\r\nConnection: ") == CRLF + Ascii("Connection") + [COLON, SP]
    ensures Ascii("\r\n\r\n") == CRLF + CRLF
    ensures Ascii("HTTP/1.1 200 Ok\r\nContent-Length: ") == Ascii("HTTP/1.1 200 Ok\r\n") + Ascii("Content-Length: ")
  {
    AsciiConcat("HTTP/1.1 200 Ok\r\n", "Content-Length: ");
    AsciiConcat("\r\n", "Connection: ");
    AsciiConcat("Connection", ": ");
    AsciiConcat("Content-Length", ": ");
    AsciiConcat("\r\n", "\r\n");
    assert Ascii(": ") == [COLON, SP] && Ascii("\r\n") == CRLF;
    assert "\r\nConnection: " == "\r\n" + "Connection: " && "Connection: " == "Connection" + ": ";
    assert "\r\n\r\n" == "\r\n" + "\r\n" && "Content-Length: " == "Content-Length" + ": ";
    assert "HTTP/1.1 200 Ok\r\nContent-Length: " == "HTTP/1.1 200 Ok\r\n" + "Content-Length: ";
  }

  lemma {:induction false} HeaderTextChars(h: OutHeader)
    requires HeaderPrintable(h)
    ensures HeaderText(h) == h.name + [COLON, SP] + h.value + CRLF
  {
    HeaderTextIsLine(h);
    FieldRegroup(ToLine(h));
  }

  lemma {:induction false} ReplyInCharacters(body: seq<byte>, keep: bool)
    requires NUL !in body
    ensures ResponseBytes(200, ReplyHeaders(|body|, keep), body) == ReplyChars(body, keep)
  {
    hide Ascii, Decimal, Reason, StatusLine, HeaderText, HeaderPrintable, HeaderTexts, Printed;
    var hs := ReplyHeaders(|body|, keep);
    PrintedWhole(body);
    TwoHeaderTexts(hs[0], hs[1]);
    FlattenFour(ResponseTexts(200, hs, body));
    ReplyHeadersPrintable(|body|, keep);
    HeaderTextChars(hs[0]);
    HeaderTextChars(hs[1]);
    ReplyWords(keep);
    OkLineChars();
    HeaderLiterals();
    Regroup(StatusLine(200), hs[0], hs[1], [COLON, SP], CRLF, body);
  }

  lemma {:induction false} Regroup(line: seq<byte>, a: OutHeader, b: OutHeader, colon: seq<byte>, eol: seq<byte>,
      body: seq<byte>)
    ensures line + (a.name + colon + a.value + eol) + (b.name + colon + b.value + eol) + (eol + body) ==
            (line + (a.name + colon)) + a.value + (eol + b.name + colon) + b.value + (eol + eol) + body
  {
  }

  /** No number is printed with a leading zero. */
  lemma {:induction false} DecimalLeads(n: nat)
    requires n > 0
    ensures Decimal(n)[0] != 48
  {
    if n >= 10 {
      DecimalLeads(n / 10);
    }
  }

  predicate AsksPlainly(hs: seq<(seq<byte>, seq<byte>)>) {
    exists k :: 0 <= k < |hs| && hs[k] == (Ascii("Connection"), Ascii("Keep-Alive"))
  }

  /**
   * From characters to characters: `GET`, a path and headers as a client writes them, whatever stands behind them in
   * the buffer, are answered by the echo of the path, with keep-alive exactly if one of the headers asks for it.
   */
  lemma {:induction false} EchoInCharacters(path: seq<byte>, hs: seq<(seq<byte>, seq<byte>)>, tail: seq<byte>, max: nat)
    requires forall i :: 0 <= i < |path| ==> Between(path[i], '!', '~')
    requires forall i :: 0 <= i < |hs| ==> PlainHeader(hs[i])
    requires |hs| <= max
    ensures var b := PlainRequest(path, hs) + tail; var r := PhrParseRequest(b, max, 0);
      && r.verdict == Accepted(|PlainRequest(path, hs)|) && r.path.Some? && SliceIn(b, r.path.value)
      && (forall i :: 0 <= i < |r.headers| ==> HeaderIn(b, r.headers[i]))
      && Reply(b, r.path.value, r.headers) ==
         ReplyChars(path, AsksPlainly(hs))
  {
    hide ParseRequest, RequestText, RequestLineText, PlainRequest, Ascii, PlainHeader, KeepAlive, ResponseBytes;
    hide ReplyChars, LinesOk, Reply;
    var b, h := PlainRequest(path, hs) + tail, PlainHead(path, hs);
    PlainRequestAccepted(path, hs, tail, max);
    PlainIsHead(path, hs);
    KeepAliveExactly(b, h, max);
    PlainKeepAlive(path, hs);
    ReplyIs(b, ParseRequest(b, max).path.value, ParseRequest(b, max).headers);
    ReplyInCharacters(path, AsksPlainly(hs));
  }

  lemma {:induction false} PlainKeepAlive(path: seq<byte>, hs: seq<(seq<byte>, seq<byte>)>)
    ensures SaysKeepAlive(PlainHead(path, hs)) <==> AsksPlainly(hs)
  {
    hide Ascii;
    var h := PlainHead(path, hs);
    if AsksPlainly(hs) {
      var k :| 0 <= k < |hs| && hs[k] == (Ascii("Connection"), Ascii("Keep-Alive"));
      assert h.lines[k].name == hs[k].0;
    }
  }
}
