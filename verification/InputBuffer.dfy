/** The growable buffer requests are read into, and the parse of its contents. */
module InputBuffer {
  import opened Bytes
  import opened Options
  import opened HeadSpec
  import opened HeadGrammar
  import opened HeadStability
  import opened HeadPartial
  import HeadParser

  /** What `read` finds: bytes (none at the end of the stream), would block, or another error. */
  datatype ReadResult = Arrived(bytes: seq<byte>) | WouldBlock | Failed

  datatype ReadState = ReadFinish | ReadBusy | ReadError | ClientDisconnect

  datatype ParseState = ParseFinish | ParseError | ParseIncomplete

  function Arrivals(script: seq<ReadResult>): seq<byte> {
    if script == [] then []
    else (if script[0].Arrived? then script[0].bytes else []) + Arrivals(script[1..])
  }

  /** The bytes in front of the first answer that is no data. */
  function Leading(script: seq<ReadResult>): (r: seq<byte>)
    ensures r <= Arrivals(script)
  {
    if script == [] || !script[0].Arrived? || script[0].bytes == [] then []
    else script[0].bytes + Leading(script[1..])
  }

  /** The first answer that is no data is the end of the stream or an error; a socket with nothing left would block. */
  predicate EndsOrFails(script: seq<ReadResult>) {
    if script == [] || script[0].WouldBlock? then false
    else if script[0].Failed? || script[0].bytes == [] then true
    else EndsOrFails(script[1..])
  }

  /** One `read` with `room` bytes to fill: its answer, and what the socket still holds. */
  function ReadSocket(script: seq<ReadResult>, room: nat): (r: (ReadResult, seq<ReadResult>))
    ensures r.0.Arrived? ==> |r.0.bytes| <= room && Arrivals(script) == r.0.bytes + Arrivals(r.1)
    ensures r.0.Arrived? && r.0.bytes != [] ==>
      Leading(script) == r.0.bytes + Leading(r.1) && EndsOrFails(script) == EndsOrFails(r.1)
    ensures room > 0 && !(r.0.Arrived? && r.0.bytes != []) ==>
      Leading(script) == [] && (EndsOrFails(script) <==> !r.0.WouldBlock?)
  {
    if script == [] then (WouldBlock, [])
    else if !script[0].Arrived? || |script[0].bytes| <= room then (script[0], script[1..])
    else
      var bytes := script[0].bytes;
      var rest := [Arrived(bytes[room..])] + script[1..];
      assert rest[1..] == script[1..];
      assert bytes[..room] + (bytes[room..] + Arrivals(script[1..])) == bytes + Arrivals(script[1..]);
      assert bytes[..room] + (bytes[room..] + Leading(script[1..])) == bytes + Leading(script[1..]);
      (Arrived(bytes[..room]), rest)
  }

  class Buffer {
    var data: array<byte>
    var offset: nat
    var resizeCount: nat

    ghost predicate Valid()
      reads this
    {
      offset <= data.Length
    }

    /** The bytes read since the last reset. */
    ghost function Received(): seq<byte>
      reads this, data
      requires Valid()
    {
      data[..offset]
    }

    constructor (size: nat)
      ensures Valid() && fresh(data) && data.Length == size && Received() == [] && resizeCount == 0
    {
      data := new byte[size];
      offset, resizeCount := 0, 0;
    }

    method Reset()
      requires Valid()
      modifies this`offset
      ensures Valid() && Received() == [] && data[..] == old(data[..])
    {
      offset := 0;
    }

    /** Doubles a full buffer. */
    method Resize()
      requires Valid()
      modifies this
      ensures Valid() && Received() == old(Received()) && offset == old(offset)
      ensures data.Length == (if old(offset == data.Length) then 2 * old(data.Length) else old(data.Length))
      ensures data == old(data) || fresh(data)
      ensures offset == data.Length ==> data.Length == 0
    {
      if offset == data.Length {
        var bigger := new byte[data.Length * 2];
        forall k | 0 <= k < offset {
          bigger[k] := data[k];
        }
        data := bigger;
        resizeCount := resizeCount + 1;
      }
    }

    /** The bytes one `read` delivers. */
    method Store(bytes: seq<byte>)
      requires Valid() && offset + |bytes| <= data.Length
      modifies this`offset, data
      ensures Valid() && Received() == old(Received()) + bytes
    {
      forall k | 0 <= k < |bytes| {
        data[offset + k] := bytes[k];
      }
      offset := offset + |bytes|;
    }

    /**
     * Reads until the socket would block, ends or fails. Whatever doublings that takes, the buffer keeps what it had,
     * followed by the bytes that arrived, and room for at least one more. The states for a finished read and a
     * disconnect are never returned: an ended stream is an error. A buffer of no capacity cannot grow and fails.
     */
    method ReadInto(script: seq<ReadResult>) returns (state: ReadState, got: seq<byte>)
      requires Valid()
      modifies this, data
      ensures Valid() && (data == old(data) || fresh(data)) && data.Length >= old(data.Length)
      ensures Received() == old(Received()) + got && got <= Arrivals(script)
      ensures state == ReadBusy || state == ReadError
      ensures old(data.Length) > 0 ==>
        (state == ReadError <==> EndsOrFails(script)) && got == Leading(script) && offset < data.Length
    {
      hide Arrivals, Leading, EndsOrFails, ReadSocket;
      got := [];
      var socket := script;
      ghost var had := Received();
      while true
        invariant Valid() && (data == old(data) || fresh(data)) && data.Length >= old(data.Length)
        invariant Arrivals(script) == got + Arrivals(socket)
        invariant Leading(script) == got + Leading(socket) && EndsOrFails(script) == EndsOrFails(socket)
        invariant Received() == had + got
        decreases |Arrivals(socket)|
      {
        Resize();
        var (answer, socket') := ReadSocket(socket, data.Length - offset);
        match answer {
          case WouldBlock => return ReadBusy, got;
          case Failed => return ReadError, got;
          case Arrived(bytes) =>
            if bytes == [] { return ReadError, got; }
            Store(bytes);
            assert got + (bytes + Arrivals(socket')) == (got + bytes) + Arrivals(socket');
            assert got + (bytes + Leading(socket')) == (got + bytes) + Leading(socket');
            got, socket := got + bytes, socket';
        }
      }
    }
  }

  /** A complete request followed by the end of the stream is a read error, though the parser would accept it. */
  lemma {:induction false} CompleteThenEnd(h: RequestHead, tail: seq<byte>)
    requires RequestOk(h) && |h.lines| <= NUM_HEADERS
    ensures var script := [Arrived(RequestText(h)), Arrived([])];
      && EndsOrFails(script) && Leading(script) == RequestText(h)
      && ParseRequest(Leading(script) + tail, NUM_HEADERS).verdict == Accepted(|RequestText(h)|)
  {
    hide ParseRequest;
    var script := [Arrived(RequestText(h)), Arrived([])];
    assert RequestText(h) != [] by { RequestLineLength(h); }
    assert script[1..] == [Arrived([])];
    assert Leading(script) == RequestText(h) + [];
    ParsesRequestText(RequestText(h) + tail, h, NUM_HEADERS);
  }

  /** Header capacity of a connection's request record (`NUM_HEADERS`). */
  const NUM_HEADERS: nat := 100

  function StateOf(v: Verdict): ParseState {
    match v
    case Accepted(_) => ParseFinish
    case Rejected => ParseError
    case Incomplete => ParseIncomplete
  }

  class HttpRequest {
    var fields: Request
    var numHeaders: nat

    constructor ()
      ensures numHeaders == 100
    {
      fields, numHeaders := NO_REQUEST, NUM_HEADERS;
    }

    /**
     * Hands the whole capacity of the buffer to the parser, not only the bytes received, and the header count of
     * the last parse as the capacity of this one. On a first parse the bytes received decide as soon as their own
     * verdict is definite.
     */
    method Parse(buffer: Buffer, prevLen: nat, sse: bool) returns (state: ParseState)
      requires buffer.Valid() && prevLen <= buffer.data.Length
      modifies this
      ensures fields == PhrParseRequest(buffer.data[..], old(numHeaders), prevLen) && state == StateOf(fields.verdict)
      ensures numHeaders == |fields.headers| <= old(numHeaders)
      ensures prevLen == 0 && ParseRequest(buffer.Received(), old(numHeaders)).verdict != Incomplete ==>
        fields == ParseRequest(buffer.Received(), old(numHeaders))
    {
      hide ParseRequest, IsComplete;
      var max := numHeaders;
      fields := HeadParser.PhrRequest(buffer.data[..], numHeaders, prevLen, sse);
      numHeaders := |fields.headers|;
      state := StateOf(fields.verdict);
      ghost var received := buffer.Received();
      if prevLen == 0 && ParseRequest(received, max).verdict != Incomplete {
        RequestVerdictStable(received, buffer.data[buffer.offset..], max);
        assert buffer.data[..] == received + buffer.data[buffer.offset..];
      }
    }
  }

  /**
   * `try_parse_http_request`: one round of reading and parsing. What was received stays received; a socket that ends
   * or fails closes the connection whatever arrived before; otherwise the parse decides, and on the first round of a
   * request the bytes received decide alone once their verdict is definite.
   */
  method TryParse(buffer: Buffer, request: HttpRequest, script: seq<ReadResult>, sse: bool)
      returns (state: ReadState, got: seq<byte>)
    requires buffer.Valid()
    modifies buffer, buffer.data, request
    ensures buffer.Valid() && (buffer.data == old(buffer.data) || fresh(buffer.data))
    ensures buffer.Received() == old(buffer.Received()) + got && got <= Arrivals(script)
    ensures old(buffer.data.Length) > 0 && EndsOrFails(script) ==>
      state == ReadError && request.fields == old(request.fields)
    ensures old(buffer.data.Length) > 0 && !EndsOrFails(script) ==>
      && request.fields == PhrParseRequest(buffer.data[..], old(request.numHeaders), old(buffer.offset))
      && request.numHeaders == |request.fields.headers|
      && (state == ReadError <==> request.fields.verdict == Rejected)
    ensures old(buffer.data.Length) > 0 ==> got == Leading(script)
    ensures request.numHeaders <= old(request.numHeaders)
    ensures state == ReadFinish ==> request.fields.verdict.Accepted? && request.fields.verdict.n <= buffer.data.Length
    ensures state == ReadBusy ==> request.fields.verdict == Incomplete
    ensures state != ClientDisconnect
    ensures state != ReadError && old(buffer.Received()) == [] ==>
      var v := ParseRequest(buffer.Received(), old(request.numHeaders));
      && v.verdict != Rejected
      && (v.verdict.Accepted? ==> state == ReadFinish && request.fields == v)
  {
    var prevLen := buffer.offset;
    var max := request.numHeaders;
    var readState;
    readState, got := buffer.ReadInto(script);
    if readState == ReadError {
      return ReadError, got;
    }
    var parseState := request.Parse(buffer, prevLen, sse);
    hide ParseRequest, IsComplete;
    AcceptedWithin(buffer.data[..], max);
    state :=
      match parseState
      case ParseFinish => ReadFinish
      case ParseError => ReadError
      case ParseIncomplete => ReadBusy;
  }

  lemma {:induction false} AcceptedWithin(b: seq<byte>, max: nat)
    ensures ParseRequest(b, max).verdict.Accepted? ==> ParseRequest(b, max).verdict.n <= |b|
  {
  }

  // ---------------------------------------------------------------- what the stale tail can do

  lemma {:induction false} ScanIntoTail(b: seq<byte>, i: nat, stop: byte -> bool, n: nat)
    requires n > 0 && i <= |b| && Scan(b, i, stop) == |b| && stop(NUL)
    ensures Scan(b + Repeat(NUL, n), i, stop) == |b|
  {
    assert (b + Repeat(NUL, n))[|b|] == NUL;
    assert forall k :: i <= k < |b| ==> (b + Repeat(NUL, n))[k] == b[k];
  }

  lemma {:induction false} EolTail(b: seq<byte>, i: nat, n: nat)
    requires n > 0 && i <= |b| && Eol(b, i) == More
    ensures Eol(b + Repeat(NUL, n), i) == Reject
  {
  }

  lemma {:induction false} TokenTail(b: seq<byte>, i: nat, n: nat)
    requires n > 0 && i <= |b| && Token(b, i) == More
    ensures Token(b + Repeat(NUL, n), i) == Reject
  {
    ScanIntoTail(b, i, TokenStop, n);
  }

  lemma {:induction false} ToEolTail(b: seq<byte>, i: nat, n: nat)
    requires n > 0 && i <= |b| && ToEol(b, i) == More
    ensures ToEol(b + Repeat(NUL, n), i) == Reject
  {
    var j := Scan(b, i, EolStop);
    if j == |b| {
      ScanIntoTail(b, i, EolStop, n);
    } else {
      ScanExt(b, Repeat(NUL, n), i, EolStop);
    }
    EolTail(b, j, n);
  }

  lemma {:induction false} FieldTail(b: seq<byte>, i: nat, n: nat)
    requires n > 0 && i <= |b| && Field(b, i) == More
    ensures Field(b + Repeat(NUL, n), i) == Reject
  {
    hide ToEol;
    var name := Name(b, i);
    if name.More? {
      ScanIntoTail(b, i, NameStop, n);
    } else {
      ScanExt(b, Repeat(NUL, n), i, NameStop);
      var k := Scan(b, name.next, NotBlank);
      if k == |b| {
        ScanIntoTail(b, name.next, NotBlank, n);
      } else {
        ScanExt(b, Repeat(NUL, n), name.next, NotBlank);
      }
      ToEolTail(b, k, n);
    }
  }

  lemma {:induction false} LineTail(b: seq<byte>, i: nat, first: bool, n: nat)
    requires n > 0 && i < |b| && Line(b, i, first) == More
    ensures Line(b + Repeat(NUL, n), i, first) == Reject
  {
    hide Field, ToEol;
    if first || !Blank(b[i]) {
      FieldTail(b, i, n);
    } else {
      ToEolTail(b, i, n);
    }
  }

  lemma {:induction false} NulLine(b: seq<byte>, first: bool, n: nat)
    requires n > 0
    ensures Line(b + Repeat(NUL, n), |b|, first) == Reject
  {
    assert (b + Repeat(NUL, n))[|b|] == NUL;
    assert Scan(b + Repeat(NUL, n), |b|, NameStop) == |b|;
  }

  lemma {:induction false} HeadersTail(b: seq<byte>, i: nat, hs: seq<Header>, max: nat, n: nat)
    requires n > 0 && i <= |b| && Headers(b, i, hs, max).end == More
    ensures Headers(b + Repeat(NUL, n), i, hs, max).end == Reject
    decreases |b| - i
  {
    hide Line, Eol;
    if i == |b| {
      assert (b + Repeat(NUL, n))[i] == NUL;
      NulLine(b, hs == [], n);
    } else if b[i] == CR || b[i] == LF {
      EolTail(b, i, n);
    } else {
      var r := Line(b, i, hs == []);
      if r.More? {
        LineTail(b, i, hs == [], n);
      } else {
        LineExt(b, Repeat(NUL, n), i, hs == []);
        HeadersTail(b, r.next, hs + [r.value], max, n);
      }
    }
  }

  lemma {:induction false} RequestRestTail(b: seq<byte>, i: nat, so: Request, max: nat, n: nat)
    requires n > 0 && i <= |b| && so.verdict == Incomplete && RequestRest(b, i, so, max).verdict == Incomplete
    requires |b| - i + n >= 9
    ensures RequestRest(b + Repeat(NUL, n), i, so, max).verdict == Rejected
  {
    hide Eol, Headers;
    var v := Version(b, i);
    if v.More? {
      var w := Version(b + Repeat(NUL, n), i);
      if w.Got? {
        assert (b + Repeat(NUL, n))[w.next - 1] != NUL;
        assert w.next == |b|;
        EolTail(b, |b|, n) by { EolAtEnd(b); }
      }
    } else {
      VersionExt(b, Repeat(NUL, n), i);
      if Eol(b, v.next).More? {
        EolTail(b, v.next, n);
      } else {
        EolExt(b, Repeat(NUL, n), v.next);
        HeadersTail(b, Eol(b, v.next).next, [], max, n);
      }
    }
  }

  lemma {:induction false} EolAtEnd(b: seq<byte>)
    ensures Eol(b, |b|) == More
  {
  }

  /** Even `n` more bytes do not bring the version to the nine bytes the parser wants to see. */
  predicate VersionTooShort(b: seq<byte>, n: nat) {
    VersionIndex(b).Some? && |b| - VersionIndex(b).value + n < 9
  }

  /** Bytes that leave the verdict open are rejected once NULs stand behind them, enough to fill a version. */
  lemma {:induction false} NulTailRejects(b: seq<byte>, max: nat, n: nat)
    requires n > 0 && ParseRequest(b, max).verdict == Incomplete && !VersionTooShort(b, n)
    ensures ParseRequest(b + Repeat(NUL, n), max).verdict == Rejected
  {
    hide Eol, Token, RequestRest;
    if b == [] {
      assert (b + Repeat(NUL, n))[0] == NUL;
      EmptyTokenTail(b, n);
    } else if (b[0] == CR || b[0] == LF) && Eol(b, 0).More? {
      EolTail(b, 0, n);
    } else {
      if b[0] == CR || b[0] == LF {
        EolExt(b, Repeat(NUL, n), 0);
      }
      var i := OptionalEol(b, 0).next;
      var verb := Token(b, i);
      if verb.More? {
        TokenTail(b, i, n);
      } else {
        TokenExt(b, Repeat(NUL, n), i);
        var path := Token(b, verb.next);
        if path.More? {
          TokenTail(b, verb.next, n);
        } else {
          TokenExt(b, Repeat(NUL, n), verb.next);
          RequestRestTail(b, path.next, NO_REQUEST.(verb := Some(verb.value), path := Some(path.value)), max, n);
        }
      }
    }
  }

  lemma {:induction false} EmptyTokenTail(b: seq<byte>, n: nat)
    requires n > 0
    ensures Token(b + Repeat(NUL, n), |b|) == Reject
  {
    assert Token(b, |b|) == More;
    TokenTail(b, |b|, n);
  }

  lemma {:induction false} TooShortStaysOpen(b: seq<byte>, tail: seq<byte>, max: nat)
    requires VersionTooShort(b, |tail|)
    ensures ParseRequest(b, max).verdict == Incomplete && ParseRequest(b + tail, max).verdict == Incomplete
  {
    hide Eol, Token;
    if b[0] == CR || b[0] == LF {
      EolExt(b, tail, 0);
    }
    var i := OptionalEol(b, 0).next;
    TokenExt(b, tail, i);
    TokenExt(b, tail, Token(b, i).next);
  }

  /**
   * The `n` bytes of the buffer behind the received ones cannot change the verdict exactly when it is definite, or when
   * they are too few for the version to be looked at. In every other case leftovers of the memory the buffer happens to
   * lie in decide.
   */
  lemma {:induction false} DecidedExactlyWhenDefinite(received: seq<byte>, max: nat, n: nat)
    requires n > 0
    ensures (forall tail: seq<byte> | |tail| == n ::
               ParseRequest(received + tail, max).verdict == ParseRequest(received, max).verdict)
            <==> ParseRequest(received, max).verdict != Incomplete || VersionTooShort(received, n)
  {
    hide ParseRequest, VersionTooShort;
    if ParseRequest(received, max).verdict == Incomplete && !VersionTooShort(received, n) {
      NulTailRejects(received, max, n);
      assert ParseRequest(received + Repeat(NUL, n), max).verdict != ParseRequest(received, max).verdict;
    } else {
      forall tail: seq<byte> | |tail| == n
        ensures ParseRequest(received + tail, max).verdict == ParseRequest(received, max).verdict
      {
        if VersionTooShort(received, n) {
          TooShortStaysOpen(received, tail, max);
        } else {
          RequestVerdictStable(received, tail, max);
        }
      }
    }
  }

  /** A request accepted has bytes in it that were never received exactly when those received are open. */
  lemma {:induction false} ConsumesUnreceived(received: seq<byte>, tail: seq<byte>, max: nat, lastLen: nat)
    requires lastLen <= |received|
    requires PhrParseRequest(received + tail, max, lastLen).verdict.Accepted?
    ensures PhrParseRequest(received + tail, max, lastLen).verdict.n > |received| <==>
            ParseRequest(received, max).verdict == Incomplete
  {
    hide ParseRequest, IsComplete;
    var b := received + tail;
    var n := ParseRequest(b, max).verdict.n;
    if ParseRequest(received, max).verdict != Incomplete {
      RequestVerdictStable(received, tail, max);
    } else if n <= |received| {
      assert received[..n] == b[..n];
      AcceptedRequestIsLocal(b, received, max);
      assert false;
    }
  }

  /**
   * That happens: the reset of a kept connection leaves the bytes of its last request in place, and they complete the
   * first bytes of the next one, whenever the two requests are alike from there on.
   */
  lemma {:induction false} LeftoversComplete(h: RequestHead, h': RequestHead, p: nat, junk: seq<byte>)
    requires RequestOk(h) && RequestOk(h') && |h'.lines| <= |h.lines|
    requires |RequestText(h)| == |RequestText(h')| && p < |RequestText(h')|
    requires RequestText(h)[p..] == RequestText(h')[p..]
    ensures var memory := RequestText(h')[..p] + (RequestText(h) + junk)[p..];
      && PhrParseRequest(memory, |h.lines|, 0) == RequestFields(h')
      && ParseRequest(RequestText(h')[..p], |h.lines|).verdict == Incomplete
  {
    hide ParseRequest, RequestText, LinesOk;
    var t, t', tail := RequestText(h), RequestText(h'), (RequestText(h) + junk)[p..];
    assert tail == t[p..] + junk;
    assert t'[..p] + tail == t' + junk;
    ParsesRequestText(t'[..p] + tail, h', |h.lines|);
    ConsumesUnreceived(t'[..p], tail, |h.lines|, 0);
  }
}
