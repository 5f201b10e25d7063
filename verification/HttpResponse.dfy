/** The response printer, and the proof that the response parser undoes it. */
module HttpResponse {
  import opened Bytes
  import opened Options
  import opened HeadSpec
  import opened HeadGrammar
  import opened OutputBuffer

  /** A header to print; the lengths of the source's struct are the lengths of the sequences. */
  datatype OutHeader = OutHeader(name: seq<byte>, value: seq<byte>)

  predicate Plain(s: string) { forall i :: 0 <= i < |s| ==> ' ' <= s[i] <= 'z' }

  /** `get_reason`: the reason phrase table, class by class. */
  function Reason(status: int): (r: string)
    ensures Plain(r)
  {
    if status < 200 then Informational(status)
    else if status < 204 then Success(status)
    else if status < 300 then LaterSuccess(status)
    else if status < 400 then Redirection(status)
    else if status < 405 then ClientError(status)
    else if status < 500 then LaterClientError(status)
    else if status < 503 then ServerError(status)
    else LaterServerError(status)
  }

  function Informational(status: int): (r: string)
    ensures Plain(r)
  {
    match status
    case 100 => "Continue"
    case 101 => "Switching Protocols"
    case _ => "Other"
  }

  function Success(status: int): (r: string)
    ensures Plain(r)
  {
    match status
    case 200 => "Ok"
    case 201 => "Created"
    case 202 => "Accepted"
    case 203 => "Non-Authoritative Information"
    case _ => "Other"
  }

  function LaterSuccess(status: int): (r: string)
    ensures Plain(r)
  {
    match status
    case 204 => "No Content"
    case 205 => "Reset Content"
    case 206 => "Partial Content"
    case _ => "Other"
  }

  function Redirection(status: int): (r: string)
    ensures Plain(r)
  {
    match status
    case 300 => "Multiple Choices"
    case 301 => "Moved Permanently"
    case 302 => "Found"
    case 303 => "See Other"
    case 304 => "Not Modified"
    case 305 => "Use Proxy"
    case 307 => "Temporary Redirect"
    case _ => "Other"
  }

  function ClientError(status: int): (r: string)
    ensures Plain(r)
  {
    match status
    case 400 => "Bad Request"
    case 401 => "Unauthorized"
    case 402 => "Payment Required"
    case 403 => "Forbidden"
    case 404 => "Not Found"
    case _ => "Other"
  }

  function LaterClientError(status: int): (r: string)
    ensures Plain(r)
  {
    match status
    case 405 => "Method Not Allowed"
    case 406 => "Not Acceptable"
    case 407 => "Proxy Authentication Required"
    case 408 => "Request Time-out"
    case 409 => "Conflict"
    case 410 => "Gone"
    case _ => "Other"
  }

  function ServerError(status: int): (r: string)
    ensures Plain(r)
  {
    match status
    case 500 => "Internal Server Error"
    case 501 => "Not Implemented"
    case 502 => "Bad Gateway"
    case _ => "Other"
  }

  function LaterServerError(status: int): (r: string)
    ensures Plain(r)
  {
    match status
    case 503 => "Service Unavailable"
    case 504 => "Gateway Time-out"
    case 505 => "HTTP Version not supported"
    case _ => "Other"
  }

  /** The codes the printer has a phrase for. */
  predicate Listed(status: int) {
    || 100 <= status <= 101 || 200 <= status <= 206 || 300 <= status <= 305 || status == 307
    || 400 <= status <= 410 || 500 <= status <= 505
  }

  lemma {:induction false} ReasonListed(status: int)
    ensures Reason(status) != "Other" <==> Listed(status)
  {
    hide Plain;
  }

  /** The code a phrase stands for: the table of section 6.1.1 of RFC 2616, read from right to left, with Ok for OK. */
  function StatusOf(phrase: string): Option<int> {
    match |phrase|
    case 2 =>
      if phrase == "Ok" then Some(200) else None
    case 4 =>
      if phrase == "Gone" then Some(410) else None
    case 5 =>
      if phrase == "Found" then Some(302) else None
    case 7 =>
      if phrase == "Created" then Some(201) else None
    case 8 =>
      if phrase == "Continue" then Some(100)
      else if phrase == "Accepted" then Some(202)
      else if phrase == "Conflict" then Some(409) else None
    case 9 =>
      if phrase == "See Other" then Some(303)
      else if phrase == "Use Proxy" then Some(305)
      else if phrase == "Forbidden" then Some(403)
      else if phrase == "Not Found" then Some(404) else None
    case 10 =>
      if phrase == "No Content" then Some(204) else None
    case 11 =>
      if phrase == "Bad Request" then Some(400)
      else if phrase == "Bad Gateway" then Some(502) else None
    case 12 =>
      if phrase == "Not Modified" then Some(304)
      else if phrase == "Unauthorized" then Some(401) else None
    case 13 =>
      if phrase == "Reset Content" then Some(205) else None
    case 14 =>
      if phrase == "Not Acceptable" then Some(406) else None
    case 15 =>
      if phrase == "Partial Content" then Some(206)
      else if phrase == "Not Implemented" then Some(501) else None
    case 16 =>
      if phrase == "Multiple Choices" then Some(300)
      else if phrase == "Payment Required" then Some(402)
      else if phrase == "Request Time-out" then Some(408)
      else if phrase == "Gateway Time-out" then Some(504) else None
    case 17 =>
      if phrase == "Moved Permanently" then Some(301) else None
    case 18 =>
      if phrase == "Temporary Redirect" then Some(307)
      else if phrase == "Method Not Allowed" then Some(405) else None
    case 19 =>
      if phrase == "Switching Protocols" then Some(101)
      else if phrase == "Service Unavailable" then Some(503) else None
    case 21 =>
      if phrase == "Internal Server Error" then Some(500) else None
    case 26 =>
      if phrase == "HTTP Version not supported" then Some(505) else None
    case 29 =>
      if phrase == "Non-Authoritative Information" then Some(203)
      else if phrase == "Proxy Authentication Required" then Some(407) else None
    case _ => None
  }

  /** The phrase of a code tells the code: every listed code has the phrase of the table, any other code has none. */
  lemma {:induction false} ReasonReadsBack(status: int)
    ensures StatusOf(Reason(status)) == if Listed(status) then Some(status) else None
  {
    hide Plain, StatusOf, Informational, Success, LaterSuccess, Redirection;
    hide ClientError, LaterClientError, ServerError, LaterServerError;
    InformationalReadsBack(status);
    SuccessReadsBack(status);
    LaterSuccessReadsBack(status);
    RedirectionReadsBack(status);
    ClientErrorReadsBack(status);
    LaterClientErrorReadsBack(status);
    ServerErrorReadsBack(status);
    LaterServerErrorReadsBack(status);
  }

  lemma {:induction false} InformationalReadsBack(status: int)
    ensures StatusOf(Informational(status)) == if 100 <= status <= 101 then Some(status) else None
  {
    hide Plain;
  }

  lemma {:induction false} SuccessReadsBack(status: int)
    ensures StatusOf(Success(status)) == if 200 <= status <= 203 then Some(status) else None
  {
    hide Plain;
  }

  lemma {:induction false} LaterSuccessReadsBack(status: int)
    ensures StatusOf(LaterSuccess(status)) == if 204 <= status <= 206 then Some(status) else None
  {
    hide Plain;
  }

  lemma {:induction false} RedirectionReadsBack(status: int)
    ensures StatusOf(Redirection(status)) == if 300 <= status <= 305 || status == 307 then Some(status) else None
  {
    hide Plain;
  }

  lemma {:induction false} ClientErrorReadsBack(status: int)
    ensures StatusOf(ClientError(status)) == if 400 <= status <= 404 then Some(status) else None
  {
    hide Plain;
  }

  lemma {:induction false} LaterClientErrorReadsBack(status: int)
    ensures StatusOf(LaterClientError(status)) == if 405 <= status <= 410 then Some(status) else None
  {
    hide Plain;
  }

  lemma {:induction false} ServerErrorReadsBack(status: int)
    ensures StatusOf(ServerError(status)) == if 500 <= status <= 502 then Some(status) else None
  {
    hide Plain;
  }

  lemma {:induction false} LaterServerErrorReadsBack(status: int)
    ensures StatusOf(LaterServerError(status)) == if 503 <= status <= 505 then Some(status) else None
  {
    hide Plain;
  }

  /** `%zu`, and `%d` of a number that is not negative. */
  function Decimal(n: nat): (r: seq<byte>)
    ensures r != [] && AllOf(r, Digit)
  {
    if n < 10 then [48 + n] else Decimal(n / 10) + [48 + n % 10]
  }

  /** The number a run of digits spells. */
  function FromDecimal(digits: seq<byte>): int {
    if digits == [] then 0 else 10 * FromDecimal(digits[..|digits| - 1]) + DigitValue(digits[|digits| - 1])
  }

  /** Reading the digits back gives the number. */
  lemma {:induction false} DecimalReadsBack(n: nat)
    ensures FromDecimal(Decimal(n)) == n
  {
    if n >= 10 {
      DecimalReadsBack(n / 10);
      assert Decimal(n)[..|Decimal(n)| - 1] == Decimal(n / 10);
    } else {
      assert [48 + n][..0] == [];
    }
  }

  /** `%d`. */
  function SignedDecimal(n: int): seq<byte> { if n < 0 then [45] + Decimal(-n) else Decimal(n) }

  /** `%.*s` with the length of the sequence as precision: stops at a NUL. */
  function Printed(s: seq<byte>): seq<byte> { s[..Scan(s, 0, (b: byte) => b == NUL)] }

  const CRLF: seq<byte> := [CR, LF]

  function StatusLine(status: int): seq<byte> {
    VERSION_PREFIX + [49, SP] + SignedDecimal(status) + [SP] + Ascii(Reason(status)) + CRLF
  }

  function HeaderText(h: OutHeader): seq<byte> { Printed(h.name) + [COLON, SP] + Printed(h.value) + CRLF }

  /** The texts the printer appends, in order. */
  function HeaderTexts(hs: seq<OutHeader>): seq<seq<byte>> {
    if hs == [] then [] else [HeaderText(hs[0])] + HeaderTexts(hs[1..])
  }

  function ResponseTexts(status: int, hs: seq<OutHeader>, body: seq<byte>): seq<seq<byte>> {
    [StatusLine(status)] + HeaderTexts(hs) + [CRLF + Printed(body)]
  }

  /** The whole response. */
  function ResponseBytes(status: int, hs: seq<OutHeader>, body: seq<byte>): seq<byte> {
    Flatten(ResponseTexts(status, hs, body))
  }

  /** The status is what its digits spell, and zeros stand for those from the first wrong byte on. */
  lemma {:induction false} StatusReads(b: seq<byte>, i: nat)
    requires i + 3 <= |b|
    ensures var k := Scan(b[i..i + 3], 0, (d: byte) => !(48 <= d <= 57));
      Status(b, i) == (FromDecimal(b[i..i + k] + Repeat(48, 3 - k)), k == 3)
  {
    var t := b[i..i + 3];
    assert t[0] == b[i] && t[1] == b[i + 1] && t[2] == b[i + 2];
    var k := Scan(t, 0, (d: byte) => !(48 <= d <= 57));
    var d := b[i..i + k] + Repeat(48, 3 - k);
    assert d[..2] == [d[0], d[1]] && d[..2][..1] == [d[0]] && d[..2][..1][..0] == [];
    assert FromDecimal([d[0]]) == DigitValue(d[0]) by { assert [d[0]][..0] == []; }
    assert FromDecimal(d) == 100 * DigitValue(d[0]) + 10 * DigitValue(d[1]) + DigitValue(d[2]);
  }

  // ---------------------------------------------------------------- the printer

  function AppendedAll(v: Value, texts: seq<seq<byte>>): (v': Value)
    requires Ok(v)
    ensures Ok(v')
    decreases |texts|
  {
    if texts == [] then v else AppendedAll(Appended(v, texts[0]), texts[1..])
  }

  lemma {:induction false} AppendedAllSplit(v: Value, xs: seq<seq<byte>>, ys: seq<seq<byte>>)
    requires Ok(v)
    ensures AppendedAll(v, xs + ys) == AppendedAll(AppendedAll(v, xs), ys)
    decreases |xs|
  {
    if xs == [] {
      assert xs + ys == ys;
    } else {
      assert (xs + ys)[1..] == xs[1..] + ys;
      AppendedAllSplit(Appended(v, xs[0]), xs[1..], ys);
    }
  }

  method HttpResponseInit(buffer: Buffer, status: int, headers: seq<OutHeader>, body: seq<byte>)
    requires buffer.Valid()
    modifies buffer, buffer.data
    ensures buffer.Valid() && (buffer.data == old(buffer.data) || fresh(buffer.data))
    ensures buffer.Val() == AppendedAll(old(buffer.Val()), ResponseTexts(status, headers, body))
  {
    hide Appended, StatusLine, HeaderText;
    ghost var v0 := buffer.Val();
    ghost var texts := [StatusLine(status)];
    assert texts[1..] == [];
    buffer.Append(StatusLine(status));
    var i := 0;
    assert headers[..0] == [];
    while i < |headers|
      invariant 0 <= i <= |headers| && buffer.Valid() && (buffer.data == old(buffer.data) || fresh(buffer.data))
      invariant texts == [StatusLine(status)] + HeaderTexts(headers[..i])
      invariant buffer.Val() == AppendedAll(v0, texts)
    {
      buffer.Append(HeaderText(headers[i]));
      AppendOne(v0, texts, HeaderText(headers[i]));
      HeaderTextsSnoc(headers, i);
      texts := texts + [HeaderText(headers[i])];
      i := i + 1;
    }
    assert headers[..i] == headers;
    buffer.Append(CRLF + Printed(body));
    AppendOne(v0, texts, CRLF + Printed(body));
  }

  lemma {:induction false} AppendOne(v: Value, texts: seq<seq<byte>>, text: seq<byte>)
    requires Ok(v)
    ensures AppendedAll(v, texts + [text]) == Appended(AppendedAll(v, texts), text)
  {
    AppendedAllSplit(v, texts, [text]);
    assert [text][1..] == [];
  }

  lemma {:induction false} HeaderTextsSnoc(hs: seq<OutHeader>, k: nat)
    requires k < |hs|
    ensures HeaderTexts(hs[..k + 1]) == HeaderTexts(hs[..k]) + [HeaderText(hs[k])]
    decreases k
  {
    if k > 0 {
      HeaderTextsSnoc(hs[1..], k - 1);
      assert hs[1..][..k] == hs[..k + 1][1..] && hs[1..][..k - 1] == hs[..k][1..];
    } else {
      assert hs[..1][1..] == [];
    }
  }

  /** No append of the list loses its last byte. */
  predicate AllSurvive(v: Value, texts: seq<seq<byte>>)
    requires Ok(v)
    decreases |texts|
  {
    texts == [] || (!Clobbers(v, texts[0]) && AllSurvive(Appended(v, texts[0]), texts[1..]))
  }

  lemma {:induction false} AppendedFilled(v: Value, text: seq<byte>)
    requires Ok(v)
    ensures Appended(v, text).filled == v.filled + Stored(v, text)
  {
  }

  /** Exactly then the buffer holds the response byte for byte; its length is right in any case. */
  lemma {:induction false} PrintedFaithfully(v: Value, texts: seq<seq<byte>>)
    requires Ok(v)
    ensures |AppendedAll(v, texts).filled| == |v.filled| + |Flatten(texts)|
    ensures AppendedAll(v, texts).filled == v.filled + Flatten(texts) <==> AllSurvive(v, texts)
    ensures v.filled <= AppendedAll(v, texts).filled
    decreases |texts|
  {
    hide Appended, Stored, Clobbers;
    if texts != [] {
      var text, rest := texts[0], Flatten(texts[1..]);
      var v' := Appended(v, text);
      PrintedFaithfully(v', texts[1..]);
      AppendedFilled(v, text);
      StoredIsText(v, text);
      var out := AppendedAll(v, texts).filled;
      var stored := Stored(v, text);
      assert out[..|v'.filled|] == v'.filled == v.filled + stored;
      SameFront(v.filled, stored, v.filled, text);
      SameFront(v'.filled, out[|v'.filled|..], v.filled + text, rest);
      assert v.filled + Flatten(texts) == (v.filled + text) + rest;
    }
  }

  // ---------------------------------------------------------------- the round trip

  predicate HeaderPrintable(h: OutHeader) {
    && h.name != [] && AllOf(h.name, TokenChar)
    && NoneOf(h.value, EolStop) && (h.value != [] ==> !Blank(h.value[0]))
  }

  function ToLine(h: OutHeader): HeaderLine { FieldLine(h.name, [SP], h.value, CrLf) }

  function ToLines(hs: seq<OutHeader>): (r: seq<HeaderLine>)
    ensures |r| == |hs|
    ensures forall i :: 0 <= i < |hs| ==> r[i] == ToLine(hs[i])
  {
    if hs == [] then [] else [ToLine(hs[0])] + ToLines(hs[1..])
  }

  function ToHead(status: nat, hs: seq<OutHeader>): ResponseHead {
    ResponseHead(1, Decimal(status), Ascii(Reason(status)), CrLf, ToLines(hs), CrLf)
  }

  lemma ThreeDigits(status: nat)
    requires 100 <= status < 1000
    ensures |Decimal(status)| == 3 && StatusValue(Decimal(status)) == status
  {
    assert Decimal(status) == Decimal(status / 10) + [48 + status % 10];
    assert Decimal(status / 10) == Decimal(status / 100) + [48 + status / 10 % 10];
    assert Decimal(status / 100) == [48 + status / 100];
  }

  lemma PrintedWhole(s: seq<byte>)
    requires NUL !in s
    ensures Printed(s) == s
  {
    assert Scan(s, 0, (b: byte) => b == NUL) == |s|;
  }

  /** The formatter stops at the first NUL, whatever precision it was given. */
  lemma {:induction false} PrintedStops(s: seq<byte>, rest: seq<byte>)
    requires NUL !in s
    ensures Printed(s + [NUL] + rest) == s
  {
    var t := s + [NUL] + rest;
    assert t[|s|] == NUL && forall i :: 0 <= i < |s| ==> t[i] == s[i];
    assert Scan(t, 0, (b: byte) => b == NUL) == |s|;
  }

  lemma HeaderTextIsLine(h: OutHeader)
    requires HeaderPrintable(h)
    ensures LineOk(ToLine(h)) && HeaderText(h) == LineText(ToLine(h))
  {
    assert forall i :: 0 <= i < |h.name| ==> TokenChar(h.name[i]);
    assert forall i :: 0 <= i < |h.value| ==> !EolStop(h.value[i]);
    PrintedWhole(h.name);
    PrintedWhole(h.value);
  }

  lemma {:induction false} HeaderTextsAreLines(hs: seq<OutHeader>)
    requires forall i :: 0 <= i < |hs| ==> HeaderPrintable(hs[i])
    ensures Flatten(HeaderTexts(hs)) == LinesText(ToLines(hs))
  {
    hide HeaderPrintable, HeaderText, ToLine, LineText;
    if hs != [] {
      HeaderTextIsLine(hs[0]);
      HeaderTextsAreLines(hs[1..]);
      assert ToLines(hs)[1..] == ToLines(hs[1..]);
      assert HeaderTexts(hs)[1..] == HeaderTexts(hs[1..]);
    }
  }

  lemma {:induction false} FlattenConcat<T>(xs: seq<seq<T>>, ys: seq<seq<T>>)
    ensures Flatten(xs + ys) == Flatten(xs) + Flatten(ys)
  {
    if xs == [] {
      assert xs + ys == ys;
    } else {
      assert (xs + ys)[1..] == xs[1..] + ys;
      FlattenConcat(xs[1..], ys);
    }
  }

  lemma FlattenOne<T>(x: seq<T>)
    ensures Flatten([x]) == x
  {
    assert [x][1..] == [];
  }

  lemma ReasonPlain(status: int)
    ensures NoneOf(Ascii(Reason(status)), EolStop)
  {
    hide Reason;
  }

  lemma StatusLineIsLine(status: nat, hs: seq<OutHeader>)
    ensures StatusLine(status) == StatusLineText(ToHead(status, hs))
  {
    hide Reason, Decimal;
  }

  /** The printed response is the text of a head followed by the body. */
  lemma {:induction false} ResponseIsHeadAndBody(status: nat, hs: seq<OutHeader>, body: seq<byte>)
    requires 100 <= status < 1000 && NUL !in body
    requires forall i :: 0 <= i < |hs| ==> HeaderPrintable(hs[i])
    ensures ResponseOk(ToHead(status, hs))
    ensures ResponseBytes(status, hs, body) == ResponseText(ToHead(status, hs)) + body
  {
    hide HeaderPrintable, HeaderText, StatusLine, Reason, Decimal, LinesText, HeaderTexts, StatusLineText;
    var head := ToHead(status, hs);
    forall i | 0 <= i < |hs| ensures LineOk(head.lines[i]) { HeaderTextIsLine(hs[i]); }
    ThreeDigits(status);
    ReasonPlain(status);
    StatusLineIsLine(status, hs);
    PrintedWhole(body);
    var line, lines, last := [StatusLine(status)], HeaderTexts(hs), [CRLF + body];
    FlattenConcat(line + lines, last);
    FlattenConcat(line, lines);
    FlattenOne(line[0]);
    FlattenOne(last[0]);
    HeaderTextsAreLines(hs);
    assert (StatusLine(status) + LinesText(head.lines)) + (CRLF + body) ==
           (StatusLine(status) + (LinesText(head.lines) + CRLF)) + body;
  }

  /** Header `k` of the answer holds exactly the name and the value printed for header `k`. */
  ghost predicate Recovered(b: seq<byte>, r: Response, status: int, hs: seq<OutHeader>, n: nat) {
    && r.verdict == Accepted(n) && r.minor == 1 && r.status == status
    && r.msg.Some? && Holds(b, r.msg.value, Ascii(Reason(status)), 0, n)
    && |r.headers| == |hs|
    && forall k :: 0 <= k < |hs| ==>
         && r.headers[k].name.Some? && Holds(b, r.headers[k].name.value, hs[k].name, 0, n)
         && Holds(b, r.headers[k].value, hs[k].value, 0, n)
  }

  /**
   * Print/parse round trip: with enough header capacity the parser recovers status, reason and headers from
   * the printed response, and consumes everything in front of the body and nothing of it.
   */
  lemma {:induction false} RoundTrip(status: nat, hs: seq<OutHeader>, body: seq<byte>, max: nat)
    requires 100 <= status < 1000 && NUL !in body && |hs| <= max
    requires forall i :: 0 <= i < |hs| ==> HeaderPrintable(hs[i])
    ensures var b := ResponseBytes(status, hs, body);
      |body| <= |b| && b[|b| - |body|..] == body
      && Recovered(b, PhrParseResponse(b, max, 0), status, hs, |b| - |body|)
  {
    hide HeaderPrintable, Reason, Decimal, ParseResponse, ResponseBytes, LinesText, StatusLineText, Holds, HeaderHolds;
    var b := ResponseBytes(status, hs, body);
    var head := ToHead(status, hs);
    ResponseIsHeadAndBody(status, hs, body);
    ParsesResponseText(b, head, max);
    ThreeDigits(status);
    ResponsePieces(b, head);
    AtSplit(b, 13, head.reason, EolText(CrLf));
    AtHolds(b, head.reason, Slice(13, |head.reason|), 0, |ResponseText(head)|);
    HeadersRecovered(b, head, hs);
  }

  lemma {:induction false} HeadersRecovered(b: seq<byte>, head: ResponseHead, hs: seq<OutHeader>)
    requires ResponseOk(head) && ResponseText(head) <= b && head.lines == ToLines(hs)
    ensures var rs := LinesHeaders(head.lines, |StatusLineText(head)|); var n := |ResponseText(head)|;
      forall k :: 0 <= k < |hs| ==>
        && rs[k].name.Some? && Holds(b, rs[k].name.value, hs[k].name, 0, n) && Holds(b, rs[k].value, hs[k].value, 0, n)
  {
    hide At, LinesOk, LinesText, StatusLineText, Holds, HeaderHolds, EolText, ToLine, LineText, LineHeader;
    var at, n := |StatusLineText(head)|, |ResponseText(head)|;
    var rs := LinesHeaders(head.lines, at);
    ResponsePieces(b, head);
    AtSplit(b, at, LinesText(head.lines), EolText(head.blank));
    forall k | 0 <= k < |hs|
      ensures rs[k].name.Some? && Holds(b, rs[k].name.value, hs[k].name, 0, n)
      ensures Holds(b, rs[k].value, hs[k].value, 0, n)
    {
      LinesHold(b, at, head.lines, k);
      HoldsWider(b, rs[k], hs[k], LineStart(head.lines, at, k), LineStart(head.lines, at, k + 1), n);
    }
  }

  lemma HoldsWider(b: seq<byte>, hd: Header, h: OutHeader, lo: nat, hi: nat, hi': nat)
    requires HeaderHolds(b, hd, ToLine(h), lo, hi) && hi <= hi' <= |b|
    ensures hd.name.Some? && Holds(b, hd.name.value, h.name, 0, hi') && Holds(b, hd.value, h.value, 0, hi')
  {
  }
}
