/**
 * What the HTTP/1.x head parser computes, over a byte sequence and an index. Every scan here is the plain
 * per-byte one; the block-wise and unrolled scans of the implementation are proved against it in `HeadParser`.
 */
module HeadSpec {
  import opened Bytes
  import opened Options

  /** A pointer and a length into the buffer. */
  datatype Slice = Slice(start: nat, len: nat)

  /** A header line; the name is absent on the continuation of a folded line. */
  datatype Header = Header(name: Option<Slice>, value: Slice)

  /** A value and the index behind it, the answer -1, or the answer -2. */
  datatype Parsed<+T> = Got(value: T, next: nat) | Reject | More

  /** The three answers of the public functions: n >= 0, -1 and -2. */
  datatype Verdict = Accepted(n: nat) | Rejected | Incomplete

  // ---------------------------------------------------------------- byte classes

  /** Ends a method or a path: SP and below, or DEL. */
  predicate TokenStop(b: byte) { b <= SP || b == DEL }

  /** Ends a header value or a reason phrase: any control character but HT. */
  predicate EolStop(b: byte) { (b < SP && b != HT) || b == DEL }

  /** `token_char_map`: the tchar of section 3.2.6 of RFC 7230. */
  predicate TokenChar(b: byte) {
    || b == 0x21 || 0x23 <= b <= 0x27 || b == 0x2a || b == 0x2b || b == 0x2d || b == 0x2e || 0x30 <= b <= 0x39
    || 0x41 <= b <= 0x5a || 0x5e <= b <= 0x7a || b == 0x7c || b == 0x7e
  }

  predicate NameStop(b: byte) { !TokenChar(b) }

  predicate Blank(b: byte) { b == SP || b == HT }

  predicate NotBlank(b: byte) { !Blank(b) }

  predicate Digit(b: byte) { 48 <= b <= 57 }

  function DigitValue(b: byte): int { b as int - 48 }

  // ---------------------------------------------------------------- pieces of a head

  /** CRLF or a bare LF. */
  function Eol(b: seq<byte>, i: nat): (r: Parsed<()>)
    requires i <= |b|
    ensures r.Got? ==> i < r.next <= |b|
  {
    if i == |b| then More
    else if b[i] == CR then
      if i + 1 == |b| then More else if b[i + 1] == LF then Got((), i + 2) else Reject
    else if b[i] == LF then Got((), i + 1)
    else Reject
  }

  /** A run free of controls and spaces, up to and including the space that ends it. */
  function Token(b: seq<byte>, i: nat): (r: Parsed<Slice>)
    requires i <= |b|
    ensures r.Got? ==> i < r.next <= |b|
  {
    var j := Scan(b, i, TokenStop);
    if j == |b| then More
    else if b[j] == SP then Got(Slice(i, j - i), j + 1)
    else Reject
  }

  /** A run free of controls other than HT, and the line end behind it. */
  function ToEol(b: seq<byte>, i: nat): (r: Parsed<Slice>)
    requires i <= |b|
    ensures r.Got? ==> i < r.next <= |b|
  {
    var j := Scan(b, i, EolStop);
    match Eol(b, j)
    case Got(_, next) => Got(Slice(i, j - i), next)
    case Reject => Reject
    case More => More
  }

  const VERSION_PREFIX: seq<byte> := [72, 84, 84, 80, 47, 49, 46] // HTTP/1.

  /** `HTTP/1.` and a digit; nothing is said before nine bytes are there. The byte behind it exists. */
  function Version(b: seq<byte>, i: nat): (r: Parsed<nat>)
    requires i <= |b|
    ensures r.Got? ==> r.next == i + 8 < |b|
  {
    if |b| - i < 9 then More
    else if b[i..i + 7] == VERSION_PREFIX && Digit(b[i + 7]) then Got(b[i + 7] - 48, i + 8)
    else Reject
  }

  /** A non-empty token and the colon behind it. */
  function Name(b: seq<byte>, i: nat): (r: Parsed<Slice>)
    requires i <= |b|
    ensures r.Got? ==> i < r.next <= |b|
  {
    var j := Scan(b, i, NameStop);
    if j == |b| then More
    else if b[j] == COLON && j > i then Got(Slice(i, j - i), j + 1)
    else Reject
  }

  function Field(b: seq<byte>, i: nat): (r: Parsed<Header>)
    requires i <= |b|
    ensures r.Got? ==> i < r.next <= |b|
  {
    match Name(b, i)
    case Reject => Reject
    case More => More
    case Got(name, j) =>
      var k := Scan(b, j, NotBlank);
      match ToEol(b, k)
      case Reject => Reject
      case More => More
      case Got(value, next) => Got(Header(Some(name), value), next)
  }

  /** A field, or a folded line where one may stand: after at least one header. */
  function Line(b: seq<byte>, i: nat, first: bool): (r: Parsed<Header>)
    requires i < |b|
    ensures r.Got? ==> i < r.next <= |b|
  {
    if first || !Blank(b[i]) then Field(b, i)
    else
      match ToEol(b, i)
      case Reject => Reject
      case More => More
      case Got(value, next) => Got(Header(None, value), next)
  }

  /** The verdict on the header block and the headers counted when the parser stopped. */
  datatype HeadersOut = HeadersOut(end: Parsed<()>, headers: seq<Header>)

  function Headers(b: seq<byte>, i: nat, hs: seq<Header>, max: nat): (r: HeadersOut)
    requires i <= |b|
    ensures r.end.Got? ==> i < r.end.next <= |b|
    ensures hs <= r.headers
    ensures |hs| <= max ==> |r.headers| <= max
    decreases |b| - i
  {
    if i == |b| then HeadersOut(More, hs)
    else if b[i] == CR || b[i] == LF then HeadersOut(Eol(b, i), hs)
    else if |hs| == max then HeadersOut(Reject, hs)
    else
      match Line(b, i, hs == [])
      case Reject => HeadersOut(Reject, hs)
      case More => HeadersOut(More, hs)
      case Got(h, next) => Headers(b, next, hs + [h], max)
  }

  function ToVerdict<T>(p: Parsed<T>): Verdict {
    match p
    case Got(_, next) => Accepted(next)
    case Reject => Rejected
    case More => Incomplete
  }

  // ---------------------------------------------------------------- requests

  /** The answer and every out-parameter of `phr_parse_request`, also when it fails. */
  datatype Request = Request(verdict: Verdict, verb: Option<Slice>, path: Option<Slice>, minor: int,
                             headers: seq<Header>)

  const NO_REQUEST := Request(Incomplete, None, None, -1, [])

  function OptionalEol(b: seq<byte>, i: nat): (r: Parsed<()>)
    requires i <= |b|
    ensures r.Got? ==> i <= r.next <= |b|
  {
    if i == |b| then More
    else if b[i] == CR || b[i] == LF then Eol(b, i)
    else Got((), i)
  }

  function RequestRest(b: seq<byte>, i: nat, so: Request, max: nat): Request
    requires i <= |b|
  {
    match Version(b, i)
    case Reject => so.(verdict := Rejected)
    case More => so
    case Got(minor, j) =>
      var so' := so.(minor := minor);
      match Eol(b, j)
      case Reject => so'.(verdict := Rejected)
      case More => so'
      case Got(_, k) =>
        var hs := Headers(b, k, [], max);
        so'.(verdict := ToVerdict(hs.end), headers := hs.headers)
  }

  function ParseRequest(b: seq<byte>, max: nat): (r: Request)
    ensures r.verdict.Accepted? ==> r.verdict.n <= |b|
    ensures |r.headers| <= max
  {
    match OptionalEol(b, 0)
    case Reject => NO_REQUEST.(verdict := Rejected)
    case More => NO_REQUEST
    case Got(_, i) =>
      match Token(b, i)
      case Reject => NO_REQUEST.(verdict := Rejected)
      case More => NO_REQUEST
      case Got(verb, j) =>
        var so := NO_REQUEST.(verb := Some(verb));
        match Token(b, j)
        case Reject => so.(verdict := Rejected)
        case More => so
        case Got(path, k) => RequestRest(b, k, so.(path := Some(path)), max)
  }

  // ---------------------------------------------------------------- responses

  datatype Response = Response(verdict: Verdict, minor: int, status: int, msg: Option<Slice>, headers: seq<Header>)

  const NO_RESPONSE := Response(Incomplete, -1, 0, None, [])

  /** Three digits; the digits read before a wrong byte stay in the status. */
  function Status(b: seq<byte>, i: nat): (r: (int, bool))
    requires i + 3 <= |b|
  {
    if !Digit(b[i]) then (0, false)
    else if !Digit(b[i + 1]) then (100 * DigitValue(b[i]), false)
    else if !Digit(b[i + 2]) then (100 * DigitValue(b[i]) + 10 * DigitValue(b[i + 1]), false)
    else (100 * DigitValue(b[i]) + 10 * DigitValue(b[i + 1]) + DigitValue(b[i + 2]), true)
  }

  function ResponseRest(b: seq<byte>, i: nat, so: Response, max: nat): Response
    requires i <= |b|
  {
    match ToEol(b, i)
    case Reject => so.(verdict := Rejected)
    case More => so
    case Got(msg, j) =>
      var hs := Headers(b, j, [], max);
      so.(msg := Some(msg), verdict := ToVerdict(hs.end), headers := hs.headers)
  }

  function ParseResponse(b: seq<byte>, max: nat): (r: Response)
    ensures r.verdict.Accepted? ==> r.verdict.n <= |b|
    ensures |r.headers| <= max
  {
    match Version(b, 0)
    case Reject => NO_RESPONSE.(verdict := Rejected)
    case More => NO_RESPONSE
    case Got(minor, i) =>
      var so := NO_RESPONSE.(minor := minor);
      if b[i] != SP then so.(verdict := Rejected)
      else if |b| - (i + 1) < 4 then so
      else
        var (status, ok) := Status(b, i + 1);
        var so' := so.(status := status);
        if !ok || b[i + 4] != SP then so'.(verdict := Rejected)
        else ResponseRest(b, i + 5, so', max)
  }

  // ---------------------------------------------------------------- the pre-check

  /** Looks for two line ends in a row; `cnt` counts those just seen. A CR without LF is refused. */
  function TwoEols(b: seq<byte>, i: nat, cnt: nat): (r: Parsed<()>)
    requires i <= |b| && cnt < 2
    decreases |b| - i
  {
    if i == |b| then More
    else if b[i] == CR || b[i] == LF then
      match Eol(b, i)
      case Reject => Reject
      case More => More
      case Got(_, j) => if cnt == 1 then Got((), j) else TwoEols(b, j, 1)
    else TwoEols(b, i + 1, 0)
  }

  function IsComplete(b: seq<byte>, lastLen: nat): Parsed<()>
    requires lastLen <= |b|
  {
    TwoEols(b, if lastLen < 3 then 0 else lastLen - 3, 0)
  }

  function PhrParseRequest(b: seq<byte>, max: nat, lastLen: nat): Request
    requires lastLen <= |b|
  {
    if lastLen != 0 && !IsComplete(b, lastLen).Got? then NO_REQUEST.(verdict := ToVerdict(IsComplete(b, lastLen)))
    else ParseRequest(b, max)
  }

  function PhrParseResponse(b: seq<byte>, max: nat, lastLen: nat): Response
    requires lastLen <= |b|
  {
    if lastLen != 0 && !IsComplete(b, lastLen).Got? then NO_RESPONSE.(verdict := ToVerdict(IsComplete(b, lastLen)))
    else ParseResponse(b, max)
  }

  function PhrParseHeaders(b: seq<byte>, max: nat, lastLen: nat): HeadersOut
    requires lastLen <= |b|
  {
    if lastLen != 0 && !IsComplete(b, lastLen).Got? then HeadersOut(IsComplete(b, lastLen), [])
    else Headers(b, 0, [], max)
  }
}
