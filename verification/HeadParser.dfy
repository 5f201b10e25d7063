/**
 * The head parser as it is written: a moving index, block-wise and unrolled scans, early exits. `sse` says
 * whether the SSE 4.2 code was compiled in; either way every function computes what `HeadSpec` says.
 */
module HeadParser {
  import opened Bytes
  import opened Options
  import opened HeadSpec
  import opened HeadGrammar

  // ---------------------------------------------------------------- the fast search

  predicate InRanges(b: byte, ranges: seq<(byte, byte)>) {
    exists i :: 0 <= i < |ranges| && ranges[i].0 <= b <= ranges[i].1
  }

  const TOKEN_RANGES: seq<(byte, byte)> := [(0, 32), (127, 127)]
  const EOL_RANGES: seq<(byte, byte)> := [(0, 8), (10, 31), (127, 127)]
  const NAME_RANGES: seq<(byte, byte)> :=
    [(0, 32), (34, 34), (40, 41), (44, 44), (47, 47), (58, 64), (91, 93), (123, 255)]

  lemma TokenRangesExact(b: byte)
    ensures InRanges(b, TOKEN_RANGES) <==> TokenStop(b)
  {
    assert TOKEN_RANGES[0] == (0, 32) && TOKEN_RANGES[1] == (127, 127);
  }

  lemma EolRangesExact(b: byte)
    ensures InRanges(b, EOL_RANGES) <==> EolStop(b)
  {
    assert EOL_RANGES[0] == (0, 8) && EOL_RANGES[1] == (10, 31) && EOL_RANGES[2] == (127, 127);
  }

  /** The block search for a name stops on every byte that ends one, and early on the tokens `|` and `~`. */
  lemma NameRangesCover(b: byte)
    ensures InRanges(b, NAME_RANGES) <==> NameStop(b) || b == 0x7c || b == 0x7e
  {
    assert NAME_RANGES[0] == (0, 32) && NAME_RANGES[1] == (34, 34) && NAME_RANGES[2] == (40, 41);
    assert NAME_RANGES[3] == (44, 44) && NAME_RANGES[4] == (47, 47) && NAME_RANGES[5] == (58, 64);
    assert NAME_RANGES[6] == (91, 93) && NAME_RANGES[7] == (123, 255);
  }

  /** The compare instruction: the first of sixteen bytes that lies in a range, or 16. */
  function CompareRanges(block: seq<byte>, ranges: seq<(byte, byte)>): (r: nat)
    requires |block| == 16
    ensures r <= 16
    ensures forall k :: 0 <= k < r ==> !InRanges(block[k], ranges)
    ensures r < 16 ==> InRanges(block[r], ranges)
  {
    Scan(block, 0, (b: byte) => InRanges(b, ranges))
  }

  /** Sixteen bytes at a time; fewer than sixteen are left unread when nothing was found. */
  method FindCharFast(b: seq<byte>, start: nat, ranges: seq<(byte, byte)>, sse: bool) returns (i: nat, found: bool)
    requires start <= |b|
    ensures start <= i <= |b|
    ensures forall k :: start <= k < i ==> !InRanges(b[k], ranges)
    ensures found ==> i < |b| && InRanges(b[i], ranges)
    ensures sse && !found ==> |b| - i < 16
  {
    i, found := start, false;
    if sse && |b| - i >= 16 {
      var left := (|b| - i) / 16 * 16;
      while left != 0
        invariant start <= i && left >= 0 && left % 16 == 0 && i + left <= |b| < i + left + 16
        invariant forall k :: start <= k < i ==> !InRanges(b[k], ranges)
        decreases left
      {
        var block := b[i..i + 16];
        var r := CompareRanges(block, ranges);
        assert forall k :: i <= k < i + r ==> b[k] == block[k - i];
        if r != 16 {
          i, found := i + r, true;
          break;
        }
        i, left := i + 16, left - 16;
      }
    }
  }

  /** A scan may start anywhere as long as nothing in between stops it. */
  lemma {:induction false} ScanSkip(b: seq<byte>, i: nat, j: nat, stop: byte -> bool)
    requires i <= j <= |b| && forall k :: i <= k < j ==> !stop(b[k])
    ensures Scan(b, i, stop) == Scan(b, j, stop)
  {
  }

  // ---------------------------------------------------------------- tokens and lines

  /** `ADVANCE_TOKEN` and the step over the space. */
  method AdvanceToken(b: seq<byte>, start: nat, sse: bool) returns (r: Parsed<Slice>)
    requires start <= |b|
    ensures r == Token(b, start)
  {
    var i, found := FindCharFast(b, start, TOKEN_RANGES, sse);
    forall k | start <= k < i ensures !TokenStop(b[k]) { TokenRangesExact(b[k]); }
    ScanSkip(b, start, i, TokenStop);
    if !found {
      if i == |b| { return More; }
    }
    while true
      invariant start <= i < |b| && Scan(b, start, TokenStop) == Scan(b, i, TokenStop)
      decreases |b| - i
    {
      if b[i] == SP {
        break;
      } else if !(32 <= b[i] < 127) {
        if b[i] < 32 || b[i] == DEL { return Reject; }
      }
      i := i + 1;
      if i == |b| { return More; }
    }
    r := Got(Slice(start, i - start), i + 1);
  }

  /** The scan loop for a header value or reason phrase, with the block search in front of it. */
  method FindEolSse(b: seq<byte>, start: nat) returns (i: nat)
    requires start <= |b|
    ensures i == Scan(b, start, EolStop)
  {
    var found;
    i, found := FindCharFast(b, start, EOL_RANGES, true);
    forall k | start <= k < i ensures !EolStop(b[k]) { EolRangesExact(b[k]); }
    ScanSkip(b, start, i, EolStop);
    if found {
      EolRangesExact(b[i]);
      return;
    }
    i := FindEolScalar(b, i);
  }

  method FindEolScalar(b: seq<byte>, start: nat) returns (i: nat)
    requires start <= |b|
    ensures i == Scan(b, start, EolStop)
  {
    i := start;
    while i < |b|
      invariant start <= i <= |b| && Scan(b, start, EolStop) == Scan(b, i, EolStop)
    {
      if !(32 <= b[i] < 127) {
        if (b[i] < 32 && b[i] != HT) || b[i] == DEL { return; }
      }
      i := i + 1;
    }
  }

  /** The same without SSE: eight bytes at a time while eight are left, re-aligning after each odd byte. */
  method FindEolUnrolled(b: seq<byte>, start: nat) returns (i: nat)
    requires start <= |b|
    ensures i == Scan(b, start, EolStop)
  {
    i := start;
    while |b| - i >= 8
      invariant start <= i <= |b| && Scan(b, start, EolStop) == Scan(b, i, EolStop)
      decreases |b| - i
    {
      var n, printable := 0, true;
      ghost var i0 := i;
      while n < 8 && printable
        invariant 0 <= n <= 8 && i == i0 + n <= |b| && (n == 8 ==> printable)
        invariant Scan(b, start, EolStop) == Scan(b, i, EolStop)
        invariant !printable ==> !(32 <= b[i] < 127)
        decreases 8 - n, printable
      {
        if !(32 <= b[i] < 127) {
          printable := false;
        } else {
          i, n := i + 1, n + 1;
        }
      }
      if printable { continue; }
      if (b[i] < 32 && b[i] != HT) || b[i] == DEL { return; }
      i := i + 1;
    }
    i := FindEolScalar(b, i);
  }

  method GetTokenToEol(b: seq<byte>, start: nat, sse: bool) returns (r: Parsed<Slice>)
    requires start <= |b|
    ensures r == ToEol(b, start)
  {
    var i;
    if sse {
      i := FindEolSse(b, start);
    } else {
      i := FindEolUnrolled(b, start);
    }
    if i == |b| { return More; }
    if b[i] == CR {
      if i + 1 == |b| { return More; }
      if b[i + 1] != LF { return Reject; }
      r := Got(Slice(start, i - start), i + 2);
    } else if b[i] == LF {
      r := Got(Slice(start, i - start), i + 1);
    } else {
      r := Reject;
    }
  }

  /** `is_complete`: the pre-check loop. */
  method CheckComplete(b: seq<byte>, lastLen: nat) returns (r: Parsed<()>)
    requires lastLen <= |b|
    ensures r == IsComplete(b, lastLen)
  {
    var i, cnt := if lastLen < 3 then 0 else lastLen - 3, 0;
    while i < |b|
      invariant i <= |b| && cnt < 2 && IsComplete(b, lastLen) == TwoEols(b, i, cnt)
      decreases |b| - i
    {
      if b[i] == CR {
        if i + 1 == |b| { return More; }
        if b[i + 1] != LF { return Reject; }
        i, cnt := i + 2, cnt + 1;
      } else if b[i] == LF {
        i, cnt := i + 1, cnt + 1;
      } else {
        i, cnt := i + 1, 0;
      }
      if cnt == 2 { return Got((), i); }
    }
    r := More;
  }

  // ---------------------------------------------------------------- heads

  /** Expects the characters one by one after a single length check. */
  method ParseHttpVersion(b: seq<byte>, start: nat) returns (r: Parsed<nat>)
    requires start <= |b|
    ensures r == Version(b, start)
  {
    if |b| - start < 9 { return More; }
    var i := 0;
    while i < 7
      invariant 0 <= i <= 7 && b[start..start + i] == VERSION_PREFIX[..i]
    {
      if b[start + i] != VERSION_PREFIX[i] {
        assert b[start..start + 7][i] != VERSION_PREFIX[i];
        return Reject;
      }
      assert b[start..start + i + 1] == b[start..start + i] + [b[start + i]];
      i := i + 1;
    }
    assert b[start..start + 7] == VERSION_PREFIX;
    if b[start + 7] < 48 || 57 < b[start + 7] { return Reject; }
    r := Got(b[start + 7] - 48, start + 8);
  }

  method ParseName(b: seq<byte>, start: nat, sse: bool) returns (r: Parsed<Slice>)
    requires start <= |b|
    ensures r == Name(b, start)
  {
    var i, found := FindCharFast(b, start, NAME_RANGES, sse);
    forall k | start <= k < i ensures !NameStop(b[k]) { NameRangesCover(b[k]); }
    ScanSkip(b, start, i, NameStop);
    if !found {
      if i == |b| { return More; }
    }
    while true
      invariant start <= i < |b| && Scan(b, start, NameStop) == Scan(b, i, NameStop)
      decreases |b| - i
    {
      if b[i] == COLON {
        break;
      } else if !TokenChar(b[i]) {
        return Reject;
      }
      i := i + 1;
      if i == |b| { return More; }
    }
    if i - start == 0 { return Reject; }
    r := Got(Slice(start, i - start), i + 1);
  }

  method SkipBlanks(b: seq<byte>, start: nat) returns (i: nat)
    requires start <= |b|
    ensures i == Scan(b, start, NotBlank)
  {
    i := start;
    while i < |b| && (b[i] == SP || b[i] == HT)
      invariant start <= i <= |b| && Scan(b, start, NotBlank) == Scan(b, i, NotBlank)
    {
      i := i + 1;
    }
  }

  /** One turn of the header loop, behind the checks for the blank line and the capacity. */
  method ParseLine(b: seq<byte>, start: nat, first: bool, sse: bool) returns (r: Parsed<Header>)
    requires start < |b|
    ensures r == Line(b, start, first)
  {
    hide Name, ToEol;
    var i, name := start, None;
    if first || !(b[i] == SP || b[i] == HT) {
      var n := ParseName(b, i, sse);
      if n.More? { return More; }
      if n.Reject? { return Reject; }
      name := Some(n.value);
      i := SkipBlanks(b, n.next);
      if i == |b| {
        ToEolAtEnd(b);
        return More;
      }
    }
    var v := GetTokenToEol(b, i, sse);
    match v {
      case More => return More;
      case Reject => return Reject;
      case Got(value, next) => return Got(Header(name, value), next);
    }
  }

  /** Runs until the blank line; on failure the headers counted so far stay counted. */
  method ParseHeaders(b: seq<byte>, start: nat, max: nat, sse: bool) returns (end: Parsed<()>, hs: seq<Header>)
    requires start <= |b|
    ensures HeadersOut(end, hs) == Headers(b, start, [], max)
  {
    hide Line;
    var i;
    i, hs := start, [];
    while true
      invariant start <= i <= |b| && Headers(b, start, [], max) == Headers(b, i, hs, max)
      decreases |b| - i
    {
      if i == |b| { return More, hs; }
      if b[i] == CR {
        if i + 1 == |b| { return More, hs; }
        if b[i + 1] != LF { return Reject, hs; }
        return Got((), i + 2), hs;
      } else if b[i] == LF {
        return Got((), i + 1), hs;
      }
      if |hs| == max { return Reject, hs; }
      var line := ParseLine(b, i, |hs| == 0, sse);
      if line.More? { return More, hs; }
      if line.Reject? { return Reject, hs; }
      HeadersStep(b, i, hs, max);
      i, hs := line.next, hs + [line.value];
    }
  }

  /** `phr_parse_request`, with `parse_request` inlined: the answer and all out-parameters. */
  method PhrRequest(b: seq<byte>, max: nat, lastLen: nat, sse: bool) returns (r: Request)
    requires lastLen <= |b|
    ensures r == PhrParseRequest(b, max, lastLen)
  {
    hide Token, Version, Headers, IsComplete;
    r := NO_REQUEST;
    if lastLen != 0 {
      var c := CheckComplete(b, lastLen);
      if !c.Got? { return r.(verdict := ToVerdict(c)); }
    }
    if |b| == 0 { return; }
    var i := 0;
    if b[0] == CR {
      if |b| == 1 { return; }
      if b[1] != LF { return r.(verdict := Rejected); }
      i := 2;
    } else if b[0] == LF {
      i := 1;
    }
    var verb := AdvanceToken(b, i, sse);
    if !verb.Got? { return r.(verdict := ToVerdict(verb)); }
    r := r.(verb := Some(verb.value));
    var path := AdvanceToken(b, verb.next, sse);
    if !path.Got? { return r.(verdict := ToVerdict(path)); }
    r := r.(path := Some(path.value));
    r := RequestTail(b, path.next, r, max, sse);
  }

  method RequestTail(b: seq<byte>, start: nat, so: Request, max: nat, sse: bool) returns (r: Request)
    requires start <= |b| && so.verdict == Incomplete && so.headers == []
    ensures r == RequestRest(b, start, so, max)
  {
    hide Version, Headers;
    r := so;
    var version := ParseHttpVersion(b, start);
    if !version.Got? { return r.(verdict := ToVerdict(version)); }
    r := r.(minor := version.value);
    var i := version.next;
    if b[i] == CR {
      i := i + 1;
      if i == |b| { return; }
      if b[i] != LF { return r.(verdict := Rejected); }
      i := i + 1;
    } else if b[i] == LF {
      i := i + 1;
    } else {
      return r.(verdict := Rejected);
    }
    var end, hs := ParseHeaders(b, i, max, sse);
    r := r.(verdict := ToVerdict(end), headers := hs);
  }

  /** `PARSE_INT_3`. */
  method ParseStatus(b: seq<byte>, start: nat) returns (status: int, ok: bool)
    requires start + 3 <= |b|
    ensures (status, ok) == Status(b, start)
  {
    var i, mul := start, 100;
    status, ok := 0, true;
    while i < start + 3
      invariant start <= i <= start + 3 && ok
      invariant mul == (if i == start then 100 else if i == start + 1 then 10 else 1)
      invariant i >= start + 1 ==> Digit(b[start])
      invariant i >= start + 2 ==> Digit(b[start + 1])
      invariant i >= start + 3 ==> Digit(b[start + 2])
      invariant status == (if i >= start + 1 then 100 * DigitValue(b[start]) else 0)
                          + (if i >= start + 2 then 10 * DigitValue(b[start + 1]) else 0)
                          + (if i >= start + 3 then DigitValue(b[start + 2]) else 0)
    {
      if b[i] < 48 || 57 < b[i] { return status, false; }
      status, i, mul := status + mul * DigitValue(b[i]), i + 1, if mul == 100 then 10 else 1;
    }
  }

  /** `phr_parse_response`, with `parse_response` inlined. */
  method PhrResponse(b: seq<byte>, max: nat, lastLen: nat, sse: bool) returns (r: Response)
    requires lastLen <= |b|
    ensures r == PhrParseResponse(b, max, lastLen)
  {
    hide Version, Headers, ToEol, IsComplete, Status;
    r := NO_RESPONSE;
    if lastLen != 0 {
      var c := CheckComplete(b, lastLen);
      if !c.Got? { return r.(verdict := ToVerdict(c)); }
    }
    var version := ParseHttpVersion(b, 0);
    if !version.Got? { return r.(verdict := ToVerdict(version)); }
    r := r.(minor := version.value);
    var i := version.next;
    if b[i] != SP { return r.(verdict := Rejected); }
    i := i + 1;
    if |b| - i < 4 { return; }
    var status, ok := ParseStatus(b, i);
    r := r.(status := status);
    if !ok { return r.(verdict := Rejected); }
    if b[i + 3] != SP { return r.(verdict := Rejected); }
    var msg := GetTokenToEol(b, i + 4, sse);
    if !msg.Got? { return r.(verdict := ToVerdict(msg)); }
    var end, hs := ParseHeaders(b, msg.next, max, sse);
    r := r.(msg := Some(msg.value), verdict := ToVerdict(end), headers := hs);
  }

  /** `phr_parse_headers`. */
  method PhrHeaders(b: seq<byte>, max: nat, lastLen: nat, sse: bool) returns (end: Parsed<()>, hs: seq<Header>)
    requires lastLen <= |b|
    ensures HeadersOut(end, hs) == PhrParseHeaders(b, max, lastLen)
  {
    if lastLen != 0 {
      var c := CheckComplete(b, lastLen);
      if !c.Got? { return c, []; }
    }
    end, hs := ParseHeaders(b, 0, max, sse);
  }
}
