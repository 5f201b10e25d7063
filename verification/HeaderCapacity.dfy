/**
 * The number of headers of the last parse is the capacity of the next one, and nothing restores it: neither an open
 * verdict nor the reset of the connection for its next request. What that does to well-formed requests, exactly.
 */
module HeaderCapacity {
  import opened Bytes
  import opened Options
  import opened HeadSpec
  import opened HeadGrammar
  import opened PreCheck
  import opened InputBuffer

  // ---------------------------------------------------------------- complete text, any capacity

  /** A block with more lines than the capacity is refused at the line that does not fit. */
  lemma {:induction false} HeadersOver(b: seq<byte>, i: nat, ls: seq<HeaderLine>, blank: LineEnd, hs: seq<Header>,
      max: nat)
    requires forall k :: 0 <= k < |ls| ==> LineOk(ls[k])
    requires hs == [] && ls != [] ==> ls[0].FieldLine?
    requires At(b, i, BlockText(ls, blank)) && |hs| <= max < |hs| + |ls|
    ensures i <= |b| && Headers(b, i, hs, max).end == Reject
    decreases |ls|
  {
    hide At, Headers, Line, LineText, LineHeader, LineOk, EolText;
    var l := ls[0];
    assert BlockText(ls, blank) == LineText(l) + BlockText(ls[1..], blank);
    AtSplit(b, i, LineText(l), BlockText(ls[1..], blank));
    LineAt(b, i, l, hs == []);
    if |hs| == max {
      HeadersFull(b, i, hs, max);
    } else {
      HeadersStep(b, i, hs, max);
      HeadersOver(b, i + |LineText(l)|, ls[1..], blank, hs + [LineHeader(l, i)], max);
    }
  }

  lemma {:induction false} HeadersFull(b: seq<byte>, i: nat, hs: seq<Header>, max: nat)
    requires i < |b| && b[i] != CR && b[i] != LF && |hs| == max
    ensures Headers(b, i, hs, max).end == Reject
  {
  }

  /** The verdict on a well-formed request that is all there: its number of lines against the capacity. */
  lemma {:induction false} CompleteTextVerdict(b: seq<byte>, h: RequestHead, max: nat)
    requires RequestOk(h) && RequestText(h) <= b
    ensures ParseRequest(b, max).verdict == if |h.lines| <= max then Accepted(|RequestText(h)|) else Rejected
  {
    hide At, Headers, ParseRequest, BlockText, RequestLineText;
    if |h.lines| <= max {
      ParsesRequestText(b, h, max);
    } else {
      RequestBlockAt(b, h);
      RequestLineParsed(b, h, max);
      HeadersOver(b, |RequestLineText(h)|, h.lines, h.blank, [], max);
    }
  }

  // ---------------------------------------------------------------- text cut somewhere

  /** How many of the lines lie whole in the first `q` bytes of their text. */
  function CompleteLines(ls: seq<HeaderLine>, q: nat): (n: nat)
    ensures n <= |ls|
    ensures n == |ls| <==> q >= |LinesText(ls)|
  {
    if ls == [] || q < |LineText(ls[0])| then 0 else 1 + CompleteLines(ls[1..], q - |LineText(ls[0])|)
  }

  lemma {:induction false} EolEndsInLf(b: seq<byte>, i: nat)
    requires i <= |b| && Eol(b, i).Got?
    ensures b[Eol(b, i).next - 1] == LF
  {
  }

  lemma {:induction false} LineEndsInLf(b: seq<byte>, i: nat, first: bool)
    requires i < |b| && Line(b, i, first).Got?
    ensures b[Line(b, i, first).next - 1] == LF
  {
    hide Eol;
    var j := if first || !Blank(b[i]) then Scan(b, Name(b, i).next, NotBlank) else i;
    EolEndsInLf(b, Scan(b, j, EolStop));
  }

  /** Without another LF no further header is counted. */
  lemma {:induction false} NoLfNoHeaders(b: seq<byte>, i: nat, hs: seq<Header>, max: nat)
    requires i <= |b| && LF !in b[i..]
    ensures Headers(b, i, hs, max).headers == hs
  {
    hide Line, Eol;
    if i < |b| && Line(b, i, hs == []).Got? {
      LineEndsInLf(b, i, hs == []);
      assert false;
    }
  }

  /** An LF ends a header line and stands nowhere else in it. */
  lemma {:induction false} LineBodyNoLf(l: HeaderLine)
    requires LineOk(l)
    ensures LineBody(l) != [] && LF !in LineBody(l)
    ensures LineBody(l)[0] != CR && LineBody(l)[0] != LF
  {
    assert forall i :: 0 <= i < |l.text| ==> !EolStop(l.text[i]);
    if l.FieldLine? {
      assert forall i :: 0 <= i < |l.name| ==> TokenChar(l.name[i]);
      assert forall i :: 0 <= i < |l.blanks| ==> Blank(l.blanks[i]);
    }
  }

  lemma {:induction false} CutBodyNoLf(body: seq<byte>, e: LineEnd, q: nat)
    requires LF !in body && q < |body + EolText(e)|
    ensures LF !in (body + EolText(e))[..q]
  {
  }

  lemma {:induction false} TailNoLf(b: seq<byte>, i: nat, t: seq<byte>)
    requires At(b, i, t) && LF !in t && LF !in b[i + |t|..]
    ensures LF !in b[i..]
  {
    assert b[i..] == t + b[i + |t|..];
  }

  lemma {:induction false} CutAt(b: seq<byte>, i: nat, x: seq<byte>, y: seq<byte>, q: nat)
    requires |x| <= q <= |x + y| && At(b, i, (x + y)[..q])
    ensures At(b, i, x) && At(b, i + |x|, y[..q - |x|])
  {
    assert (x + y)[..q] == x + y[..q - |x|];
    AtSplit(b, i, x, y[..q - |x|]);
  }

  /**
   * A header block of which the first `q` bytes are there, and the parser asks for more: every line that lies in
   * them is counted, and no other one unless the bytes behind them bring its line end.
   */
  lemma {:induction false} CutBlock(b: seq<byte>, i: nat, ls: seq<HeaderLine>, blank: LineEnd, q: nat,
      hs: seq<Header>, max: nat)
    requires forall k :: 0 <= k < |ls| ==> LineOk(ls[k])
    requires hs == [] && ls != [] ==> ls[0].FieldLine?
    requires q < |BlockText(ls, blank)| && At(b, i, BlockText(ls, blank)[..q])
    requires Headers(b, i, hs, max).end == More
    ensures var n := |Headers(b, i, hs, max).headers|;
      && n >= |hs| + CompleteLines(ls, q)
      && (LF !in b[i + q..] ==> n == |hs| + CompleteLines(ls, q))
    decreases |ls|
  {
    hide At, Headers, Line, LineHeader, LineOk, EolText, LineBody;
    AtIndex(b, i, BlockText(ls, blank)[..q]);
    if ls == [] {
      assert BlockText(ls, blank) == [] + EolText(blank);
    } else {
      assert BlockText(ls, blank) == LineText(ls[0]) + BlockText(ls[1..], blank);
    }
    if ls == [] || q < |LineText(ls[0])| {
      var body := if ls == [] then [] else LineBody(ls[0]);
      var e := if ls == [] then blank else ls[0].eol;
      if ls != [] {
        LineBodyNoLf(ls[0]);
      }
      assert BlockText(ls, blank)[..q] == (body + EolText(e))[..q];
      CutBodyNoLf(body, e, q);
      if LF !in b[i + q..] {
        TailNoLf(b, i, BlockText(ls, blank)[..q]);
        NoLfNoHeaders(b, i, hs, max);
      }
    } else {
      var l := ls[0];
      CutAt(b, i, LineText(l), BlockText(ls[1..], blank), q);
      LineAt(b, i, l, hs == []);
      if |hs| == max {
        HeadersFull(b, i, hs, max);
      }
      HeadersStep(b, i, hs, max);
      CutBlock(b, i + |LineText(l)|, ls[1..], blank, q - |LineText(l)|, hs + [LineHeader(l, i)], max);
    }
  }

  /** A request line between its leading line end and its own. */
  function InnerText(h: RequestHead): seq<byte>
    requires h.minor < 10
  {
    h.verb + ([SP] + (h.path + ([SP] + VersionText(h.minor))))
  }

  lemma {:induction false} InnerNoLf(h: RequestHead)
    requires RequestOk(h)
    ensures InnerText(h) != [] && LF !in InnerText(h) && InnerText(h)[0] != CR
    ensures RequestLineText(h) == LeadText(h.lead) + (InnerText(h) + EolText(h.eol))
  {
    assert forall i :: 0 <= i < |h.verb| ==> !TokenStop(h.verb[i]);
    assert forall i :: 0 <= i < |h.path| ==> !TokenStop(h.path[i]);
  }

  /** Behind the leading line end a request line needs an LF before headers are looked at. */
  lemma {:induction false} NoLfNoRequestHeaders(b: seq<byte>, max: nat)
    requires OptionalEol(b, 0).Got? ==> LF !in b[OptionalEol(b, 0).next..]
    ensures ParseRequest(b, max).headers == []
  {
    hide OptionalEol, Token, Version, Eol, Headers;
    if ParseRequest(b, max).headers != [] {
      var k := Token(b, Token(b, OptionalEol(b, 0).next).next).next;
      EolEndsInLf(b, Version(b, k).next);
      assert false;
    }
  }

  /** A request cut inside its request line: no header is counted. */
  lemma {:induction false} CutLine(b: seq<byte>, h: RequestHead, p: nat, max: nat)
    requires RequestOk(h) && p < |RequestLineText(h)| && RequestLineText(h)[..p] <= b && LF !in b[p..]
    ensures ParseRequest(b, max).headers == []
  {
    hide At, ParseRequest, RequestLineText, InnerText, EolText, LinesOk;
    InnerNoLf(h);
    var lead, rest := LeadText(h.lead), InnerText(h) + EolText(h.eol);
    AtPrefix(b, RequestLineText(h)[..p]);
    if |lead| <= p {
      CutBodyNoLf(InnerText(h), h.eol, p - |lead|);
      CutAt(b, 0, lead, rest, p);
      TailNoLf(b, |lead|, rest[..p - |lead|]);
      if h.lead.Some? {
        EolAt(b, 0, h.lead.value);
      }
    } else {
      CutBodyNoLf([], h.lead.value, p);
      assert [] + EolText(h.lead.value) == lead && RequestLineText(h)[..p] == lead[..p];
      TailNoLf(b, 0, RequestLineText(h)[..p]);
    }
    NoLfNoRequestHeaders(b, max);
  }

  /** The lines of a request that lie whole in its first `p` bytes. */
  function LinesWithin(h: RequestHead, p: nat): (n: nat)
    requires h.minor < 10
    ensures n <= |h.lines|
    ensures n == |h.lines| <==> h.lines == [] || p >= |RequestLineText(h)| + |LinesText(h.lines)|
  {
    if p < |RequestLineText(h)| then 0 else CompleteLines(h.lines, p - |RequestLineText(h)|)
  }

  /**
   * What an open verdict on the first `p` bytes of a request leaves as the count: at least the lines that are all
   * there, and just those if the bytes behind them bring no line end.
   */
  lemma {:induction false} OpenCount(b: seq<byte>, h: RequestHead, p: nat, max: nat)
    requires RequestOk(h) && p < |RequestText(h)| && RequestText(h)[..p] <= b
    requires ParseRequest(b, max).verdict == Incomplete
    ensures var n := |ParseRequest(b, max).headers|;
      n >= LinesWithin(h, p) && (LF !in b[p..] ==> n == LinesWithin(h, p))
  {
    hide At, Headers, ParseRequest, BlockText, RequestLineText, LinesText;
    var line, block := RequestLineText(h), BlockText(h.lines, h.blank);
    if p < |line| {
      assert RequestText(h)[..p] == line[..p];
      if LF !in b[p..] {
        CutLine(b, h, p, max);
      }
    } else {
      AtPrefix(b, RequestText(h)[..p]);
      CutAt(b, 0, line, block, p);
      AtPrefix(b, line);
      RequestLineParsed(b, h, max);
      CutBlock(b, |line|, h.lines, h.blank, p - |line|, [], max);
    }
  }

  // ---------------------------------------------------------------- the calls the server makes

  /**
   * A request that arrives in two pieces cut at `p`, whatever stands behind the bytes received at either call. The
   * second call has the first one's header count as its capacity, and that decides. So the request gets through if
   * all its lines were there at first; and when no leftover LF counted a line too early, only then.
   */
  lemma {:induction false} SplitRequestVerdict(h: RequestHead, p: nat, tail1: seq<byte>, tail2: seq<byte>, max: nat)
    requires RequestOk(h) && p < |RequestText(h)|
    requires PhrParseRequest(RequestText(h)[..p] + tail1, max, 0).verdict == Incomplete
    ensures var count := |PhrParseRequest(RequestText(h)[..p] + tail1, max, 0).headers|;
            var v := PhrParseRequest(RequestText(h) + tail2, count, p).verdict;
            var allThere := h.lines == [] || p >= |RequestLineText(h)| + |LinesText(h.lines)|;
      && v == (if |h.lines| <= count then Accepted(|RequestText(h)|) else Rejected)
      && (allThere ==> v.Accepted?)
      && (LF !in tail1 ==> (v.Accepted? <==> allThere))
  {
    hide ParseRequest, RequestText, RequestLineText, LinesText, LinesOk, IsComplete;
    var b := RequestText(h)[..p] + tail1;
    assert b[p..] == tail1;
    OpenCount(b, h, p, max);
    LastCall(h, tail2, |ParseRequest(b, max).headers|, p);
  }

  /** The call at which the request is all there. */
  lemma {:induction false} LastCall(h: RequestHead, tail: seq<byte>, max: nat, lastLen: nat)
    requires RequestOk(h) && lastLen < |RequestText(h)|
    ensures var r := PhrParseRequest(RequestText(h) + tail, max, lastLen);
      && r.verdict == (if |h.lines| <= max then Accepted(|RequestText(h)|) else Rejected)
      && (r.verdict.Accepted? ==> |r.headers| == |h.lines|)
  {
    hide ParseRequest, RequestText, LinesOk, IsComplete;
    RequestPassesPreCheck(RequestText(h) + tail, h, lastLen);
    CompleteTextVerdict(RequestText(h) + tail, h, max);
    if |h.lines| <= max {
      ParsesRequestText(RequestText(h) + tail, h, max);
    }
  }

  /**
   * The reset of a connection does not restore the count either: the next request gets through exactly when it has no
   * more lines than the one before.
   */
  lemma {:induction false} NextRequestVerdict(h: RequestHead, tail: seq<byte>, h': RequestHead, tail': seq<byte>,
      max: nat)
    requires RequestOk(h) && RequestOk(h') && |h.lines| <= max
    ensures var first := PhrParseRequest(RequestText(h) + tail, max, 0);
      && first.verdict.Accepted?
      && PhrParseRequest(RequestText(h') + tail', |first.headers|, 0).verdict ==
         if |h'.lines| <= |h.lines| then Accepted(|RequestText(h')|) else Rejected
  {
    hide ParseRequest, RequestText, LinesOk;
    ParsesRequestText(RequestText(h) + tail, h, max);
    CompleteTextVerdict(RequestText(h') + tail', h', |h.lines|);
  }

  /** A request line with token characters behind it leaves the verdict open and no header counted. */
  lemma {:induction false} RequestLineOpen(h: RequestHead, n: nat, max: nat)
    requires RequestOk(h) && (n > 0 ==> max > 0)
    ensures var r := ParseRequest(RequestLineText(h) + Repeat(97, n), max); r.verdict == Incomplete && r.headers == []
  {
    hide ParseRequest, RequestLineText, LinesOk;
    var b, i := RequestLineText(h) + Repeat(97, n), |RequestLineText(h)|;
    RequestLineParsed(b, h, max);
    assert forall k :: i <= k < |b| ==> b[k] == 97;
    assert Scan(b, i, NameStop) == |b|;
  }

  /**
   * One real input: the request line arrives first, in a buffer filled with letters. The request has no more lines
   * than fit and would be accepted in one piece, but is refused.
   */
  lemma {:induction false} SplitAfterRequestLineRefused(h: RequestHead, n: nat, rest: seq<byte>)
    requires RequestOk(h) && 0 < |h.lines| <= NUM_HEADERS
    ensures PhrParseRequest(RequestText(h) + rest, NUM_HEADERS, 0).verdict == Accepted(|RequestText(h)|)
    ensures var first := PhrParseRequest(RequestLineText(h) + Repeat(97, n), NUM_HEADERS, 0);
      && first.verdict == Incomplete && first.headers == []
      && PhrParseRequest(RequestText(h) + rest, |first.headers|, |RequestLineText(h)|).verdict == Rejected
  {
    hide ParseRequest, BlockText, RequestLineText, LineOk, IsComplete;
    RequestLineOpen(h, n, NUM_HEADERS);
    BlockOneBlank(h.lines, h.blank);
    LastCall(h, rest, NUM_HEADERS, 0);
    LastCall(h, rest, 0, |RequestLineText(h)|);
  }

  // ---------------------------------------------------------------- any number of pieces

  /** One round: how many bytes of the request have arrived, and what stands behind them in the buffer. */
  datatype Round = Round(cut: nat, tail: seq<byte>)

  /** The first round brings bytes, later ones may bring none, and the last one brings the rest of the request. */
  predicate Delivers(text: seq<byte>, rs: seq<Round>, prev: nat) {
    && rs != [] && prev < |text| && prev <= rs[0].cut && 0 < rs[0].cut <= |text|
    && (if |rs| == 1 then rs[0].cut == |text| else Delivers(text, rs[1..], rs[0].cut))
  }

  function ParseRound(text: seq<byte>, r: Round, prev: nat, max: nat): Request
    requires prev <= r.cut <= |text|
  {
    PhrParseRequest(text[..r.cut] + r.tail, max, prev)
  }

  /** Every round but the last leaves the verdict open. */
  predicate Pending(text: seq<byte>, rs: seq<Round>, prev: nat, max: nat)
    requires Delivers(text, rs, prev)
  {
    |rs| == 1 ||
    var r := ParseRound(text, rs[0], prev, max);
    r.verdict == Incomplete && Pending(text, rs[1..], rs[0].cut, |r.headers|)
  }

  /** The parse of the last round, each round's header count being the next one's capacity. */
  function LastRound(text: seq<byte>, rs: seq<Round>, prev: nat, max: nat): Request
    requires Delivers(text, rs, prev)
  {
    var r := ParseRound(text, rs[0], prev, max);
    if |rs| == 1 then r else LastRound(text, rs[1..], rs[0].cut, |r.headers|)
  }

  /** The only line ends in a row are the last one in front of `n` and the one at `n`. */
  predicate OneBlank(t: seq<byte>, n: nat) {
    forall x :: 0 <= x < |t| - 1 && t[x] == LF && (t[x + 1] == CR || t[x + 1] == LF) ==> x + 1 == n
  }

  lemma {:induction false} OneBlankBehind(body: seq<byte>, e: LineEnd, t: seq<byte>, n: nat)
    requires LF !in body && t != [] && OneBlank(t, n) && (t[0] == CR || t[0] == LF ==> n == 0)
    ensures OneBlank(body + EolText(e) + t, |body| + |EolText(e)| + n)
  {
    var u, k := body + EolText(e) + t, |body| + |EolText(e)|;
    forall x | 0 <= x < |u| - 1 && u[x] == LF && (u[x + 1] == CR || u[x + 1] == LF)
      ensures x + 1 == k + n
    {
      if x >= k {
        assert u[x] == t[x - k] && u[x + 1] == t[x - k + 1];
      }
    }
  }

  lemma {:induction false} BlockOneBlank(ls: seq<HeaderLine>, blank: LineEnd)
    requires forall k :: 0 <= k < |ls| ==> LineOk(ls[k])
    ensures OneBlank(BlockText(ls, blank), |LinesText(ls)|)
    ensures BlockText(ls, blank) != []
    ensures ls != [] ==> BlockText(ls, blank)[0] != CR && BlockText(ls, blank)[0] != LF
    decreases |ls|
  {
    hide OneBlank, LineOk, LineBody, EolText;
    EolNotEmpty(blank);
    if ls == [] {
      assert BlockText(ls, blank) == EolText(blank);
      EolOneBlank(blank);
    } else {
      var l, t := ls[0], BlockText(ls[1..], blank);
      BlockOneBlank(ls[1..], blank);
      LineBodyNoLf(l);
      OneBlankBehind(LineBody(l), l.eol, t, |LinesText(ls[1..])|);
      assert BlockText(ls, blank) == LineBody(l) + EolText(l.eol) + t;
    }
  }

  lemma {:induction false} EolOneBlank(e: LineEnd)
    ensures OneBlank(EolText(e), 0)
  {
  }

  lemma {:induction false} RequestOneBlank(h: RequestHead)
    requires RequestOk(h)
    ensures OneBlank(RequestText(h), |RequestLineText(h)| + |LinesText(h.lines)|)
  {
    hide OneBlank, BlockText, InnerText, EolText, RequestLineText, LinesText;
    var block, n := BlockText(h.lines, h.blank), |LinesText(h.lines)|;
    BlockOneBlank(h.lines, h.blank);
    EmptyLines(h.lines);
    InnerNoLf(h);
    OneBlankBehind(InnerText(h), h.eol, block, n);
    var t, n' := InnerText(h) + EolText(h.eol) + block, |InnerText(h)| + |EolText(h.eol)| + n;
    assert t[0] == InnerText(h)[0];
    assert RequestText(h) == LeadText(h.lead) + t;
    if h.lead.Some? {
      OneBlankBehind([], h.lead.value, t, n');
      assert [] + EolText(h.lead.value) + t == RequestText(h);
    } else {
      assert RequestText(h) == t;
    }
  }

  lemma {:induction false} EmptyLines(ls: seq<HeaderLine>)
    ensures ls == [] ==> LinesText(ls) == []
  {
  }

  /** Until the request is all there, leftovers without an LF do not get it past the pre-check. */
  lemma {:induction false} CutFailsPreCheck(b: seq<byte>, h: RequestHead, p: nat, lastLen: nat)
    requires RequestOk(h) && p < |RequestText(h)| && RequestText(h)[..p] <= b && LF !in b[p..] && lastLen <= |b|
    ensures !IsComplete(b, lastLen).Got?
  {
    hide RequestText, RequestOk;
    var i := if lastLen < 3 then 0 else lastLen - 3;
    TwoEolsExactly(b, i, 0);
    if x: nat :| i <= x < |b| && b[x] == LF && Eol(b, x + 1).Got? {
      CutHasNoBlank(b, h, p, x);
      assert false;
    }
  }

  lemma {:induction false} CutHasNoBlank(b: seq<byte>, h: RequestHead, p: nat, x: nat)
    requires RequestOk(h) && p < |RequestText(h)| && RequestText(h)[..p] <= b && LF !in b[p..]
    requires x < |b| && b[x] == LF
    ensures !Eol(b, x + 1).Got?
  {
    hide RequestLineText, LinesText, LinesOk;
    var t, n := RequestText(h), |RequestLineText(h)| + |LinesText(h.lines)|;
    RequestOneBlank(h);
    assert forall k :: 0 <= k < p ==> b[k] == t[..p][k] == t[k];
    assert forall k :: p <= k < |b| ==> b[k] == b[p..][k - p] && b[k] != LF;
    assert t == RequestLineText(h) + LinesText(h.lines) + EolText(h.blank);
    assert |t| == n + |EolText(h.blank)| && t[n] == EolText(h.blank)[0];
    if Eol(b, x + 1).Got? {
      EolEndsInLf(b, x + 1);
      assert false;
    }
  }

  // ---------------------------------------------------------------- what a later round counts

  /** A header line ends at its only LF. */
  lemma {:induction false} LineHasOneLf(b: seq<byte>, i: nat, first: bool, y: nat)
    requires i < |b| && b[i] != CR && b[i] != LF && Line(b, i, first).Got? && i <= y < Line(b, i, first).next - 1
    ensures b[y] != LF
  {
    hide Line, LineOk;
    var l := LineOf(b, i, first);
    LineBodyNoLf(l);
    AtIndex(b, i, LineText(l));
    assert LineText(l) == LineBody(l) + EolText(l.eol);
  }

  lemma {:induction false} OpenLineHasNoLf(b: seq<byte>, i: nat, first: bool, y: nat)
    requires i < |b| && Line(b, i, first).More? && i <= y < |b|
    ensures b[y] != LF
  {
  }

  /** While a header block is open, no line end in it or in front of it has another one right behind it. */
  lemma {:induction false} OpenBlockNoBlank(b: seq<byte>, i: nat, hs: seq<Header>, max: nat, x: nat)
    requires i <= |b| && Headers(b, i, hs, max).end == More
    requires i <= x + 1 && x < |b| && b[x] == LF
    ensures !Eol(b, x + 1).Got?
    decreases |b| - i
  {
    hide Line;
    if i < |b| && b[i] != CR && b[i] != LF && x >= i {
      var r := Line(b, i, hs == []);
      if r.More? {
        OpenLineHasNoLf(b, i, hs == [], x);
        assert false;
      } else {
        if x < r.next - 1 {
          LineHasOneLf(b, i, hs == [], x);
          assert false;
        }
        OpenBlockNoBlank(b, r.next, hs + [r.value], max, x);
      }
    }
  }

  lemma {:induction false} VersionHasNoLf(b: seq<byte>, k: nat, y: nat)
    requires k <= |b| && Version(b, k).Got? && k <= y < k + 8
    ensures b[y] != LF
  {
    assert y < k + 7 ==> b[y] == b[k..k + 7][y - k] == VERSION_PREFIX[y - k];
  }

  /** Nor does one in a request line that was read to its end. */
  lemma {:induction false} RequestLineNoBlank(b: seq<byte>, x: nat)
    requires OptionalEol(b, 0).Got?
    requires var i := OptionalEol(b, 0).next;
      && Token(b, i).Got? && Token(b, Token(b, i).next).Got?
      && var k := Token(b, Token(b, i).next).next;
      && Version(b, k).Got? && Eol(b, k + 8).Got? && x < Eol(b, k + 8).next - 1
    requires b[x] == LF
    ensures !Eol(b, x + 1).Got?
  {
    var i := OptionalEol(b, 0).next;
    var k := Token(b, Token(b, i).next).next;
    if k <= x < k + 8 {
      VersionHasNoLf(b, k, x);
      assert false;
    }
  }

  lemma {:induction false} OpenNoBlank(b: seq<byte>, max: nat, x: nat)
    requires ParseRequest(b, max).verdict == Incomplete && ParseRequest(b, max).headers != []
    requires x < |b| && b[x] == LF
    ensures !Eol(b, x + 1).Got?
  {
    hide OptionalEol, Token, Version, Eol, Headers;
    var k := Token(b, Token(b, OptionalEol(b, 0).next).next).next;
    var n := Eol(b, k + 8).next;
    if x < n - 1 {
      RequestLineNoBlank(b, x);
    } else {
      OpenBlockNoBlank(b, n, [], max, x);
    }
  }

  /**
   * A call with `last_len` that leaves the verdict open leaves no header counted: if it counted one, there is no blank
   * line yet, and then the pre-check has stopped it before it looked for headers.
   */
  lemma {:induction false} LaterRoundLeavesNothing(b: seq<byte>, max: nat, lastLen: nat)
    requires 0 < lastLen <= |b| && PhrParseRequest(b, max, lastLen).verdict == Incomplete
    ensures PhrParseRequest(b, max, lastLen).headers == []
  {
    hide ParseRequest;
    var i := if lastLen < 3 then 0 else lastLen - 3;
    if IsComplete(b, lastLen).Got? && ParseRequest(b, max).headers != [] {
      TwoEolsExactly(b, i, 0);
      var x: nat :| i <= x < |b| && b[x] == LF && Eol(b, x + 1).Got?;
      OpenNoBlank(b, max, x);
      assert false;
    }
  }

  // ---------------------------------------------------------------- requests in pieces

  lemma {:induction false} NoCapacityLeft(h: RequestHead, rs: seq<Round>, prev: nat)
    requires RequestOk(h) && Delivers(RequestText(h), rs, prev) && Pending(RequestText(h), rs, prev, 0)
    ensures var r := LastRound(RequestText(h), rs, prev, 0);
      && r.verdict == (if h.lines == [] then Accepted(|RequestText(h)|) else Rejected)
      && (r.verdict.Accepted? ==> |r.headers| == |h.lines|)
    decreases |rs|
  {
    hide ParseRequest, RequestText, LinesOk, IsComplete;
    if |rs| == 1 {
      assert RequestText(h)[..rs[0].cut] == RequestText(h);
      LastCall(h, rs[0].tail, 0, prev);
    } else {
      NoCapacityLeft(h, rs[1..], rs[0].cut);
    }
  }

  /** The lines of the request fit what its rounds leave as capacity. */
  predicate Fits(h: RequestHead, rs: seq<Round>, max: nat)
    requires h.minor < 10 && Delivers(RequestText(h), rs, 0)
  {
    || h.lines == [] || (|rs| == 1 && |h.lines| <= max)
    || (|rs| == 2 && |h.lines| <= |ParseRound(RequestText(h), rs[0], 0, max).headers|)
  }

  /**
   * A request with header lines gets through exactly if it arrives in one piece, or in two pieces of which the first
   * counted all its lines: from the third piece on the second one has left no capacity. Whatever stands in the buffer
   * behind the bytes received, as long as no earlier round came to a verdict on it.
   */
  lemma {:induction false} DeliveryExactly(h: RequestHead, rs: seq<Round>, max: nat)
    requires RequestOk(h) && Delivers(RequestText(h), rs, 0) && Pending(RequestText(h), rs, 0, max)
    ensures var r := LastRound(RequestText(h), rs, 0, max);
      && r.verdict == (if Fits(h, rs, max) then Accepted(|RequestText(h)|) else Rejected)
      && (r.verdict.Accepted? ==> |r.headers| == |h.lines|)
  {
    hide ParseRequest, RequestText, LinesOk, IsComplete;
    var t := RequestText(h);
    if |rs| == 1 {
      assert t[..rs[0].cut] == t;
      LastCall(h, rs[0].tail, max, 0);
    } else if |rs| == 2 {
      assert t[..rs[1].cut] == t;
      LastCall(h, rs[1].tail, |ParseRound(t, rs[0], 0, max).headers|, rs[0].cut);
    } else {
      assert Delivers(t, rs[1..], rs[0].cut) && Delivers(t, rs[1..][1..], rs[1].cut) && rs[1..][1..] == rs[2..];
      LaterRoundLeavesNothing(t[..rs[1].cut] + rs[1].tail, |ParseRound(t, rs[0], 0, max).headers|, rs[0].cut);
      NoCapacityLeft(h, rs[2..], rs[1].cut);
    }
  }

  /** If the leftovers behind the first piece bring no LF, its count is told from where it was cut. */
  lemma {:induction false} FitsByCut(h: RequestHead, rs: seq<Round>, max: nat)
    requires RequestOk(h) && Delivers(RequestText(h), rs, 0) && Pending(RequestText(h), rs, 0, max)
    requires |rs| == 2 && LF !in rs[0].tail
    ensures Fits(h, rs, max) <==> h.lines == [] || rs[0].cut >= |RequestLineText(h)| + |LinesText(h.lines)|
  {
    hide ParseRequest, RequestText, RequestLineText, LinesText, LinesOk, IsComplete;
    var b := RequestText(h)[..rs[0].cut] + rs[0].tail;
    assert b[rs[0].cut..] == rs[0].tail;
    OpenCount(b, h, rs[0].cut, max);
  }

  // ---------------------------------------------------------------- whole connections

  /** One request of a connection and the rounds it arrives in. */
  datatype Delivery = Delivery(head: RequestHead, rounds: seq<Round>)

  predicate DeliveryOk(d: Delivery) { RequestOk(d.head) && Delivers(RequestText(d.head), d.rounds, 0) }

  /** The rounds of the request are parsed with the given capacity to begin with, and the last one accepts it. */
  predicate Answered(d: Delivery, max: nat)
    requires DeliveryOk(d)
  {
    && Pending(RequestText(d.head), d.rounds, 0, max)
    && LastRound(RequestText(d.head), d.rounds, 0, max).verdict == Accepted(|RequestText(d.head)|)
  }

  /** Every request of a connection is answered, each parsed with the header count the one before left. */
  predicate AllAnswered(ds: seq<Delivery>, max: nat)
    requires forall i :: 0 <= i < |ds| ==> DeliveryOk(ds[i])
  {
    ds == [] ||
    assert DeliveryOk(ds[0]);
    && Answered(ds[0], max)
    && AllAnswered(ds[1..], |LastRound(RequestText(ds[0].head), ds[0].rounds, 0, max).headers|)
  }

  /** The number of lines of the request before number `i`, and `max` before the first. */
  function LinesBefore(ds: seq<Delivery>, max: nat, i: nat): nat
    requires i < |ds|
  {
    if i == 0 then max else |ds[i - 1].head.lines|
  }

  /** With this capacity no round but the last comes to a verdict, and the lines fit. */
  predicate GetsThrough(d: Delivery, max: nat)
    requires DeliveryOk(d)
  {
    Pending(RequestText(d.head), d.rounds, 0, max) && Fits(d.head, d.rounds, max)
  }

  predicate AllGetThrough(ds: seq<Delivery>, max: nat)
    requires forall i :: 0 <= i < |ds| ==> DeliveryOk(ds[i])
  {
    forall i :: 0 <= i < |ds| ==> GetsThrough(ds[i], LinesBefore(ds, max, i))
  }

  /**
   * A connection that is kept alive answers all its requests, in however many pieces they arrive, exactly when each
   * gets through with the number of lines of the one before as its capacity.
   */
  lemma {:induction false} KeptAliveExactly(ds: seq<Delivery>, max: nat)
    requires forall i :: 0 <= i < |ds| ==> DeliveryOk(ds[i])
    ensures AllAnswered(ds, max) <==> AllGetThrough(ds, max)
    decreases |ds|
  {
    hide DeliveryOk, RequestText, Delivers, Pending, LastRound, Fits;
    if ds != [] {
      assert DeliveryOk(ds[0]);
      AnsweredIff(ds[0], max);
      if GetsThrough(ds[0], max) {
        KeptAliveExactly(ds[1..], |ds[0].head.lines|);
        ShiftThrough(ds, max);
      } else {
        assert !GetsThrough(ds[0], LinesBefore(ds, max, 0));
      }
    }
  }

  lemma {:induction false} AnsweredIff(d: Delivery, max: nat)
    requires DeliveryOk(d)
    ensures Answered(d, max) <==> GetsThrough(d, max)
    ensures Answered(d, max) ==> |LastRound(RequestText(d.head), d.rounds, 0, max).headers| == |d.head.lines|
  {
    hide RequestText, Delivers, Pending, LastRound, Fits;
    if Pending(RequestText(d.head), d.rounds, 0, max) {
      DeliveryExactly(d.head, d.rounds, max);
    }
  }

  lemma {:induction false} ShiftThrough(ds: seq<Delivery>, max: nat)
    requires forall i :: 0 <= i < |ds| ==> DeliveryOk(ds[i])
    requires ds != [] && GetsThrough(ds[0], max)
    ensures AllGetThrough(ds, max) <==> AllGetThrough(ds[1..], |ds[0].head.lines|)
  {
    hide DeliveryOk, GetsThrough;
    var rest, first := ds[1..], |ds[0].head.lines|;
    assert forall i :: 0 <= i < |rest| ==>
        rest[i] == ds[i + 1] && LinesBefore(rest, first, i) == LinesBefore(ds, max, i + 1);
    if AllGetThrough(rest, first) {
      forall i | 0 <= i < |ds|
        ensures GetsThrough(ds[i], LinesBefore(ds, max, i))
      {
        if i > 0 {
          assert GetsThrough(rest[i - 1], LinesBefore(rest, first, i - 1));
        }
      }
    }
  }

  /** When every request arrives in one piece, that is: exactly when their numbers of lines never grow. */
  lemma {:induction false} KeptAliveInOnePiece(ds: seq<Delivery>, max: nat)
    requires forall i :: 0 <= i < |ds| ==> DeliveryOk(ds[i]) && |ds[i].rounds| == 1
    ensures AllAnswered(ds, max) <==>
            forall i :: 0 <= i < |ds| ==> |ds[i].head.lines| <= LinesBefore(ds, max, i)
  {
    hide AllAnswered, RequestText, RequestOk;
    KeptAliveExactly(ds, max);
    forall i | 0 <= i < |ds|
      ensures GetsThrough(ds[i], LinesBefore(ds, max, i)) <==> |ds[i].head.lines| <= LinesBefore(ds, max, i)
    {
      assert DeliveryOk(ds[i]);
    }
  }
}
