/**
 * The "did the rest arrive" pre-check looks for two line ends in a row near the bytes that are new. It never
 * changes whether a head is accepted, as long as the bytes seen before were not a complete head themselves.
 */
module PreCheck {
  import opened Bytes
  import opened Options
  import opened HeadSpec
  import opened HeadGrammar
  import opened HeadStability

  /** Every CR has its LF right behind it. */
  predicate CrSafe(t: seq<byte>) {
    forall i :: 0 <= i < |t| && t[i] == CR ==> i + 1 < |t| && t[i + 1] == LF
  }

  lemma {:induction false} CrSafeConcat(x: seq<byte>, y: seq<byte>)
    requires CrSafe(x) && CrSafe(y)
    ensures CrSafe(x + y)
  {
    forall i | 0 <= i < |x + y| && (x + y)[i] == CR
      ensures i + 1 < |x + y| && (x + y)[i + 1] == LF
    {
      if i < |x| {
        assert x[i] == CR;
      } else {
        assert y[i - |x|] == CR;
      }
    }
  }

  lemma {:induction false} CrSafeNone(t: seq<byte>)
    requires CR !in t
    ensures CrSafe(t)
  {
  }

  lemma {:induction false} LineBodyNoCr(l: HeaderLine)
    requires LineOk(l)
    ensures LineBody(l) != [] && CR !in LineBody(l) && LineText(l) == LineBody(l) + EolText(l.eol)
  {
    assert forall i :: 0 <= i < |l.text| ==> !EolStop(l.text[i]);
    if l.FieldLine? {
      assert forall i :: 0 <= i < |l.name| ==> TokenChar(l.name[i]);
      assert forall i :: 0 <= i < |l.blanks| ==> Blank(l.blanks[i]);
    }
  }

  /** After well-formed lines the text is a prefix with paired CRs and one more whole line end. */
  lemma {:induction false} LinesKeepEnd(pre: seq<byte>, e: LineEnd, ls: seq<HeaderLine>)
      returns (pre': seq<byte>, e': LineEnd)
    requires forall i :: 0 <= i < |ls| ==> LineOk(ls[i])
    requires CrSafe(pre)
    ensures CrSafe(pre') && (pre + EolText(e)) + LinesText(ls) == pre' + EolText(e')
    decreases |ls|
  {
    hide CrSafe, LineOk, LineText, LineBody, EolText;
    var t := pre + EolText(e);
    if ls == [] {
      pre', e' := pre, e;
      assert t + LinesText(ls) == t;
    } else {
      var l := ls[0];
      LineBodyNoCr(l);
      CrSafeNone(LineBody(l));
      CrSafeLine(pre, e);
      CrSafeConcat(t, LineBody(l));
      pre', e' := LinesKeepEnd(t + LineBody(l), l.eol, ls[1..]);
      assert t + LinesText(ls) == ((t + LineBody(l)) + EolText(l.eol)) + LinesText(ls[1..]);
    }
  }

  lemma {:induction false} CrSafeLine(pre: seq<byte>, e: LineEnd)
    requires CrSafe(pre)
    ensures CrSafe(pre + EolText(e))
  {
    CrSafeConcat(pre, EolText(e));
  }

  /** Whatever the count so far, scanning a prefix with paired CRs finds the two line ends behind it. */
  lemma {:induction false} FindsTwoEols(b: seq<byte>, i: nat, cnt: nat, pre: seq<byte>, e: LineEnd, blank: LineEnd)
    requires cnt < 2 && CrSafe(pre) && i <= |pre| <= |b| && pre == b[..|pre|]
    requires At(b, |pre|, EolText(e)) && At(b, |pre| + |EolText(e)|, EolText(blank))
    ensures TwoEols(b, i, cnt).Got?
    decreases |pre| - i
  {
    hide At, EolText;
    if i < |pre| {
      assert b[i] == pre[i];
      if b[i] == CR {
        assert b[i + 1] == pre[i + 1] == LF;
        FindsTwoEols(b, i + 2, 1, pre, e, blank);
      } else if b[i] == LF {
        FindsTwoEols(b, i + 1, 1, pre, e, blank);
      } else {
        FindsTwoEols(b, i + 1, 0, pre, e, blank);
      }
    } else {
      EolStarts(b, i, e);
      EolAt(b, i, e);
      EolStarts(b, i + |EolText(e)|, blank);
      EolAt(b, i + |EolText(e)|, blank);
    }
  }

  /** From `i` on: an LF with another line end right behind it, and no CR without its LF in front of that. */
  ghost predicate BlankLine(b: seq<byte>, i: nat) {
    exists x: nat ::
      && i <= x < |b| && b[x] == LF && Eol(b, x + 1).Got?
      && forall y :: i <= y < x && b[y] == CR ==> b[y + 1] == LF
  }

  /** What the scan looks for, said over the bytes: a blank line. */
  lemma {:induction false} TwoEolsExactly(b: seq<byte>, i: nat, cnt: nat)
    requires cnt < 2 && cnt <= i <= |b| && (cnt == 1 ==> b[i - 1] == LF)
    ensures TwoEols(b, i, cnt).Got? <==> BlankLine(b, i - cnt)
    decreases |b| - i
  {
    if i == |b| {
    } else if b[i] == CR || b[i] == LF {
      var e := Eol(b, i);
      if cnt == 1 && e.Got? {
        assert b[i - 1] == LF && Eol(b, i - 1 + 1).Got?;
      } else if e.Got? {
        TwoEolsExactly(b, e.next, 1);
      }
    } else {
      TwoEolsExactly(b, i + 1, 0);
    }
  }

  /** The pre-check passes exactly if a blank line begins not more than three bytes in front of the new bytes. */
  lemma {:induction false} PreCheckExactly(b: seq<byte>, lastLen: nat)
    requires lastLen <= |b|
    ensures IsComplete(b, lastLen).Got? <==> BlankLine(b, if lastLen < 3 then 0 else lastLen - 3)
  {
    TwoEolsExactly(b, if lastLen < 3 then 0 else lastLen - 3, 0);
  }

  lemma {:induction false} EolStarts(b: seq<byte>, i: nat, e: LineEnd)
    requires At(b, i, EolText(e))
    ensures i < |b| && (b[i] == CR || b[i] == LF)
  {
    AtIndex(b, i, EolText(e));
  }

  /** A head made of a start line and a header block passes the pre-check if it ends behind `lastLen`. */
  lemma {:induction false} BlockPassesPreCheck(b: seq<byte>, start: seq<byte>, e: LineEnd, ls: seq<HeaderLine>,
      blank: LineEnd, lastLen: nat)
    requires forall i :: 0 <= i < |ls| ==> LineOk(ls[i])
    requires CrSafe(start) && (start + EolText(e)) + BlockText(ls, blank) <= b
    requires lastLen <= |b| && lastLen < |(start + EolText(e)) + BlockText(ls, blank)|
    ensures IsComplete(b, lastLen).Got?
  {
    hide At, CrSafe, LineOk, TwoEols;
    var t := start + EolText(e);
    var pre, e' := LinesKeepEnd(start, e, ls);
    assert t + BlockText(ls, blank) == (t + LinesText(ls)) + EolText(blank) == pre + (EolText(e') + EolText(blank));
    AtPrefix(b, pre + (EolText(e') + EolText(blank)));
    AtSplit(b, 0, pre, EolText(e') + EolText(blank));
    AtSplit(b, |pre|, EolText(e'), EolText(blank));
    AtPrefix(b, pre);
    FindsTwoEols(b, if lastLen < 3 then 0 else lastLen - 3, 0, pre, e', blank);
  }

  lemma {:induction false} RequestPassesPreCheck(b: seq<byte>, h: RequestHead, lastLen: nat)
    requires RequestOk(h) && RequestText(h) <= b && lastLen < |RequestText(h)|
    ensures IsComplete(b, lastLen).Got?
  {
    hide LineOk, BlockText, IsComplete;
    var line := h.verb + ([SP] + (h.path + ([SP] + VersionText(h.minor))));
    RequestLineNoCr(h);
    CrSafeNone(line);
    var start := LeadText(h.lead) + line;
    assert RequestLineText(h) == start + EolText(h.eol);
    CrSafeConcat(LeadText(h.lead), line);
    BlockPassesPreCheck(b, start, h.eol, h.lines, h.blank, lastLen);
  }

  lemma {:induction false} RequestLineNoCr(h: RequestHead)
    requires RequestOk(h)
    ensures CR !in h.verb + ([SP] + (h.path + ([SP] + VersionText(h.minor)))) && CrSafe(LeadText(h.lead))
  {
    assert forall i :: 0 <= i < |h.verb| ==> !TokenStop(h.verb[i]);
    assert forall i :: 0 <= i < |h.path| ==> !TokenStop(h.path[i]);
  }

  lemma {:induction false} ResponsePassesPreCheck(b: seq<byte>, h: ResponseHead, lastLen: nat)
    requires ResponseOk(h) && ResponseText(h) <= b && lastLen < |ResponseText(h)|
    ensures IsComplete(b, lastLen).Got?
  {
    hide LineOk, BlockText, IsComplete;
    var start := VersionText(h.minor) + ([SP] + (h.digits + ([SP] + h.reason)));
    assert forall i :: 0 <= i < 3 ==> Digit(h.digits[i]);
    assert forall i :: 0 <= i < |h.reason| ==> !EolStop(h.reason[i]);
    assert StatusLineText(h) == start + EolText(h.eol);
    CrSafeNone(start);
    BlockPassesPreCheck(b, start, h.eol, h.lines, h.blank, lastLen);
  }

  /** Bytes were there before, and no blank line begins near the new ones. */
  ghost predicate Stopped(b: seq<byte>, lastLen: nat) {
    0 < lastLen <= |b| && !BlankLine(b, if lastLen < 3 then 0 else lastLen - 3)
  }

  /** Then nothing is parsed: the head is not accepted, and every out-parameter says that it is not there. */
  lemma {:induction false} PreCheckStops(b: seq<byte>, max: nat, lastLen: nat)
    requires Stopped(b, lastLen)
    ensures var r := PhrParseRequest(b, max, lastLen);
      !r.verdict.Accepted? && r == Request(r.verdict, None, None, -1, [])
    ensures var r := PhrParseResponse(b, max, lastLen);
      !r.verdict.Accepted? && r == Response(r.verdict, -1, 0, None, [])
    ensures !PhrParseHeaders(b, max, lastLen).end.Got? && PhrParseHeaders(b, max, lastLen).headers == []
  {
    hide ParseRequest, ParseResponse, Headers;
    PreCheckExactly(b, lastLen);
  }

  /** Otherwise it changes nothing. */
  lemma {:induction false} PreCheckLets(b: seq<byte>, max: nat, lastLen: nat)
    requires lastLen <= |b| && !Stopped(b, lastLen)
    ensures PhrParseRequest(b, max, lastLen) == PhrParseRequest(b, max, 0)
    ensures PhrParseResponse(b, max, lastLen) == PhrParseResponse(b, max, 0)
    ensures PhrParseHeaders(b, max, lastLen) == PhrParseHeaders(b, max, 0)
  {
    hide ParseRequest, ParseResponse, Headers;
    PreCheckExactly(b, lastLen);
  }

  /** The pre-check never changes acceptance of a request, nor any output of an accepted one. */
  lemma {:induction false} PreCheckKeepsRequests(b: seq<byte>, max: nat, lastLen: nat)
    requires lastLen <= |b| && !ParseRequest(b[..lastLen], max).verdict.Accepted?
    ensures PhrParseRequest(b, max, lastLen).verdict.Accepted? <==> PhrParseRequest(b, max, 0).verdict.Accepted?
    ensures PhrParseRequest(b, max, 0).verdict.Accepted? ==>
      PhrParseRequest(b, max, lastLen) == PhrParseRequest(b, max, 0)
  {
    var v := ParseRequest(b, max).verdict;
    if v.Accepted? {
      if v.n <= lastLen {
        AcceptedRequestIsLocal(b, b[..lastLen], max);
      }
      var h := RequestOf(b, max);
      ParsesRequestText(b, h, max);
      RequestPassesPreCheck(b, h, lastLen);
    }
  }

  lemma {:induction false} PreCheckKeepsResponses(b: seq<byte>, max: nat, lastLen: nat)
    requires lastLen <= |b| && !ParseResponse(b[..lastLen], max).verdict.Accepted?
    ensures PhrParseResponse(b, max, lastLen).verdict.Accepted? <==> PhrParseResponse(b, max, 0).verdict.Accepted?
    ensures PhrParseResponse(b, max, 0).verdict.Accepted? ==>
      PhrParseResponse(b, max, lastLen) == PhrParseResponse(b, max, 0)
  {
    var v := ParseResponse(b, max).verdict;
    if v.Accepted? {
      if v.n <= lastLen {
        AcceptedResponseIsLocal(b, b[..lastLen], max);
      }
      var h := ResponseOf(b, max);
      ParsesResponseText(b, h, max);
      ResponsePassesPreCheck(b, h, lastLen);
    }
  }

  // ---------------------------------------------------------------- header blocks on their own

  lemma {:induction false} HeadersAccepted(b: seq<byte>, max: nat) returns (ls: seq<HeaderLine>, blank: LineEnd)
    requires Headers(b, 0, [], max).end.Got?
    ensures LinesOk(ls) && |ls| <= max && BlockText(ls, blank) <= b
    ensures Headers(b, 0, [], max) == HeadersOut(Got((), |BlockText(ls, blank)|), LinesHeaders(ls, 0))
  {
    ls, blank := HeadersOf(b, 0, [], max);
    HeadersAt(b, 0, ls, blank, [], max);
  }

  lemma {:induction false} AcceptedHeadersAreLocal(b: seq<byte>, b': seq<byte>, max: nat)
    requires var r := Headers(b, 0, [], max).end; r.Got? && r.next <= |b'| && b'[..r.next] == b[..r.next]
    ensures Headers(b', 0, [], max) == Headers(b, 0, [], max)
  {
    hide Headers, At, BlockText, LinesOk, LinesHeaders;
    var ls, blank := HeadersAccepted(b, max);
    AtPrefix(b', BlockText(ls, blank));
    assert b'[..|BlockText(ls, blank)|] == BlockText(ls, blank);
    HeadersAt(b', 0, ls, blank, [], max);
  }

  lemma {:induction false} LinesPassPreCheck(b: seq<byte>, ls: seq<HeaderLine>, blank: LineEnd, lastLen: nat)
    requires LinesOk(ls) && ls != [] && BlockText(ls, blank) <= b && lastLen < |BlockText(ls, blank)|
    ensures IsComplete(b, lastLen).Got?
  {
    hide LineOk, LineText, IsComplete;
    var l := ls[0];
    LineBodyNoCr(l);
    CrSafeNone(LineBody(l));
    assert BlockText(ls, blank) == (LineBody(l) + EolText(l.eol)) + BlockText(ls[1..], blank);
    BlockPassesPreCheck(b, LineBody(l), l.eol, ls[1..], blank, lastLen);
  }

  /**
   * For a header block on its own the same promise fails, and exactly on one family: an empty block cut between
   * its CR and its LF, unless a blank line follows: the pre-check wants a second line end that the block has not.
   */
  lemma {:induction false} PreCheckOnHeaders(b: seq<byte>, max: nat, lastLen: nat)
    requires lastLen <= |b| && !Headers(b[..lastLen], 0, [], max).end.Got?
    requires PhrParseHeaders(b, max, 0).end.Got?
    ensures PhrParseHeaders(b, max, lastLen).end.Got? <==>
            !(lastLen == 1 && b[0] == CR && !BlankLine(b, 1))
    ensures PhrParseHeaders(b, max, lastLen).end.Got? ==> PhrParseHeaders(b, max, lastLen) == PhrParseHeaders(b, max, 0)
  {
    var ls, blank := HeadersAccepted(b, max);
    var n := |BlockText(ls, blank)|;
    if n <= lastLen {
      AcceptedHeadersAreLocal(b, b[..lastLen], max);
    }
    if ls != [] {
      LinesPassPreCheck(b, ls, blank, lastLen);
      LineBodyNoCr(ls[0]);
      assert b[0] == LineBody(ls[0])[0];
    } else {
      assert BlockText(ls, blank) == EolText(blank) == b[..n];
      assert b[0] == EolText(blank)[0];
      if lastLen == 1 {
        assert b[1] == EolText(blank)[1];
        TwoEolsExactly(b, 2, 1);
      }
    }
  }

  /** The failing family is not empty: CRLF, cut after CR, is refused although the block is complete. */
  lemma PreCheckRefusesEmptyBlock(max: nat)
    ensures PhrParseHeaders([CR, LF], max, 0).end == Got((), 2)
    ensures PhrParseHeaders([CR, LF], max, 1).end == More
    ensures Headers([CR, LF][..1], 0, [], max).end == More
  {
    assert TwoEols([CR, LF], 2, 1) == More;
    assert TwoEols([CR, LF], 0, 0) == TwoEols([CR, LF], 2, 1);
  }
}
