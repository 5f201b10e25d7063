/**
 * What the answer -2 promises. The header calls it "partial": some more bytes would complete the head. That is so
 * for header blocks; for requests except while a wrong HTTP version is still too short to be looked at, and for
 * responses except while a wrong version or a wrong status is.
 */
module HeadPartial {
  import opened Bytes
  import opened Options
  import opened HeadSpec
  import opened HeadGrammar
  import opened HeadStability

  /** Some continuation is accepted. */
  ghost predicate Completable(b: seq<byte>, max: nat) {
    exists x: seq<byte> :: ParseRequest(b + x, max).verdict.Accepted?
  }

  /** `b` from `i` on could be the beginning of `t`. */
  predicate StartOf(b: seq<byte>, i: nat, t: seq<byte>)
    requires i <= |b|
  {
    b[i..] <= t
  }

  /** Bytes that could begin `HTTP/1.` and a digit. */
  predicate VersionStart(s: seq<byte>) {
    var n := if |s| <= 7 then |s| else 7;
    |s| <= 8 && s[..n] == VERSION_PREFIX[..n] && (|s| == 8 ==> Digit(s[7]))
  }

  /** Where the version begins, if the parser has come that far. */
  function VersionIndex(b: seq<byte>): (r: Option<nat>)
    ensures r.Some? ==> r.value <= |b|
  {
    match OptionalEol(b, 0)
    case Reject => None
    case More => None
    case Got(_, i) =>
      match Token(b, i)
      case Reject => None
      case More => None
      case Got(_, j) =>
        match Token(b, j)
        case Reject => None
        case More => None
        case Got(_, k) => Some(k)
  }

  /** The version, as far as it is there, is not yet wrong. */
  predicate OnTrack(b: seq<byte>) {
    match VersionIndex(b)
    case None => true
    case Some(k) => |b| - k >= 9 || VersionStart(b[k..])
  }

  // ---------------------------------------------------------------- finishing a header block

  lemma {:induction false} PrefixJoin(b: seq<byte>, i: nat, j: nat, front: seq<byte>, t: seq<byte>)
    requires i <= j <= |b| && b[i..j] == front && StartOf(b, j, t)
    ensures StartOf(b, i, front + t)
  {
    assert b[i..] == b[i..j] + b[j..];
  }

  lemma {:induction false} ToEolPartial(b: seq<byte>, i: nat) returns (t: seq<byte>, e: LineEnd)
    requires i <= |b| && ToEol(b, i) == More
    ensures NoneOf(t, EolStop) && StartOf(b, i, t + EolText(e))
    ensures i < |b| && !EolStop(b[i]) ==> t != [] && t[0] == b[i]
    ensures t != [] ==> i < |b| && t[0] == b[i]
  {
    var j := Scan(b, i, EolStop);
    t, e := b[i..j], CrLf;
    PrefixJoin(b, i, j, t, EolText(e));
  }

  lemma {:induction false} FieldPartial(b: seq<byte>, i: nat) returns (l: HeaderLine)
    requires i < |b| && Field(b, i) == More
    ensures l.FieldLine? && LineOk(l) && StartOf(b, i, LineText(l))
  {
    if Name(b, i).More? {
      l := FieldLine(b[i..], [], [], BareLf);
      assert forall k :: 0 <= k < |b[i..]| ==> !NameStop(b[i..][k]);
    } else {
      l := NamedPartial(b, i);
    }
  }

  lemma {:induction false} NamedPartial(b: seq<byte>, i: nat) returns (l: HeaderLine)
    requires i < |b| && Name(b, i).Got? && ToEol(b, Scan(b, Name(b, i).next, NotBlank)) == More
    ensures l.FieldLine? && LineOk(l) && StartOf(b, i, LineText(l))
  {
    hide Name, ToEol, EolText, StartOf, LineText, At;
    var n := NameOf(b, i);
    var j := Name(b, i).next;
    var k := Scan(b, j, NotBlank);
    var blanks := b[j..k];
    assert forall x :: 0 <= x < |blanks| ==> !NotBlank(blanks[x]);
    var t, e := ToEolPartial(b, k);
    l := FieldLine(n, blanks, t, e);
    AtIs(b, i, j, n + [COLON]);
    PrefixJoin(b, j, k, blanks, t + EolText(e));
    PrefixJoin(b, i, j, n + [COLON], blanks + (t + EolText(e)));
    FieldRegroup(l);
  }

  lemma {:induction false} LinePartial(b: seq<byte>, i: nat, first: bool) returns (l: HeaderLine)
    requires i < |b| && b[i] != CR && b[i] != LF && Line(b, i, first) == More
    ensures LineOk(l) && (first ==> l.FieldLine?) && StartOf(b, i, LineText(l))
  {
    hide Field, ToEol;
    if first || !Blank(b[i]) {
      l := FieldPartial(b, i);
    } else {
      var t, e := ToEolPartial(b, i);
      l := FoldedLine(t, e);
    }
  }

  lemma {:induction false} StartMore(b: seq<byte>, i: nat, t: seq<byte>, u: seq<byte>)
    requires i <= |b| && StartOf(b, i, t)
    ensures StartOf(b, i, t + u)
  {
  }

  lemma {:induction false} HeadersPartial(b: seq<byte>, i: nat, hs: seq<Header>, max: nat)
      returns (ls: seq<HeaderLine>, blank: LineEnd)
    requires i <= |b| && |hs| <= max && Headers(b, i, hs, max).end == More
    ensures (forall k :: 0 <= k < |ls| ==> LineOk(ls[k])) && (hs == [] && ls != [] ==> ls[0].FieldLine?)
    ensures |hs| + |ls| <= max && StartOf(b, i, BlockText(ls, blank))
    decreases |b| - i
  {
    hide Line, LineOk, LineText, At;
    blank := CrLf;
    if i == |b| || b[i] == CR || b[i] == LF {
      ls := [];
      assert BlockText(ls, blank) == EolText(blank);
    } else {
      var r := Line(b, i, hs == []);
      if r.More? {
        var l := LinePartial(b, i, hs == []);
        ls := [l];
        assert BlockText(ls, blank) == LineText(l) + ([] + EolText(blank)) by { assert ls[1..] == []; }
        StartMore(b, i, LineText(l), [] + EolText(blank));
      } else {
        var l := LineOf(b, i, hs == []);
        var ls';
        ls', blank := HeadersPartial(b, r.next, hs + [r.value], max);
        ls := [l] + ls';
        AtIs(b, i, r.next, LineText(l));
        PrefixJoin(b, i, r.next, LineText(l), BlockText(ls', blank));
        assert BlockText(ls, blank) == LineText(l) + BlockText(ls', blank);
      }
    }
  }

  lemma {:induction false} AtIs(b: seq<byte>, i: nat, j: nat, t: seq<byte>)
    requires At(b, i, t) && j == i + |t|
    ensures j <= |b| && b[i..j] == t
  {
  }

  // ---------------------------------------------------------------- finishing a request

  /** Some well-formed head within the capacity begins with `b`. */
  ghost predicate Begins(b: seq<byte>, h: RequestHead, max: nat) {
    RequestOk(h) && |h.lines| <= max && b <= RequestText(h)
  }

  lemma {:induction false} BeginsCompletable(b: seq<byte>, h: RequestHead, max: nat)
    requires Begins(b, h, max)
    ensures Completable(b, max)
  {
    hide ParseRequest, RequestText;
    var x := RequestText(h)[|b|..];
    assert b + x == RequestText(h);
    ParsesRequestText(b + x, h, max);
    assert ParseRequest(b + x, max).verdict.Accepted?;
  }

  lemma {:induction false} LeadOf(b: seq<byte>) returns (lead: Option<LineEnd>)
    requires OptionalEol(b, 0).Got?
    ensures OptionalEol(b, 0).next == |LeadText(lead)| && b[..OptionalEol(b, 0).next] == LeadText(lead)
  {
    lead := None;
    if b[0] == CR || b[0] == LF {
      var e := EolOf(b, 0);
      lead := Some(e);
    }
  }

  /** A head whose text goes on as `b` does from `i` on, behind a leading line end. */
  lemma {:induction false} BehindLead(b: seq<byte>, i: nat, h: RequestHead, max: nat)
    requires RequestOk(h) && |h.lines| <= max
    requires i <= |b| && b[..i] == LeadText(h.lead)
    requires StartOf(b, i, BehindLeadText(h))
    ensures Begins(b, h, max)
  {
    hide LeadText, VersionText, EolText, BlockText, LinesOk;
    PrefixJoin(b, 0, i, LeadText(h.lead), BehindLeadText(h));
    RequestRegroup(h);
  }

  lemma {:induction false} TokenIs(b: seq<byte>, i: nat) returns (t: seq<byte>)
    requires i <= |b| && Token(b, i).Got?
    ensures NoneOf(t, TokenStop) && b[i..Token(b, i).next] == t + [SP]
  {
    t := TokenOf(b, i);
  }

  lemma {:induction false} TokenPartial(b: seq<byte>, i: nat, rest: seq<byte>) returns (t: seq<byte>)
    requires i <= |b| && Token(b, i) == More
    ensures NoneOf(t, TokenStop) && StartOf(b, i, (t + [SP]) + rest)
  {
    t := b[i..];
  }

  /** From the version on: a version and a block that `b` could be the beginning of. */
  lemma {:induction false} TailPartial(b: seq<byte>, k: nat, so: Request, max: nat)
      returns (minor: nat, eol: LineEnd, ls: seq<HeaderLine>, blank: LineEnd)
    requires k <= |b| && so.verdict == Incomplete && RequestRest(b, k, so, max).verdict == Incomplete
    requires |b| - k >= 9 || VersionStart(b[k..])
    ensures minor < 10 && LinesOk(ls) && |ls| <= max
    ensures StartOf(b, k, VersionText(minor) + (EolText(eol) + BlockText(ls, blank)))
  {
    hide Headers, Eol, EolText, BlockText;
    minor, eol, ls, blank := 1, CrLf, [], CrLf;
    var v := Version(b, k);
    if v.More? {
      minor := if |b| - k == 8 then b[k + 7] - 48 else 1;
      VersionBegins(b[k..], minor);
      StartMore(b, k, VersionText(minor), EolText(eol) + BlockText(ls, blank));
    } else {
      VersionOf(b, k);
      minor := v.value;
      var e := Eol(b, k + 8);
      if e.More? {
        EolPartial(b, k + 8);
        StartMore(b, k + 8, EolText(CrLf), BlockText(ls, blank));
      } else {
        eol := EolOf(b, k + 8);
        ls, blank := HeadersPartial(b, e.next, [], max);
        AtIs(b, k + 8, e.next, EolText(eol));
        PrefixJoin(b, k + 8, e.next, EolText(eol), BlockText(ls, blank));
      }
      AtIs(b, k, k + 8, VersionText(minor));
      PrefixJoin(b, k, k + 8, VersionText(minor), EolText(eol) + BlockText(ls, blank));
    }
  }

  lemma {:induction false} VersionBegins(s: seq<byte>, minor: nat)
    requires VersionStart(s) && minor < 10 && (|s| == 8 ==> s[7] == 48 + minor)
    ensures s <= VersionText(minor)
  {
    var n := if |s| <= 7 then |s| else 7;
    assert forall i :: 0 <= i < n ==> s[i] == s[..n][i] == VERSION_PREFIX[..n][i] == VersionText(minor)[i];
  }

  lemma {:induction false} EolPartial(b: seq<byte>, i: nat)
    requires i < |b| && Eol(b, i) == More
    ensures StartOf(b, i, EolText(CrLf))
  {
  }

  /** An open verdict on the right track: some well-formed head begins like this. */
  lemma {:induction false} OnTrackBegins(b: seq<byte>, max: nat) returns (h: RequestHead)
    requires ParseRequest(b, max).verdict == Incomplete && OnTrack(b)
    ensures Begins(b, h, max)
  {
    hide Token, RequestRest, VersionText, BlockText, StartOf, RequestText, VersionStart;
    h := RequestHead(None, [], [], 1, CrLf, [], CrLf);
    if !OptionalEol(b, 0).Got? {
      h := h.(lead := Some(CrLf));
      LeadPartial(b, h);
    } else {
      var i := OptionalEol(b, 0).next;
      var lead := LeadOf(b);
      h := h.(lead := lead);
      var tail := VersionText(h.minor) + (EolText(h.eol) + BlockText(h.lines, h.blank));
      if Token(b, i).More? {
        var verb := TokenPartial(b, i, (h.path + [SP]) + tail);
        h := h.(verb := verb);
      } else {
        var verb := TokenIs(b, i);
        h := h.(verb := verb);
        var j := Token(b, i).next;
        if Token(b, j).More? {
          var path := TokenPartial(b, j, tail);
          h := h.(path := path);
        } else {
          var path := TokenIs(b, j);
          var k := Token(b, j).next;
          var so := NO_REQUEST.(verb := Some(Token(b, i).value), path := Some(Token(b, j).value));
          var minor, eol, ls, blank := TailPartial(b, k, so, max);
          h := h.(path := path, minor := minor, eol := eol, lines := ls, blank := blank);
          tail := VersionText(h.minor) + (EolText(h.eol) + BlockText(h.lines, h.blank));
          PrefixJoin(b, j, k, path + [SP], tail);
        }
        PrefixJoin(b, i, j, verb + [SP], (h.path + [SP]) + tail);
      }
      BehindLead(b, i, h, max);
    }
  }

  lemma {:induction false} LeadPartial(b: seq<byte>, h: RequestHead)
    requires h.minor < 10 && h.lead == Some(CrLf) && OptionalEol(b, 0).More?
    ensures b <= RequestText(h)
  {
    RequestRegroup(h);
  }

  // ---------------------------------------------------------------- a wrong version

  /** Behind two complete tokens, nothing repairs a version that has begun wrongly. */
  lemma {:induction false} OffTrackHopeless(b: seq<byte>, x: seq<byte>, max: nat)
    requires !OnTrack(b)
    ensures !ParseRequest(b + x, max).verdict.Accepted?
  {
    hide Token, Headers, VersionStart;
    if b[0] == CR || b[0] == LF {
      EolExt(b, x, 0);
    }
    var i := OptionalEol(b, 0).next;
    TokenExt(b, x, i);
    var j := Token(b, i).next;
    TokenExt(b, x, j);
    var k := Token(b, j).next;
    WrongVersion(b, x, k);
  }

  lemma {:induction false} WrongVersion(b: seq<byte>, x: seq<byte>, k: nat)
    requires k <= |b| && |b| - k < 9 && !VersionStart(b[k..])
    ensures !Version(b + x, k).Got?
  {
    if Version(b + x, k).Got? {
      VersionSeen(b, x, k);
      assert false;
    }
  }

  /** The bytes that are there of a version that turns out right. */
  lemma {:induction false} VersionSeen(b: seq<byte>, x: seq<byte>, k: nat)
    requires k <= |b| && |b| - k < 9 && Version(b + x, k).Got?
    ensures VersionStart(b[k..])
  {
    var s := b[k..];
    var n := if |s| <= 7 then |s| else 7;
    var v := (b + x)[k..k + 7];
    assert forall i :: 0 <= i < |s| ==> s[i] == (b + x)[k + i];
    assert forall i :: 0 <= i < 7 ==> v[i] == (b + x)[k + i];
    assert forall i :: 0 <= i < n ==> s[..n][i] == v[i] == VERSION_PREFIX[..n][i];
  }

  /**
   * More bytes can complete the head exactly when it is accepted already, or the verdict is open and the version is
   * not off track. So -1 is final, and -2 means "partial" in every state but one the caller can see.
   */
  lemma {:induction false} CompletableExactly(b: seq<byte>, max: nat)
    ensures Completable(b, max) <==>
            (var v := ParseRequest(b, max).verdict; v.Accepted? || (v == Incomplete && OnTrack(b)))
  {
    hide ParseRequest, OnTrack, Begins;
    var v := ParseRequest(b, max).verdict;
    if v != Incomplete {
      forall x: seq<byte>
        ensures ParseRequest(b + x, max) == ParseRequest(b, max)
      {
        RequestVerdictStable(b, x, max);
      }
      assert b + [] == b;
      assert ParseRequest(b + [], max).verdict == v;
    } else if OnTrack(b) {
      var h := OnTrackBegins(b, max);
      BeginsCompletable(b, h, max);
    } else {
      forall x: seq<byte>
        ensures !ParseRequest(b + x, max).verdict.Accepted?
      {
        OffTrackHopeless(b, x, max);
      }
    }
  }

  /** The exception is real: nine bytes are wanted before `X` is seen not to begin a version. */
  lemma {:induction false} OpenButHopeless(max: nat)
    ensures ParseRequest([SP, SP, 88], max).verdict == Incomplete && !Completable([SP, SP, 88], max)
  {
    var b: seq<byte> := [SP, SP, 88];
    assert Scan(b, 0, TokenStop) == 0 && Scan(b, 1, TokenStop) == 1;
    assert b[2..] == [88];
    assert !VersionStart([88]) by {
      assert [88][..1] == [88] && VERSION_PREFIX[..1] == [72];
    }
    CompletableExactly(b, max);
  }

  // ---------------------------------------------------------------- responses and header blocks

  ghost predicate ResponseCompletable(b: seq<byte>, max: nat) {
    exists x: seq<byte> :: ParseResponse(b + x, max).verdict.Accepted?
  }

  /** The version and the status digits, as far as they are there and not looked at yet, are not wrong. */
  predicate ResponseOnTrack(b: seq<byte>) {
    if |b| < 9 then VersionStart(b) else |b| < 13 ==> AllOf(b[9..], Digit)
  }

  lemma {:induction false} ResponseOffTrack(b: seq<byte>, x: seq<byte>, max: nat)
    requires !ResponseOnTrack(b)
    ensures !ParseResponse(b + x, max).verdict.Accepted?
  {
    hide ResponseRest, VersionStart;
    if |b| < 9 {
      assert b[0..] == b;
      WrongVersion(b, x, 0);
    } else {
      var i :| 0 <= i < |b[9..]| && !Digit(b[9..][i]);
      assert (b + x)[9 + i] == b[9..][i];
      if |b + x| >= 13 {
        assert !Status(b + x, 9).1;
      }
    }
  }

  /** Some well-formed head within the capacity begins with `b`. */
  ghost predicate ResponseBegins(b: seq<byte>, h: ResponseHead, max: nat) {
    ResponseOk(h) && |h.lines| <= max && b <= ResponseText(h)
  }

  lemma {:induction false} ResponseBeginsCompletable(b: seq<byte>, h: ResponseHead, max: nat)
    requires ResponseBegins(b, h, max)
    ensures ResponseCompletable(b, max)
  {
    hide ParseResponse, ResponseText;
    var x := ResponseText(h)[|b|..];
    assert b + x == ResponseText(h);
    ParsesResponseText(b + x, h, max);
    assert ParseResponse(b + x, max).verdict.Accepted?;
  }

  /** `b` ends inside the version. */
  lemma {:induction false} VersionCut(b: seq<byte>, h: ResponseHead)
    requires h.minor < 10 && b <= VersionText(h.minor)
    ensures b <= ResponseText(h)
  {
    hide VersionText, EolText, BlockText;
    ResponseRegroup(h);
  }

  /** `b` ends between the version and the reason. */
  lemma {:induction false} DigitsCut(b: seq<byte>, h: ResponseHead)
    requires h.minor < 10 && |h.digits| == 3 && 9 <= |b| <= 12
    requires At(b, 0, VersionText(h.minor)) && b[8] == SP && b[9..] <= h.digits
    ensures b <= ResponseText(h)
  {
    hide EolText, BlockText, VersionText;
    var v := VersionText(h.minor);
    assert b == v + ([SP] + b[9..]);
    assert h.digits == b[9..] + h.digits[|b| - 9..];
    ResponseRegroup(h);
  }

  /** `b` ends inside the status line, in front of the reason. */
  lemma {:induction false} ShortBegins(b: seq<byte>, max: nat) returns (h: ResponseHead)
    requires ParseResponse(b, max).verdict == Incomplete && ResponseOnTrack(b) && |b| < 13
    ensures ResponseBegins(b, h, max)
  {
    hide ResponseRest, EolText, BlockText, ResponseText, VersionText, At;
    h := ResponseHead(1, [48, 48, 48], [], CrLf, [], CrLf);
    if |b| < 9 {
      h := h.(minor := if |b| == 8 then b[7] - 48 else 1);
      VersionBegins(b, h.minor);
      VersionCut(b, h);
    } else {
      VersionOf(b, 0);
      h := h.(minor := Version(b, 0).value, digits := b[9..] + [48, 48, 48][|b| - 9..]);
      DigitsCut(b, h);
    }
  }

  /** From the reason on: a reason and a block that `b` could be the beginning of. */
  lemma {:induction false} ReasonPartial(b: seq<byte>, so: Response, max: nat)
      returns (reason: seq<byte>, eol: LineEnd, ls: seq<HeaderLine>, blank: LineEnd)
    requires 13 <= |b| && so.verdict == Incomplete && ResponseRest(b, 13, so, max).verdict == Incomplete
    ensures NoneOf(reason, EolStop) && LinesOk(ls) && |ls| <= max
    ensures StartOf(b, 13, (reason + EolText(eol)) + BlockText(ls, blank))
  {
    hide Headers, ToEol, EolText, BlockText, StartOf, At;
    ls, blank := [], CrLf;
    if ToEol(b, 13).More? {
      reason, eol := ToEolPartial(b, 13);
      StartMore(b, 13, reason + EolText(eol), BlockText(ls, blank));
    } else {
      var n := ToEol(b, 13).next;
      reason, eol := ToEolOf(b, 13);
      ls, blank := HeadersPartial(b, n, [], max);
      AtIs(b, 13, n, reason + EolText(eol));
      PrefixJoin(b, 13, n, reason + EolText(eol), BlockText(ls, blank));
    }
  }

  /** A status line that is all there, and the rest as far as it is there. */
  lemma {:induction false} ResponseStarts(b: seq<byte>, h: ResponseHead)
    requires h.minor < 10 && |b| >= 13 && At(b, 0, VersionText(h.minor)) && b[8..13] == [SP] + (h.digits + [SP])
    requires StartOf(b, 13, (h.reason + EolText(h.eol)) + BlockText(h.lines, h.blank))
    ensures b <= ResponseText(h)
  {
    hide EolText, BlockText, StartOf, VersionText, At, ResponseText;
    var rest := (h.reason + EolText(h.eol)) + BlockText(h.lines, h.blank);
    PrefixJoin(b, 8, 13, [SP] + (h.digits + [SP]), rest);
    AtIs(b, 0, 8, VersionText(h.minor));
    PrefixJoin(b, 0, 8, VersionText(h.minor), ([SP] + (h.digits + [SP])) + rest);
    ResponseRegroup(h);
    StartIsPrefix(b, ResponseText(h));
  }

  /** `b` reaches into the reason or the header block. */
  lemma {:induction false} LongBegins(b: seq<byte>, max: nat) returns (h: ResponseHead)
    requires ParseResponse(b, max).verdict == Incomplete && |b| >= 13
    ensures ResponseBegins(b, h, max)
  {
    hide ResponseRest, ResponseText, LinesOk, BlockText, EolText, StartOf, VersionText, At;
    VersionOf(b, 0);
    var digits := b[9..12];
    var so := NO_RESPONSE.(minor := Version(b, 0).value, status := Status(b, 9).0);
    var reason, eol, ls, blank := ReasonPartial(b, so, max);
    h := ResponseHead(Version(b, 0).value, digits, reason, eol, ls, blank);
    assert b[8..13] == [SP] + (digits + [SP]);
    ResponseStarts(b, h);
  }

  lemma {:induction false} StartIsPrefix(b: seq<byte>, t: seq<byte>)
    requires StartOf(b, 0, t)
    ensures b <= t
  {
    assert b[0..] == b;
  }

  /** What -2 means for a response: completable, exactly as long as version and status are not off track. */
  lemma {:induction false} ResponseCompletableExactly(b: seq<byte>, max: nat)
    ensures ResponseCompletable(b, max) <==>
            (var v := ParseResponse(b, max).verdict; v.Accepted? || (v == Incomplete && ResponseOnTrack(b)))
  {
    hide ParseResponse, ResponseOnTrack, ResponseBegins;
    var v := ParseResponse(b, max).verdict;
    if v != Incomplete {
      forall x: seq<byte>
        ensures ParseResponse(b + x, max) == ParseResponse(b, max)
      {
        ResponseVerdictStable(b, x, max);
      }
      assert b + [] == b;
      assert ParseResponse(b + [], max).verdict == v;
    } else if ResponseOnTrack(b) {
      var h;
      if |b| < 13 {
        h := ShortBegins(b, max);
      } else {
        h := LongBegins(b, max);
      }
      ResponseBeginsCompletable(b, h, max);
    } else {
      forall x: seq<byte>
        ensures !ParseResponse(b + x, max).verdict.Accepted?
      {
        ResponseOffTrack(b, x, max);
      }
    }
  }

  /** Both exceptions are real: `X` for a version, and `X` for a status behind a good version. */
  lemma {:induction false} ResponseOpenButHopeless(max: nat)
    ensures ParseResponse([88], max).verdict == Incomplete && !ResponseCompletable([88], max)
    ensures var b := VersionText(1) + [SP, 88];
      ParseResponse(b, max).verdict == Incomplete && !ResponseCompletable(b, max)
  {
    assert !VersionStart([88]) by {
      assert [88][..1] == [88] && VERSION_PREFIX[..1] == [72];
    }
    ResponseCompletableExactly([88], max);
    var b := VersionText(1) + [SP, 88];
    assert b[..7] == VERSION_PREFIX && b[7] == 49;
    assert b[9..] == [88] && !Digit([88][0]);
    ResponseCompletableExactly(b, max);
  }

  /** For a header block on its own -2 means what it says, and -1 is final. */
  lemma {:induction false} HeadersCompletableExactly(b: seq<byte>, max: nat)
    ensures (exists x: seq<byte> :: Headers(b + x, 0, [], max).end.Got?) <==> Headers(b, 0, [], max).end != Reject
  {
    hide Headers, BlockText;
    var r := Headers(b, 0, [], max).end;
    if r.More? {
      var ls, blank := HeadersPartial(b, 0, [], max);
      StartIsPrefix(b, BlockText(ls, blank));
      var x := BlockText(ls, blank)[|b|..];
      assert b + x == BlockText(ls, blank);
      AtPrefix(b + x, BlockText(ls, blank));
      HeadersAt(b + x, 0, ls, blank, [], max);
      assert Headers(b + x, 0, [], max).end.Got?;
    } else {
      forall x: seq<byte>
        ensures Headers(b + x, 0, [], max).end == r
      {
        HeadersExt(b, x, 0, [], max);
      }
      assert b + [] == b;
      assert Headers(b + [], 0, [], max).end == r;
    }
  }
}
