/**
 * The heads the parser accepts, written as the text of a syntax tree: sections 3.1.1, 3.1.2 and 3.2 of
 * RFC 7230 with bare LF as a line end (section 3.5) and folded lines (section 3.2.4). The parser accepts
 * exactly these texts, and the slices it returns are the tree's fields.
 */
module HeadGrammar {
  import opened Bytes
  import opened Options
  import opened HeadSpec

  datatype LineEnd = CrLf | BareLf

  datatype HeaderLine =
    | FieldLine(name: seq<byte>, blanks: seq<byte>, text: seq<byte>, eol: LineEnd)
    | FoldedLine(text: seq<byte>, eol: LineEnd)

  datatype RequestHead = RequestHead(lead: Option<LineEnd>, verb: seq<byte>, path: seq<byte>, minor: nat, eol: LineEnd,
                                     lines: seq<HeaderLine>, blank: LineEnd)

  datatype ResponseHead = ResponseHead(minor: nat, digits: seq<byte>, reason: seq<byte>, eol: LineEnd,
                                       lines: seq<HeaderLine>, blank: LineEnd)

  predicate AllOf(s: seq<byte>, p: byte -> bool) { forall i :: 0 <= i < |s| ==> p(s[i]) }

  predicate NoneOf(s: seq<byte>, p: byte -> bool) { forall i :: 0 <= i < |s| ==> !p(s[i]) }

  predicate LineOk(l: HeaderLine) {
    && NoneOf(l.text, EolStop)
    && match l
       case FieldLine(name, blanks, text, _) =>
         name != [] && AllOf(name, TokenChar) && AllOf(blanks, Blank) && (text != [] ==> !Blank(text[0]))
       case FoldedLine(text, _) => text != [] && Blank(text[0])
  }

  /** A folded line continues a header, so it cannot be the first line. */
  predicate LinesOk(ls: seq<HeaderLine>) {
    && (forall i :: 0 <= i < |ls| ==> LineOk(ls[i]))
    && (ls != [] ==> ls[0].FieldLine?)
  }

  predicate RequestOk(h: RequestHead) {
    NoneOf(h.verb, TokenStop) && NoneOf(h.path, TokenStop) && h.minor < 10 && LinesOk(h.lines)
  }

  predicate ResponseOk(h: ResponseHead) {
    h.minor < 10 && |h.digits| == 3 && AllOf(h.digits, Digit) && NoneOf(h.reason, EolStop) && LinesOk(h.lines)
  }

  function EolText(e: LineEnd): seq<byte> { if e.CrLf? then [CR, LF] else [LF] }

  /** A header line in front of its line end. */
  function LineBody(l: HeaderLine): seq<byte> {
    match l
    case FieldLine(name, blanks, text, _) => name + ([COLON] + (blanks + text))
    case FoldedLine(text, _) => text
  }

  function LineText(l: HeaderLine): (r: seq<byte>)
    ensures r != []
  {
    LineBody(l) + EolText(l.eol)
  }

  function LinesText(ls: seq<HeaderLine>): seq<byte> {
    if ls == [] then [] else LineText(ls[0]) + LinesText(ls[1..])
  }

  function BlockText(ls: seq<HeaderLine>, blank: LineEnd): seq<byte> { LinesText(ls) + EolText(blank) }

  function LeadText(lead: Option<LineEnd>): seq<byte> { if lead.Some? then EolText(lead.value) else [] }

  function VersionText(minor: nat): (r: seq<byte>)
    requires minor < 10
    ensures |r| == 8
  {
    VERSION_PREFIX + [48 + minor]
  }

  function RequestLineText(h: RequestHead): seq<byte>
    requires h.minor < 10
  {
    LeadText(h.lead) + (h.verb + ([SP] + (h.path + ([SP] + (VersionText(h.minor) + EolText(h.eol))))))
  }

  function RequestText(h: RequestHead): seq<byte>
    requires h.minor < 10
  {
    RequestLineText(h) + BlockText(h.lines, h.blank)
  }

  function StatusLineText(h: ResponseHead): seq<byte>
    requires h.minor < 10
  {
    VersionText(h.minor) + ([SP] + (h.digits + ([SP] + (h.reason + EolText(h.eol)))))
  }

  function ResponseText(h: ResponseHead): seq<byte>
    requires h.minor < 10
  {
    StatusLineText(h) + BlockText(h.lines, h.blank)
  }

  // ---------------------------------------------------------------- the tree's fields, as slices

  function LineHeader(l: HeaderLine, at: nat): Header {
    match l
    case FieldLine(name, blanks, text, _) =>
      Header(Some(Slice(at, |name|)), Slice(at + |name| + 1 + |blanks|, |text|))
    case FoldedLine(text, _) => Header(None, Slice(at, |text|))
  }

  function LinesHeaders(ls: seq<HeaderLine>, at: nat): (r: seq<Header>)
    ensures |r| == |ls|
  {
    if ls == [] then [] else [LineHeader(ls[0], at)] + LinesHeaders(ls[1..], at + |LineText(ls[0])|)
  }

  function RequestFields(h: RequestHead): Request
    requires h.minor < 10
  {
    var i := |LeadText(h.lead)|;
    Request(Accepted(|RequestText(h)|), Some(Slice(i, |h.verb|)), Some(Slice(i + |h.verb| + 1, |h.path|)), h.minor,
            LinesHeaders(h.lines, |RequestLineText(h)|))
  }

  function StatusValue(digits: seq<byte>): int
    requires |digits| == 3
  {
    100 * DigitValue(digits[0]) + 10 * DigitValue(digits[1]) + DigitValue(digits[2])
  }

  function ResponseFields(h: ResponseHead): Response
    requires h.minor < 10 && |h.digits| == 3
  {
    Response(Accepted(|ResponseText(h)|), h.minor, StatusValue(h.digits), Some(Slice(13, |h.reason|)),
             LinesHeaders(h.lines, |StatusLineText(h)|))
  }

  // ---------------------------------------------------------------- text at an index

  /** `t` stands in `b` at index `i`. */
  predicate At(b: seq<byte>, i: nat, t: seq<byte>) {
    i + |t| <= |b| && b[i..i + |t|] == t
  }

  lemma {:induction false} AtSplit(b: seq<byte>, i: nat, x: seq<byte>, y: seq<byte>)
    ensures At(b, i, x + y) <==> At(b, i, x) && At(b, i + |x|, y)
  {
    if At(b, i, x + y) {
      assert b[i..i + |x|] == b[i..i + |x + y|][..|x|];
      assert b[i + |x|..i + |x| + |y|] == b[i..i + |x + y|][|x|..];
    }
    if At(b, i, x) && At(b, i + |x|, y) {
      assert b[i..i + |x + y|] == b[i..i + |x|] + b[i + |x|..i + |x| + |y|];
    }
  }

  lemma {:induction false} AtIndex(b: seq<byte>, i: nat, t: seq<byte>)
    requires At(b, i, t)
    ensures i + |t| <= |b|
    ensures forall k :: i <= k < i + |t| ==> b[k] == t[k - i]
  {
    assert forall k :: i <= k < i + |t| ==> b[k] == b[i..i + |t|][k - i];
  }

  /** A scan over text without a stop byte, followed by a stop byte, stops right there. */
  lemma {:induction false} ScanOver(b: seq<byte>, i: nat, t: seq<byte>, stop: byte -> bool)
    requires At(b, i, t) && NoneOf(t, stop) && i + |t| < |b| && stop(b[i + |t|])
    ensures Scan(b, i, stop) == i + |t|
  {
    AtIndex(b, i, t);
  }

  // ---------------------------------------------------------------- completeness, piece by piece

  lemma {:induction false} EolAt(b: seq<byte>, i: nat, e: LineEnd)
    requires At(b, i, EolText(e))
    ensures Eol(b, i) == Got((), i + |EolText(e)|)
  {
    AtIndex(b, i, EolText(e));
  }

  lemma {:induction false} EolNotEmpty(e: LineEnd)
    ensures EolText(e) != []
  {
  }

  lemma {:induction false} TokenAt(b: seq<byte>, i: nat, t: seq<byte>)
    requires At(b, i, t + [SP]) && NoneOf(t, TokenStop)
    ensures Token(b, i) == Got(Slice(i, |t|), i + |t| + 1)
  {
    AtSplit(b, i, t, [SP]);
    AtIndex(b, i + |t|, [SP]);
    ScanOver(b, i, t, TokenStop);
  }

  lemma {:induction false} ToEolAt(b: seq<byte>, i: nat, t: seq<byte>, e: LineEnd)
    requires At(b, i, t + EolText(e)) && NoneOf(t, EolStop)
    ensures ToEol(b, i) == Got(Slice(i, |t|), i + |t| + |EolText(e)|)
  {
    AtSplit(b, i, t, EolText(e));
    AtIndex(b, i + |t|, EolText(e));
    ScanOver(b, i, t, EolStop);
    EolAt(b, i + |t|, e);
  }

  lemma {:induction false} ToEolAtEnd(b: seq<byte>)
    ensures ToEol(b, |b|) == More
  {
  }

  lemma {:induction false} VersionAt(b: seq<byte>, i: nat, minor: nat)
    requires minor < 10 && At(b, i, VersionText(minor)) && i + 8 < |b|
    ensures Version(b, i) == Got(minor, i + 8)
  {
    AtSplit(b, i, VERSION_PREFIX, [48 + minor]);
    AtIndex(b, i + 7, [48 + minor]);
  }

  lemma {:induction false} NameAt(b: seq<byte>, i: nat, name: seq<byte>)
    requires At(b, i, name + [COLON]) && name != [] && AllOf(name, TokenChar)
    ensures Name(b, i) == Got(Slice(i, |name|), i + |name| + 1)
  {
    AtSplit(b, i, name, [COLON]);
    AtIndex(b, i + |name|, [COLON]);
    ScanOver(b, i, name, NameStop);
  }

  lemma {:induction false} FieldAt(b: seq<byte>, i: nat, l: HeaderLine)
    requires l.FieldLine? && LineOk(l) && At(b, i, LineText(l))
    ensures Field(b, i) == Got(LineHeader(l, i), i + |LineText(l)|)
  {
    hide At, Name, ToEol;
    var value := l.text + EolText(l.eol);
    var j := i + |l.name| + 1;
    assert LineText(l) == (l.name + [COLON]) + (l.blanks + value);
    AtSplit(b, i, l.name + [COLON], l.blanks + value);
    NameAt(b, i, l.name);
    AtSplit(b, j, l.blanks, value);
    AtIndex(b, j + |l.blanks|, value);
    assert b[j + |l.blanks|] == if l.text == [] then EolText(l.eol)[0] else l.text[0];
    ScanOver(b, j, l.blanks, NotBlank);
    ToEolAt(b, j + |l.blanks|, l.text, l.eol);
  }

  lemma {:induction false} LineAt(b: seq<byte>, i: nat, l: HeaderLine, first: bool)
    requires LineOk(l) && At(b, i, LineText(l)) && (first ==> l.FieldLine?)
    ensures i < |b| && b[i] != CR && b[i] != LF
    ensures Line(b, i, first) == Got(LineHeader(l, i), i + |LineText(l)|)
  {
    AtIndex(b, i, LineText(l));
    if l.FieldLine? {
      assert b[i] == l.name[0];
      FieldAt(b, i, l);
    } else {
      assert b[i] == l.text[0];
      ToEolAt(b, i, l.text, l.eol);
    }
  }

  lemma {:induction false} HeadersStep(b: seq<byte>, i: nat, hs: seq<Header>, max: nat)
    requires i < |b| && b[i] != CR && b[i] != LF && |hs| != max && Line(b, i, hs == []).Got?
    ensures var r := Line(b, i, hs == []);
      Headers(b, i, hs, max) == Headers(b, r.next, hs + [r.value], max)
  {
  }

  lemma {:induction false} HeadersEnd(b: seq<byte>, i: nat, blank: LineEnd, hs: seq<Header>, max: nat)
    requires At(b, i, EolText(blank))
    ensures Headers(b, i, hs, max) == HeadersOut(Got((), i + |EolText(blank)|), hs)
  {
    AtIndex(b, i, EolText(blank));
    EolAt(b, i, blank);
  }

  lemma {:induction false} HeadersAt(b: seq<byte>, i: nat, ls: seq<HeaderLine>, blank: LineEnd, hs: seq<Header>,
      max: nat)
    requires forall k :: 0 <= k < |ls| ==> LineOk(ls[k])
    requires hs == [] && ls != [] ==> ls[0].FieldLine?
    requires At(b, i, BlockText(ls, blank)) && |hs| + |ls| <= max
    ensures i <= |b|
    ensures Headers(b, i, hs, max) == HeadersOut(Got((), i + |BlockText(ls, blank)|), hs + LinesHeaders(ls, i))
    decreases |ls|
  {
    hide At, Headers, Line, LineText, LineHeader, LineOk, EolText;
    AtIndex(b, i, BlockText(ls, blank));
    if ls == [] {
      assert BlockText(ls, blank) == EolText(blank);
      HeadersEnd(b, i, blank, hs, max);
      assert hs + [] == hs;
    } else {
      var l, next := ls[0], i + |LineText(ls[0])|;
      assert BlockText(ls, blank) == LineText(l) + BlockText(ls[1..], blank);
      AtSplit(b, i, LineText(l), BlockText(ls[1..], blank));
      LineAt(b, i, l, hs == []);
      HeadersStep(b, i, hs, max);
      var hs' := hs + [LineHeader(l, i)];
      HeadersAt(b, next, ls[1..], blank, hs', max);
      assert hs' + LinesHeaders(ls[1..], next) == hs + LinesHeaders(ls, i);
    }
  }

  lemma {:induction false} LeadAt(b: seq<byte>, lead: Option<LineEnd>)
    requires At(b, 0, LeadText(lead)) && |LeadText(lead)| < |b|
    requires b[|LeadText(lead)|] != CR && b[|LeadText(lead)|] != LF
    ensures OptionalEol(b, 0) == Got((), |LeadText(lead)|)
  {
    if lead.Some? {
      EolAt(b, 0, lead.value);
      AtIndex(b, 0, EolText(lead.value));
    }
  }

  /** The text of a request behind its leading line end, grouped the way the parser reads it. */
  function BehindLeadText(h: RequestHead): seq<byte>
    requires h.minor < 10
  {
    var rest := VersionText(h.minor) + (EolText(h.eol) + BlockText(h.lines, h.blank));
    (h.verb + [SP]) + ((h.path + [SP]) + rest)
  }

  function RequestGrouped(h: RequestHead): seq<byte>
    requires h.minor < 10
  {
    LeadText(h.lead) + BehindLeadText(h)
  }

  lemma {:induction false} RequestRegroup(h: RequestHead)
    requires h.minor < 10
    ensures RequestText(h) == RequestGrouped(h)
  {
  }

  lemma {:induction false} AtPrefix(b: seq<byte>, t: seq<byte>)
    ensures At(b, 0, t) <==> t <= b
  {
  }

  lemma {:induction false} RequestLineLength(h: RequestHead)
    requires h.minor < 10
    ensures |RequestLineText(h)| == |LeadText(h.lead)| + |h.verb| + 1 + |h.path| + 1 + 8 + |EolText(h.eol)|
  {
  }

  lemma {:induction false} RequestLineRegroup(h: RequestHead)
    requires h.minor < 10
    ensures RequestLineText(h) ==
            LeadText(h.lead) + ((h.verb + [SP]) + ((h.path + [SP]) + (VersionText(h.minor) + EolText(h.eol))))
  {
  }

  /** The pieces of a request line, each where the parser looks for it. */
  lemma {:induction false} RequestPieces(b: seq<byte>, h: RequestHead)
    requires RequestOk(h) && RequestLineText(h) <= b
    ensures var i := |LeadText(h.lead)|; var j := i + |h.verb| + 1; var k := j + |h.path| + 1;
      && At(b, 0, LeadText(h.lead)) && At(b, i, h.verb + [SP]) && At(b, j, h.path + [SP])
      && At(b, k, VersionText(h.minor)) && At(b, k + 8, EolText(h.eol))
      && |RequestLineText(h)| == k + 8 + |EolText(h.eol)|
  {
    hide At, EolText, VersionText, LeadText, RequestLineText, LinesOk;
    RequestLineLength(h);
    var i := |LeadText(h.lead)|;
    var j := i + |h.verb| + 1;
    var k := j + |h.path| + 1;
    var v := VersionText(h.minor) + EolText(h.eol);
    var p := (h.path + [SP]) + v;
    var m := (h.verb + [SP]) + p;
    RequestLineRegroup(h);
    AtPrefix(b, RequestLineText(h));
    AtSplit(b, 0, LeadText(h.lead), m);
    AtSplit(b, i, h.verb + [SP], p);
    AtSplit(b, j, h.path + [SP], v);
    AtSplit(b, k, VersionText(h.minor), EolText(h.eol));
  }

  /** The text of a request is its request line and, right behind it, its block. */
  lemma {:induction false} RequestBlockAt(b: seq<byte>, h: RequestHead)
    requires h.minor < 10 && RequestText(h) <= b
    ensures RequestLineText(h) <= b && At(b, |RequestLineText(h)|, BlockText(h.lines, h.blank))
  {
    hide At;
    AtPrefix(b, RequestText(h));
    AtSplit(b, 0, RequestLineText(h), BlockText(h.lines, h.blank));
    AtPrefix(b, RequestLineText(h));
  }

  /** How the parser strings its pieces together when none of them fails. */
  lemma {:induction false} RequestChain(b: seq<byte>, max: nat, i: nat, verb: Slice, j: nat, path: Slice, k: nat,
      minor: nat, n: nat)
    requires OptionalEol(b, 0) == Got((), i)
    requires i <= |b| && Token(b, i) == Got(verb, j)
    requires j <= |b| && Token(b, j) == Got(path, k)
    requires k <= |b| && Version(b, k) == Got(minor, k + 8)
    requires k + 8 <= |b| && Eol(b, k + 8) == Got((), n)
    ensures n <= |b|
    ensures var hs := Headers(b, n, [], max);
      ParseRequest(b, max) == Request(ToVerdict(hs.end), Some(verb), Some(path), minor, hs.headers)
  {
    hide OptionalEol, Version, Token, Eol, Headers;
  }

  /** Behind a well-formed request line the header block decides. */
  lemma {:induction false} RequestLineParsed(b: seq<byte>, h: RequestHead, max: nat)
    requires RequestOk(h) && RequestLineText(h) <= b
    ensures var hs := Headers(b, |RequestLineText(h)|, [], max); var i := |LeadText(h.lead)|;
      ParseRequest(b, max) ==
      Request(ToVerdict(hs.end), Some(Slice(i, |h.verb|)), Some(Slice(i + |h.verb| + 1, |h.path|)), h.minor, hs.headers)
  {
    hide At, OptionalEol, Version, Token, Eol, Headers, ParseRequest, VersionText, EolText, LeadText;
    var i := |LeadText(h.lead)|;
    var j := i + |h.verb| + 1;
    var k := j + |h.path| + 1;
    RequestPieces(b, h);
    AtIndex(b, i, h.verb + [SP]);
    AtIndex(b, k + 8, EolText(h.eol));
    assert b[i] == if h.verb == [] then SP else h.verb[0];
    EolNotEmpty(h.eol);
    LeadAt(b, h.lead);
    TokenAt(b, i, h.verb);
    TokenAt(b, j, h.path);
    VersionAt(b, k, h.minor);
    EolAt(b, k + 8, h.eol);
    RequestChain(b, max, i, Slice(i, |h.verb|), j, Slice(j, |h.path|), k, h.minor, |RequestLineText(h)|);
  }

  /** Completeness for requests: the text of a head, whatever follows it, is parsed back into the head's fields. */
  lemma {:induction false} ParsesRequestText(b: seq<byte>, h: RequestHead, max: nat)
    requires RequestOk(h) && |h.lines| <= max && RequestText(h) <= b
    ensures ParseRequest(b, max) == RequestFields(h)
  {
    hide At, Headers, ParseRequest, BlockText, RequestLineText, LeadText;
    RequestBlockAt(b, h);
    RequestLineParsed(b, h, max);
    HeadersAt(b, |RequestLineText(h)|, h.lines, h.blank, [], max);
  }

  lemma {:induction false} ResponseRegroup(h: ResponseHead)
    requires h.minor < 10
    ensures var rest := (h.reason + EolText(h.eol)) + BlockText(h.lines, h.blank);
      ResponseText(h) == VersionText(h.minor) + (([SP] + (h.digits + [SP])) + rest)
  {
  }

  /** The pieces of a status line, each where the parser looks for it. */
  lemma {:induction false} ResponsePieces(b: seq<byte>, h: ResponseHead)
    requires ResponseOk(h) && ResponseText(h) <= b
    ensures && At(b, 0, VersionText(h.minor)) && At(b, 8, [SP] + (h.digits + [SP]))
            && At(b, 13, h.reason + EolText(h.eol))
            && At(b, |StatusLineText(h)|, BlockText(h.lines, h.blank))
            && |StatusLineText(h)| == 13 + |h.reason| + |EolText(h.eol)|
  {
    var block := BlockText(h.lines, h.blank);
    var r := (h.reason + EolText(h.eol)) + block;
    var d := ([SP] + (h.digits + [SP])) + r;
    ResponseRegroup(h);
    AtPrefix(b, ResponseText(h));
    AtSplit(b, 0, VersionText(h.minor), d);
    AtSplit(b, 8, [SP] + (h.digits + [SP]), r);
    AtSplit(b, 13, h.reason + EolText(h.eol), block);
  }

  /** Completeness for responses. */
  lemma {:induction false} ParsesResponseText(b: seq<byte>, h: ResponseHead, max: nat)
    requires ResponseOk(h) && |h.lines| <= max && ResponseText(h) <= b
    ensures ParseResponse(b, max) == ResponseFields(h)
  {
    hide At, Version, ToEol, Headers, BlockText, LinesText, VersionText, EolText;
    ResponsePieces(b, h);
    AtIndex(b, 8, [SP] + (h.digits + [SP]));
    AtIndex(b, 13, h.reason + EolText(h.eol));
    VersionAt(b, 0, h.minor);
    assert forall k :: 0 <= k < 3 ==> b[9 + k] == h.digits[k];
    assert Status(b, 9) == (StatusValue(h.digits), true);
    assert b[12] == SP;
    ToEolAt(b, 13, h.reason, h.eol);
    HeadersAt(b, |StatusLineText(h)|, h.lines, h.blank, [], max);
  }

  // ---------------------------------------------------------------- soundness: from an accepted head back to its tree

  lemma {:induction false} EolOf(b: seq<byte>, i: nat) returns (e: LineEnd)
    requires i <= |b| && Eol(b, i).Got?
    ensures At(b, i, EolText(e)) && Eol(b, i).next == i + |EolText(e)|
  {
    e := if b[i] == CR then CrLf else BareLf;
  }

  lemma {:induction false} TokenOf(b: seq<byte>, i: nat) returns (t: seq<byte>)
    requires i <= |b| && Token(b, i).Got?
    ensures NoneOf(t, TokenStop) && At(b, i, t + [SP]) && Token(b, i).next == i + |t| + 1
  {
    t := b[i..Scan(b, i, TokenStop)];
    AtSplit(b, i, t, [SP]);
  }

  lemma {:induction false} ToEolOf(b: seq<byte>, i: nat) returns (t: seq<byte>, e: LineEnd)
    requires i <= |b| && ToEol(b, i).Got?
    ensures NoneOf(t, EolStop) && At(b, i, t + EolText(e)) && ToEol(b, i).next == i + |t| + |EolText(e)|
  {
    var j := Scan(b, i, EolStop);
    t := b[i..j];
    e := EolOf(b, j);
    AtSplit(b, i, t, EolText(e));
  }

  lemma {:induction false} VersionOf(b: seq<byte>, i: nat)
    requires i <= |b| && Version(b, i).Got?
    ensures Version(b, i).value < 10 && At(b, i, VersionText(Version(b, i).value)) && Version(b, i).next == i + 8
  {
    AtSplit(b, i, VERSION_PREFIX, [b[i + 7]]);
  }

  lemma {:induction false} NameOf(b: seq<byte>, i: nat) returns (name: seq<byte>)
    requires i <= |b| && Name(b, i).Got?
    ensures name != [] && AllOf(name, TokenChar) && At(b, i, name + [COLON]) && Name(b, i).next == i + |name| + 1
  {
    var j := Scan(b, i, NameStop);
    name := b[i..j];
    assert forall k :: 0 <= k < |name| ==> !NameStop(name[k]);
    AtSplit(b, i, name, [COLON]);
  }

  lemma {:induction false} FieldOf(b: seq<byte>, i: nat) returns (l: HeaderLine)
    requires i <= |b| && Field(b, i).Got?
    ensures l.FieldLine? && LineOk(l) && At(b, i, LineText(l)) && Field(b, i).next == i + |LineText(l)|
  {
    hide At, Name, ToEol, EolText, LineText, TokenChar, EolStop;
    var name := NameOf(b, i);
    var j := Name(b, i).next;
    var k := Scan(b, j, NotBlank);
    var blanks := b[j..k];
    assert forall x :: 0 <= x < |blanks| ==> !NotBlank(blanks[x]);
    AtSlice(b, j, k);
    var t, e := ToEolOf(b, k);
    l := FieldLine(name, blanks, t, e);
    AtIndex(b, k, t + EolText(e));
    assert t != [] ==> b[k] == t[0] && !Blank(t[0]);
    assert LineOk(l);
    AtSplit(b, j, blanks, t + EolText(e));
    AtSplit(b, i, name + [COLON], blanks + (t + EolText(e)));
    FieldRegroup(l);
  }

  lemma {:induction false} FieldRegroup(l: HeaderLine)
    requires l.FieldLine?
    ensures LineText(l) == (l.name + [COLON]) + (l.blanks + (l.text + EolText(l.eol)))
  {
  }

  lemma {:induction false} AtSlice(b: seq<byte>, i: nat, j: nat)
    requires i <= j <= |b|
    ensures At(b, i, b[i..j])
  {
  }

  lemma {:induction false} LineOf(b: seq<byte>, i: nat, first: bool) returns (l: HeaderLine)
    requires i < |b| && b[i] != CR && b[i] != LF && Line(b, i, first).Got?
    ensures LineOk(l) && At(b, i, LineText(l)) && Line(b, i, first).next == i + |LineText(l)|
    ensures first ==> l.FieldLine?
  {
    if first || !Blank(b[i]) {
      l := FieldOf(b, i);
    } else {
      var t, e := ToEolOf(b, i);
      l := FoldedLine(t, e);
      AtIndex(b, i, t + EolText(e));
    }
  }

  lemma {:induction false} HeadersOf(b: seq<byte>, i: nat, hs: seq<Header>, max: nat)
      returns (ls: seq<HeaderLine>, blank: LineEnd)
    requires i <= |b| && |hs| <= max && Headers(b, i, hs, max).end.Got?
    ensures (forall k :: 0 <= k < |ls| ==> LineOk(ls[k])) && (hs == [] && ls != [] ==> ls[0].FieldLine?)
    ensures At(b, i, BlockText(ls, blank)) && |hs| + |ls| <= max
    decreases |b| - i
  {
    hide At, Line, Eol, LineText, LineHeader, LineOk, EolText;
    if b[i] == CR || b[i] == LF {
      ls := [];
      blank := EolOf(b, i);
      assert BlockText(ls, blank) == EolText(blank);
    } else {
      var l := LineOf(b, i, hs == []);
      var r := Line(b, i, hs == []);
      var ls';
      ls', blank := HeadersOf(b, r.next, hs + [r.value], max);
      ls := [l] + ls';
      AtSplit(b, i, LineText(l), BlockText(ls', blank));
      assert BlockText(ls, blank) == LineText(l) + BlockText(ls', blank);
    }
  }

  lemma {:induction false} RequestOf(b: seq<byte>, max: nat) returns (h: RequestHead)
    requires ParseRequest(b, max).verdict.Accepted?
    ensures RequestOk(h) && |h.lines| <= max && RequestText(h) <= b
  {
    hide At, Token, Version, Eol, Headers, BlockText, VersionText, EolText;
    var lead := None;
    if b[0] == CR || b[0] == LF {
      var e := EolOf(b, 0);
      lead := Some(e);
    }
    var i := OptionalEol(b, 0).next;
    var verb := TokenOf(b, i);
    var j := Token(b, i).next;
    var path := TokenOf(b, j);
    var k := Token(b, j).next;
    VersionOf(b, k);
    var minor := Version(b, k).value;
    var e := EolOf(b, k + 8);
    var n := Eol(b, k + 8).next;
    var ls, blank := HeadersOf(b, n, [], max);
    h := RequestHead(lead, verb, path, minor, e, ls, blank);
    assert At(b, 0, LeadText(lead)) && i == |LeadText(lead)| by { AtSlice(b, 0, 0); }
    RequestAssembled(b, h);
  }

  lemma {:induction false} RequestAssembled(b: seq<byte>, h: RequestHead)
    requires h.minor < 10
    requires var i := |LeadText(h.lead)|; var j := i + |h.verb| + 1; var k := j + |h.path| + 1;
      && At(b, 0, LeadText(h.lead)) && At(b, i, h.verb + [SP]) && At(b, j, h.path + [SP])
      && At(b, k, VersionText(h.minor)) && At(b, k + 8, EolText(h.eol))
      && At(b, k + 8 + |EolText(h.eol)|, BlockText(h.lines, h.blank))
    ensures RequestText(h) <= b
  {
    hide At, RequestText, EolText, VersionText, BlockText, LeadText;
    var i := |LeadText(h.lead)|;
    var j := i + |h.verb| + 1;
    var k := j + |h.path| + 1;
    var block := BlockText(h.lines, h.blank);
    var e := EolText(h.eol) + block;
    var v := VersionText(h.minor) + e;
    var p := (h.path + [SP]) + v;
    var m := (h.verb + [SP]) + p;
    AtSplit(b, k + 8, EolText(h.eol), block);
    AtSplit(b, k, VersionText(h.minor), e);
    AtSplit(b, j, h.path + [SP], v);
    AtSplit(b, i, h.verb + [SP], p);
    AtSplit(b, 0, LeadText(h.lead), m);
    RequestRegroup(h);
    AtPrefix(b, RequestText(h));
  }

  lemma {:induction false} ResponseOf(b: seq<byte>, max: nat) returns (h: ResponseHead)
    requires ParseResponse(b, max).verdict.Accepted?
    ensures ResponseOk(h) && |h.lines| <= max && ResponseText(h) <= b
  {
    hide At, ToEol, Version, Headers, BlockText, VersionText, EolText;
    VersionOf(b, 0);
    var minor := Version(b, 0).value;
    var digits := b[9..12];
    var reason, e := ToEolOf(b, 13);
    var n := ToEol(b, 13).next;
    var ls, blank := HeadersOf(b, n, [], max);
    h := ResponseHead(minor, digits, reason, e, ls, blank);
    assert b[8..13] == [SP] + (digits + [SP]);
    AtSlice(b, 8, 13);
    ResponseAssembled(b, h);
  }

  lemma {:induction false} ResponseAssembled(b: seq<byte>, h: ResponseHead)
    requires h.minor < 10 && |h.digits| == 3
    requires At(b, 0, VersionText(h.minor)) && At(b, 8, [SP] + (h.digits + [SP]))
    requires At(b, 13, h.reason + EolText(h.eol))
    requires At(b, 13 + |h.reason| + |EolText(h.eol)|, BlockText(h.lines, h.blank))
    ensures ResponseText(h) <= b
  {
    hide At, ResponseText, EolText, VersionText, BlockText;
    var block := BlockText(h.lines, h.blank);
    var r := (h.reason + EolText(h.eol)) + block;
    var d := ([SP] + (h.digits + [SP])) + r;
    AtSplit(b, 13, h.reason + EolText(h.eol), block);
    AtSplit(b, 8, [SP] + (h.digits + [SP]), r);
    AtSplit(b, 0, VersionText(h.minor), d);
    ResponseRegroup(h);
    AtPrefix(b, ResponseText(h));
  }

  // ---------------------------------------------------------------- the theorems

  /** `h` is a well-formed request head within the header capacity whose text is the first `n` bytes. */
  ghost predicate RequestMatches(h: RequestHead, b: seq<byte>, n: nat, max: nat) {
    RequestOk(h) && |h.lines| <= max && n <= |b| && RequestText(h) == b[..n]
  }

  ghost predicate ResponseMatches(h: ResponseHead, b: seq<byte>, n: nat, max: nat) {
    ResponseOk(h) && |h.lines| <= max && n <= |b| && ResponseText(h) == b[..n]
  }

  /** Grammar soundness and completeness for requests, with the fields the grammar assigns. */
  lemma {:induction false} RequestGrammar(b: seq<byte>, max: nat, n: nat, out: Request)
    requires out.verdict == Accepted(n)
    ensures ParseRequest(b, max) == out <==> exists h :: RequestMatches(h, b, n, max) && out == RequestFields(h)
  {
    if ParseRequest(b, max) == out {
      var h := RequestOf(b, max);
      ParsesRequestText(b, h, max);
      assert RequestMatches(h, b, n, max);
    }
    forall h | RequestMatches(h, b, n, max) && out == RequestFields(h)
      ensures ParseRequest(b, max) == out
    {
      ParsesRequestText(b, h, max);
    }
  }

  lemma {:induction false} ResponseGrammar(b: seq<byte>, max: nat, n: nat, out: Response)
    requires out.verdict == Accepted(n)
    ensures ParseResponse(b, max) == out <==> exists h :: ResponseMatches(h, b, n, max) && out == ResponseFields(h)
  {
    if ParseResponse(b, max) == out {
      var h := ResponseOf(b, max);
      ParsesResponseText(b, h, max);
      assert ResponseMatches(h, b, n, max);
    }
    forall h | ResponseMatches(h, b, n, max) && out == ResponseFields(h)
      ensures ParseResponse(b, max) == out
    {
      ParsesResponseText(b, h, max);
    }
  }

  // ---------------------------------------------------------------- what the slices hold

  /** The slice lies in `[lo, hi)` and holds `t`. */
  predicate Holds(b: seq<byte>, s: Slice, t: seq<byte>, lo: nat, hi: nat) {
    lo <= s.start && s.start + s.len <= hi <= |b| && b[s.start..s.start + s.len] == t
  }

  /** A header's slices hold the line's name and text, the name in front, inside `[lo, hi)`. */
  predicate HeaderHolds(b: seq<byte>, hd: Header, l: HeaderLine, lo: nat, hi: nat) {
    match l
    case FieldLine(name, _, text, _) =>
      && hd.name.Some? && Holds(b, hd.name.value, name, lo, hi)
      && Holds(b, hd.value, text, hd.name.value.start + hd.name.value.len + 1, hi)
    case FoldedLine(text, _) => hd.name.None? && Holds(b, hd.value, text, lo, hi)
  }

  lemma {:induction false} LineHolds(b: seq<byte>, at: nat, l: HeaderLine)
    requires At(b, at, LineText(l))
    ensures HeaderHolds(b, LineHeader(l, at), l, at, at + |LineText(l)|)
  {
    hide At, Holds, EolText;
    var end := at + |LineText(l)|;
    match l
    case FieldLine(name, blanks, text, eol) =>
      var j := at + |name| + 1;
      FieldRegroup(l);
      AtWithin(b, at, LineText(l));
      AtSplit(b, at, name + [COLON], blanks + (text + EolText(eol)));
      AtSplit(b, at, name, [COLON]);
      AtHolds(b, name, Slice(at, |name|), at, end);
      AtSplit(b, j, blanks, text + EolText(eol));
      AtSplit(b, j + |blanks|, text, EolText(eol));
      AtHolds(b, text, Slice(j + |blanks|, |text|), j, end);
    case FoldedLine(text, eol) =>
      AtWithin(b, at, LineText(l));
      AtSplit(b, at, text, EolText(eol));
      AtHolds(b, text, Slice(at, |text|), at, end);
  }

  lemma {:induction false} AtWithin(b: seq<byte>, i: nat, t: seq<byte>)
    requires At(b, i, t)
    ensures i + |t| <= |b|
  {
  }

  /** Header `k` lies inside line `k` of the block: the headers stand in order and do not overlap. */
  lemma {:induction false} LinesHold(b: seq<byte>, at: nat, ls: seq<HeaderLine>, k: nat)
    requires At(b, at, LinesText(ls)) && k < |ls|
    ensures var lo := at + |LinesText(ls[..k])|;
      && HeaderHolds(b, LinesHeaders(ls, at)[k], ls[k], lo, lo + |LineText(ls[k])|)
      && lo + |LineText(ls[k])| == at + |LinesText(ls[..k + 1])| <= at + |LinesText(ls)|
    decreases k
  {
    hide HeaderHolds, At, LineText;
    AtSplit(b, at, LineText(ls[0]), LinesText(ls[1..]));
    if k == 0 {
      LineHolds(b, at, ls[0]);
      assert ls[..1][1..] == [];
    } else {
      LinesHold(b, at + |LineText(ls[0])|, ls[1..], k - 1);
      assert ls[..k][1..] == ls[1..][..k - 1] && ls[..k + 1][1..] == ls[1..][..k];
    }
  }

  /** Where line `k` of a block that starts at `at` begins. */
  function LineStart(ls: seq<HeaderLine>, at: nat, k: nat): nat
    requires k <= |ls|
  {
    at + |LinesText(ls[..k])|
  }

  /** The headers hold the lines of the block at `at`, one by one, each inside its own line. */
  ghost predicate HeadersHold(b: seq<byte>, hs: seq<Header>, ls: seq<HeaderLine>, at: nat) {
    && |hs| == |ls|
    && forall k :: 0 <= k < |ls| ==> HeaderHolds(b, hs[k], ls[k], LineStart(ls, at, k), LineStart(ls, at, k + 1))
  }

  lemma {:induction false} BlockHolds(b: seq<byte>, at: nat, ls: seq<HeaderLine>)
    requires At(b, at, LinesText(ls))
    ensures HeadersHold(b, LinesHeaders(ls, at), ls, at)
  {
    hide HeaderHolds, At, LineText, LinesText;
    forall k | 0 <= k < |ls|
      ensures HeaderHolds(b, LinesHeaders(ls, at)[k], ls[k], LineStart(ls, at, k), LineStart(ls, at, k + 1))
    {
      LinesHold(b, at, ls, k);
    }
  }

  /** The method, the path and the header lines, in order, inside the first `n` bytes. */
  ghost predicate RequestHolds(b: seq<byte>, r: Request, h: RequestHead) {
    && r.verdict.Accepted? && r.verdict.n <= |b| && r.verb.Some? && r.path.Some? && h.minor == r.minor < 10
    && var line := |RequestLineText(h)|;
    && Holds(b, r.verb.value, h.verb, 0, line)
       && Holds(b, r.path.value, h.path, r.verb.value.start + r.verb.value.len + 1, line)
    && HeadersHold(b, r.headers, h.lines, line)
    && LineStart(h.lines, line, |h.lines|) < r.verdict.n
  }

  lemma {:induction false} AtHolds(b: seq<byte>, t: seq<byte>, s: Slice, lo: nat, hi: nat)
    requires At(b, s.start, t) && s.len == |t| && lo <= s.start && s.start + s.len <= hi <= |b|
    ensures Holds(b, s, t, lo, hi)
  {
  }

  lemma {:induction false} RequestFieldsHold(b: seq<byte>, h: RequestHead)
    requires RequestOk(h) && RequestText(h) <= b
    ensures RequestHolds(b, RequestFields(h), h)
  {
    hide At, Holds, HeadersHold, LinesText, VersionText, LeadText, EolText, LinesOk;
    RequestBlockAt(b, h);
    RequestPieces(b, h);
    var i, j := |LeadText(h.lead)|, |LeadText(h.lead)| + |h.verb| + 1;
    AtSplit(b, i, h.verb, [SP]);
    AtHolds(b, h.verb, Slice(i, |h.verb|), 0, |RequestLineText(h)|);
    AtSplit(b, j, h.path, [SP]);
    AtHolds(b, h.path, Slice(j, |h.path|), j, |RequestLineText(h)|);
    AtSplit(b, |RequestLineText(h)|, LinesText(h.lines), EolText(h.blank));
    BlockHolds(b, |RequestLineText(h)|, h.lines);
    EolNotEmpty(h.blank);
    assert h.lines[..|h.lines|] == h.lines;
  }

  /** Every accepted request has a tree whose parts its slices hold. */
  lemma {:induction false} RequestSlices(b: seq<byte>, max: nat) returns (h: RequestHead)
    requires ParseRequest(b, max).verdict.Accepted?
    ensures RequestOk(h) && RequestText(h) == b[..ParseRequest(b, max).verdict.n]
    ensures RequestHolds(b, ParseRequest(b, max), h)
  {
    hide RequestHolds, ParseRequest;
    h := RequestOf(b, max);
    ParsesRequestText(b, h, max);
    RequestFieldsHold(b, h);
  }
}
