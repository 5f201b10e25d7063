/**
 * The language of the parser written out in characters. Nothing here is said with the byte classes, constants or texts
 * of the parser and its grammar: the classes are letters, digits and string literals, the texts are literals, and the
 * theorems connect the two.
 */
module HeadCharacters {
  import opened Bytes
  import opened Options
  import opened HeadSpec
  import opened HeadGrammar

  // ---------------------------------------------------------------- bytes

  predicate Between(b: byte, lo: char, hi: char) { lo as int <= b <= hi as int }

  /** The specials of a token in section 3.2.6 of RFC 7230. */
  predicate Special(b: byte) { exists i :: 0 <= i < 15 && "!#$%&'*+-.^_`|~"[i] as int == b }

  predicate NameByte(b: byte) { Between(b, 'a', 'z') || Between(b, 'A', 'Z') || Between(b, '0', '9') || Special(b) }

  predicate BlankByte(b: byte) { b == ' ' as int || b == '\t' as int }

  /** No control character but the tab. */
  predicate ValueByte(b: byte) { b == '\t' as int || (b >= ' ' as int && b != 127) }

  /** No control character and no space. */
  predicate WordByte(b: byte) { b > ' ' as int && b != 127 }

  lemma {:induction false} SpecialsAre(b: byte)
    ensures Special(b) <==> b == 33 || 35 <= b <= 39 || b == 42 || b == 43 || b == 45 || b == 46 || 94 <= b <= 96
                            || b == 124 || b == 126
  {
    var s := "!#$%&'*+-.^_`|~";
    assert s[0] as int == 33 && s[1] as int == 35 && s[2] as int == 36 && s[3] as int == 37 && s[4] as int == 38;
    assert s[5] as int == 39 && s[6] as int == 42 && s[7] as int == 43 && s[8] as int == 45 && s[9] as int == 46;
    assert s[10] as int == 94 && s[11] as int == 95 && s[12] as int == 96 && s[13] as int == 124 && s[14] as int == 126;
  }

  /** The byte classes of the parser, one by one. */
  lemma {:induction false} ClassesExactly(b: byte)
    ensures TokenChar(b) <==> NameByte(b)
    ensures Blank(b) <==> BlankByte(b)
    ensures EolStop(b) <==> !ValueByte(b)
    ensures TokenStop(b) <==> !WordByte(b)
    ensures Digit(b) <==> Between(b, '0', '9')
  {
    SpecialsAre(b);
  }

  // ---------------------------------------------------------------- well-formed heads

  predicate GoodLine(l: HeaderLine) {
    && (forall i :: 0 <= i < |l.text| ==> ValueByte(l.text[i]))
    && match l
       case FieldLine(name, blanks, text, _) =>
         && name != [] && (forall i :: 0 <= i < |name| ==> NameByte(name[i]))
         && (forall i :: 0 <= i < |blanks| ==> BlankByte(blanks[i])) && (text != [] ==> !BlankByte(text[0]))
       case FoldedLine(text, _) => text != [] && BlankByte(text[0])
  }

  predicate GoodLines(ls: seq<HeaderLine>) {
    (forall i :: 0 <= i < |ls| ==> GoodLine(ls[i])) && (ls != [] ==> ls[0].FieldLine?)
  }

  predicate GoodRequest(h: RequestHead) {
    && (forall i :: 0 <= i < |h.verb| ==> WordByte(h.verb[i]))
    && (forall i :: 0 <= i < |h.path| ==> WordByte(h.path[i]))
    && h.minor < 10 && GoodLines(h.lines)
  }

  predicate GoodResponse(h: ResponseHead) {
    && h.minor < 10 && |h.digits| == 3 && (forall i :: 0 <= i < 3 ==> Between(h.digits[i], '0', '9'))
    && (forall i :: 0 <= i < |h.reason| ==> ValueByte(h.reason[i])) && GoodLines(h.lines)
  }

  lemma {:induction false} GoodLineExactly(l: HeaderLine)
    ensures GoodLine(l) <==> LineOk(l)
  {
    hide TokenChar, Blank, EolStop, NameByte, BlankByte, ValueByte;
    forall b: byte { ClassesExactly(b); }
  }

  lemma {:induction false} GoodLinesExactly(ls: seq<HeaderLine>)
    ensures GoodLines(ls) <==> LinesOk(ls)
  {
    hide GoodLine, LineOk;
    forall i | 0 <= i < |ls| ensures GoodLine(ls[i]) <==> LineOk(ls[i]) { GoodLineExactly(ls[i]); }
  }

  lemma {:induction false} GoodHeadsExactly(h: RequestHead, k: ResponseHead)
    ensures GoodRequest(h) <==> RequestOk(h)
    ensures GoodResponse(k) <==> ResponseOk(k)
  {
    hide GoodLines, LinesOk, TokenStop, EolStop, Digit, WordByte, ValueByte, Between;
    forall b: byte { ClassesExactly(b); }
    GoodLinesExactly(h.lines);
    GoodLinesExactly(k.lines);
  }

  // ---------------------------------------------------------------- texts

  function EolChars(e: LineEnd): seq<byte> { Ascii(if e.CrLf? then "\r\n" else "\n") }

  function LineChars(l: HeaderLine): seq<byte> {
    match l
    case FieldLine(name, blanks, text, eol) => name + Ascii(":") + blanks + text + EolChars(eol)
    case FoldedLine(text, eol) => text + EolChars(eol)
  }

  function LinesChars(ls: seq<HeaderLine>): seq<byte> {
    if ls == [] then [] else LineChars(ls[0]) + LinesChars(ls[1..])
  }

  function DigitChar(d: nat): byte
    requires d < 10
  {
    "0123456789"[d] as int
  }

  function RequestChars(h: RequestHead): seq<byte>
    requires h.minor < 10
  {
    (if h.lead.Some? then EolChars(h.lead.value) else [])
    + h.verb + Ascii(" ") + h.path + Ascii(" HTTP/1.") + [DigitChar(h.minor)] + EolChars(h.eol)
    + LinesChars(h.lines) + EolChars(h.blank)
  }

  function ResponseChars(h: ResponseHead): seq<byte>
    requires h.minor < 10
  {
    Ascii("HTTP/1.") + [DigitChar(h.minor)] + Ascii(" ") + h.digits + Ascii(" ") + h.reason + EolChars(h.eol)
    + LinesChars(h.lines) + EolChars(h.blank)
  }

  lemma {:induction false} EolCharsExactly(e: LineEnd)
    ensures EolChars(e) == EolText(e)
  {
    assert "\r\n"[0] as int == 13 && "\r\n"[1] as int == 10 && "\n"[0] as int == 10;
  }

  lemma {:induction false} DigitCharExactly(d: nat)
    requires d < 10
    ensures DigitChar(d) == 48 + d
  {
  }

  lemma {:induction false} LiteralsExactly()
    ensures Ascii(":") == [58] && Ascii(" ") == [32]
    ensures Ascii("HTTP/1.") == [72, 84, 84, 80, 47, 49, 46]
    ensures Ascii(" HTTP/1.") == [32, 72, 84, 84, 80, 47, 49, 46]
  {
  }

  lemma {:induction false} LineCharsExactly(l: HeaderLine)
    ensures LineChars(l) == LineText(l)
  {
    hide Ascii, EolChars, EolText;
    LiteralsExactly();
    EolCharsExactly(l.eol);
  }

  lemma {:induction false} LinesCharsExactly(ls: seq<HeaderLine>)
    ensures LinesChars(ls) == LinesText(ls)
  {
    hide LineChars, LineText;
    if ls != [] {
      LineCharsExactly(ls[0]);
      LinesCharsExactly(ls[1..]);
    }
  }

  lemma {:induction false} RequestCharsExactly(h: RequestHead)
    requires h.minor < 10
    ensures RequestChars(h) == RequestText(h)
  {
    hide Ascii, EolChars, EolText, LinesChars, LinesText, DigitChar;
    LiteralsExactly();
    EolCharsExactly(h.eol);
    EolCharsExactly(h.blank);
    if h.lead.Some? {
      EolCharsExactly(h.lead.value);
    }
    LinesCharsExactly(h.lines);
    DigitCharExactly(h.minor);
    assert Ascii(" HTTP/1.") + [DigitChar(h.minor)] == [SP] + VersionText(h.minor);
  }

  lemma {:induction false} ResponseCharsExactly(h: ResponseHead)
    requires h.minor < 10
    ensures ResponseChars(h) == ResponseText(h)
  {
    hide Ascii, EolChars, EolText, LinesChars, LinesText, DigitChar;
    LiteralsExactly();
    EolCharsExactly(h.eol);
    EolCharsExactly(h.blank);
    LinesCharsExactly(h.lines);
    DigitCharExactly(h.minor);
    assert Ascii("HTTP/1.") + [DigitChar(h.minor)] == VersionText(h.minor);
  }

  // ---------------------------------------------------------------- the theorems

  /** `h` is well-formed, fits the capacity, and its characters are the first `n` bytes. */
  ghost predicate Spells(h: RequestHead, b: seq<byte>, n: nat, max: nat) {
    GoodRequest(h) && |h.lines| <= max && n <= |b| && RequestChars(h) == b[..n]
  }

  ghost predicate ResponseSpells(h: ResponseHead, b: seq<byte>, n: nat, max: nat) {
    GoodResponse(h) && |h.lines| <= max && n <= |b| && ResponseChars(h) == b[..n]
  }

  /** A request is accepted exactly when its bytes spell a well-formed one. */
  lemma {:induction false} AcceptsExactlySpelled(b: seq<byte>, max: nat, n: nat)
    ensures ParseRequest(b, max).verdict == Accepted(n) <==> exists h :: Spells(h, b, n, max)
  {
    hide ParseRequest, GoodRequest, RequestOk, RequestChars, RequestText;
    if ParseRequest(b, max).verdict == Accepted(n) {
      var h := RequestOf(b, max);
      ParsesRequestText(b, h, max);
      SpelledExactly(h);
      assert Spells(h, b, n, max);
    }
    forall h | Spells(h, b, n, max)
      ensures ParseRequest(b, max).verdict == Accepted(n)
    {
      SpelledExactly(h);
      ParsesRequestText(b, h, max);
    }
  }

  lemma {:induction false} SpelledExactly(h: RequestHead)
    ensures GoodRequest(h) <==> RequestOk(h)
    ensures GoodRequest(h) ==> h.minor < 10 && RequestChars(h) == RequestText(h)
  {
    hide LinesOk, GoodLines, RequestChars, RequestText;
    GoodHeadsExactly(h, ResponseHead(0, [], [], CrLf, [], CrLf));
    if GoodRequest(h) {
      RequestCharsExactly(h);
    }
  }

  lemma {:induction false} ResponseSpelledExactly(h: ResponseHead)
    ensures GoodResponse(h) <==> ResponseOk(h)
    ensures GoodResponse(h) ==> h.minor < 10 && ResponseChars(h) == ResponseText(h)
  {
    hide LinesOk, GoodLines, ResponseChars, ResponseText;
    GoodHeadsExactly(RequestHead(None, [], [], 0, CrLf, [], CrLf), h);
    if GoodResponse(h) {
      ResponseCharsExactly(h);
    }
  }

  lemma {:induction false} AcceptsResponseExactlySpelled(b: seq<byte>, max: nat, n: nat)
    ensures ParseResponse(b, max).verdict == Accepted(n) <==> exists h :: ResponseSpells(h, b, n, max)
  {
    hide ParseResponse, GoodResponse, ResponseOk, ResponseChars, ResponseText;
    if ParseResponse(b, max).verdict == Accepted(n) {
      var h := ResponseOf(b, max);
      ParsesResponseText(b, h, max);
      ResponseSpelledExactly(h);
      assert ResponseSpells(h, b, n, max);
    }
    forall h | ResponseSpells(h, b, n, max)
      ensures ParseResponse(b, max).verdict == Accepted(n)
    {
      ResponseSpelledExactly(h);
      ParsesResponseText(b, h, max);
    }
  }

  /** The version, once nine bytes are there, is `HTTP/1.` and a digit, and nothing else. */
  lemma {:induction false} VersionExactly(b: seq<byte>, i: nat, m: nat)
    requires i + 9 <= |b|
    ensures Version(b, i) == Got(m, i + 8) <==> m < 10 && b[i..i + 8] == Ascii("HTTP/1.") + [DigitChar(m)]
    ensures Version(b, i) != More
  {
    hide Ascii, DigitChar;
    LiteralsExactly();
    assert b[i..i + 8] == b[i..i + 7] + [b[i + 7]];
    if m < 10 {
      DigitCharExactly(m);
      var v := Ascii("HTTP/1.") + [DigitChar(m)];
      assert v[..7] == Ascii("HTTP/1.") && v[7] == DigitChar(m);
      if b[i..i + 8] == v {
        assert b[i..i + 7] == b[i..i + 8][..7] && b[i + 7] == b[i..i + 8][7];
      }
    }
  }

  /**
   * What an accepted header line looks like, byte by byte: a line behind another one continues it exactly if it starts
   * with a space or a tab; otherwise there is a name, a colon, spaces and tabs, and a value that starts with neither.
   */
  lemma {:induction false} LineBytes(b: seq<byte>, i: nat, first: bool)
    requires i < |b| && b[i] != 13 && b[i] != 10 && Line(b, i, first).Got?
    ensures var h, next := Line(b, i, first).value, Line(b, i, first).next;
      var from, to := h.value.start, h.value.start + h.value.len;
      && i <= from <= to < next <= |b|
      && (h.name.None? <==> !first && (b[i] == 32 || b[i] == 9)) && (h.name.None? ==> from == i)
      && (h.name.Some? ==>
            var end := h.name.value.start + h.name.value.len;
            && h.name.value.start == i < end < from && b[end] == 58
            && (forall k :: i <= k < end ==> NameByte(b[k]))
            && (forall k :: end < k < from ==> b[k] == 32 || b[k] == 9)
            && (from < to ==> b[from] != 32 && b[from] != 9))
      && (forall k :: from <= k < to ==> b[k] == 9 || (b[k] >= 32 && b[k] != 127))
      && (b[to..next] == [13, 10] || b[to..next] == [10])
  {
    hide Line, LineOk, LineText, At, TokenChar, Blank, EolStop, NameByte;
    var l := LineOf(b, i, first);
    GoodLineExactly(l);
    LineAt(b, i, l, first);
    if l.FieldLine? {
      FieldBytes(b, i, l);
      assert b[i] == b[i..i + |l.name|][0] == l.name[0];
      NameByteNotBlank(b[i]);
      if l.text != [] {
        var from := LineHeader(l, i).value.start;
        assert b[from] == b[from..from + |l.text|][0] == l.text[0];
      }
    } else {
      FoldedText(l);
      TextBytes(b, i, l.text, l.eol);
      assert b[i] == b[i..i + |l.text|][0] == l.text[0];
    }
  }

  lemma {:induction false} FoldedText(l: HeaderLine)
    requires l.FoldedLine?
    ensures LineText(l) == l.text + EolText(l.eol)
  {
  }

  lemma {:induction false} NameByteNotBlank(b: byte)
    requires NameByte(b)
    ensures b != 32 && b != 9
  {
    SpecialsAre(b);
  }

  /** The value and the line end of a line, where they stand. */
  ghost predicate EndsWell(b: seq<byte>, from: nat, to: nat, next: nat, text: seq<byte>) {
    && from <= to < next <= |b| && b[from..to] == text
    && (forall k :: from <= k < to ==> ValueByte(b[k])) && (b[to..next] == [13, 10] || b[to..next] == [10])
  }

  lemma {:induction false} TextBytes(b: seq<byte>, i: nat, text: seq<byte>, e: LineEnd)
    requires At(b, i, text + EolText(e)) && forall k :: 0 <= k < |text| ==> ValueByte(text[k])
    ensures EndsWell(b, i, i + |text|, i + |text| + |EolText(e)|, text)
  {
    hide ValueByte, EolText;
    AtSplit(b, i, text, EolText(e));
    EndBytes(b, i + |text|, e);
    AtIndex(b, i, text);
  }

  lemma {:induction false} FieldBytes(b: seq<byte>, i: nat, l: HeaderLine)
    requires l.FieldLine? && GoodLine(l) && At(b, i, LineText(l))
    ensures var end := i + |l.name|; var from := end + 1 + |l.blanks|;
      && EndsWell(b, from, from + |l.text|, i + |LineText(l)|, l.text) && b[i..end] == l.name
      && (forall k :: i <= k < end ==> NameByte(b[k])) && b[end] == 58
      && (forall k :: end < k < from ==> BlankByte(b[k]))
  {
    hide At, NameByte, ValueByte, BlankByte, EolText, EndsWell, LineText;
    var j := i + |l.name| + 1;
    FieldRegroup(l);
    AtSplit(b, i, l.name + [COLON], l.blanks + (l.text + EolText(l.eol)));
    AtSplit(b, i, l.name, [COLON]);
    AtIndex(b, i, l.name);
    AtIndex(b, i + |l.name|, [COLON]);
    AtSplit(b, j, l.blanks, l.text + EolText(l.eol));
    AtIndex(b, j, l.blanks);
    TextBytes(b, j + |l.blanks|, l.text, l.eol);
    assert b[i..i + |l.name|] == l.name;
  }

  lemma {:induction false} EndBytes(b: seq<byte>, i: nat, e: LineEnd)
    requires At(b, i, EolText(e))
    ensures var next := i + |EolText(e)|; i < next <= |b| && (b[i..next] == [13, 10] || b[i..next] == [10])
  {
  }

  // ---------------------------------------------------------------- requests as clients write them

  /** A header as clients write it: letters, digits and hyphens, and a printable value. */
  predicate PlainHeader(h: (seq<byte>, seq<byte>)) {
    && h.0 != []
    && (forall i :: 0 <= i < |h.0| ==>
          Between(h.0[i], 'a', 'z') || Between(h.0[i], 'A', 'Z') || Between(h.0[i], '0', '9') || h.0[i] == '-' as int)
    && (forall i :: 0 <= i < |h.1| ==> Between(h.1[i], ' ', '~')) && (h.1 != [] ==> h.1[0] != ' ' as int)
  }

  function PlainHeaders(hs: seq<(seq<byte>, seq<byte>)>): seq<byte> {
    if hs == [] then [] else hs[0].0 + Ascii(": ") + hs[0].1 + Ascii("\r\n") + PlainHeaders(hs[1..])
  }

  function PlainRequest(path: seq<byte>, hs: seq<(seq<byte>, seq<byte>)>): seq<byte> {
    Ascii("GET ") + path + Ascii(" HTTP/1.1\r\n") + PlainHeaders(hs) + Ascii("\r\n")
  }

  function PlainLines(hs: seq<(seq<byte>, seq<byte>)>): (r: seq<HeaderLine>)
    ensures |r| == |hs|
    ensures forall i :: 0 <= i < |hs| ==> r[i] == FieldLine(hs[i].0, [32], hs[i].1, CrLf)
  {
    if hs == [] then [] else [FieldLine(hs[0].0, [32], hs[0].1, CrLf)] + PlainLines(hs[1..])
  }

  function PlainHead(path: seq<byte>, hs: seq<(seq<byte>, seq<byte>)>): RequestHead {
    RequestHead(None, Ascii("GET"), path, 1, CrLf, PlainLines(hs), CrLf)
  }

  lemma {:induction false} PlainLiterals()
    ensures Ascii(": ") == [58, 32] && Ascii("\r\n") == [13, 10] && Ascii("GET") == [71, 69, 84]
    ensures Ascii("GET ") == Ascii("GET") + [32]
    ensures Ascii(" HTTP/1.1\r\n") == [32, 72, 84, 84, 80, 47, 49, 46, 49, 13, 10]
  {
  }

  lemma {:induction false} PlainHeadersAreLines(hs: seq<(seq<byte>, seq<byte>)>)
    ensures PlainHeaders(hs) == LinesText(PlainLines(hs))
  {
    hide Ascii;
    PlainLiterals();
    if hs != [] {
      hide LineText;
      PlainHeadersAreLines(hs[1..]);
      assert PlainLines(hs)[1..] == PlainLines(hs[1..]);
      PlainHeaderIsLine(hs[0].0, hs[0].1);
    }
  }

  lemma {:induction false} PlainHeaderIsLine(name: seq<byte>, value: seq<byte>)
    ensures name + [58, 32] + value + [13, 10] == LineText(FieldLine(name, [32], value, CrLf))
  {
    var l := FieldLine(name, [32], value, CrLf);
    FieldRegroup(l);
    assert [58, 32] == [COLON] + [32] && EolText(CrLf) == [13, 10];
    assert name + ([COLON] + [32]) == (name + [COLON]) + [32];
    assert ((name + [COLON]) + [32]) + value + [13, 10] == (name + [COLON]) + ([32] + (value + [13, 10]));
  }

  lemma {:induction false} PlainLineGood(h: (seq<byte>, seq<byte>))
    requires PlainHeader(h)
    ensures GoodLine(FieldLine(h.0, [32], h.1, CrLf))
  {
    forall i | 0 <= i < |h.0| ensures NameByte(h.0[i]) {
      SpecialsAre(h.0[i]);
    }
  }

  lemma {:induction false} PlainIsHead(path: seq<byte>, hs: seq<(seq<byte>, seq<byte>)>)
    requires forall i :: 0 <= i < |path| ==> Between(path[i], '!', '~')
    requires forall i :: 0 <= i < |hs| ==> PlainHeader(hs[i])
    ensures RequestOk(PlainHead(path, hs)) && RequestText(PlainHead(path, hs)) == PlainRequest(path, hs)
  {
    hide Ascii, PlainHeader, GoodLine, LineOk, LinesText, RequestText, PlainRequest, TokenStop;
    var h := PlainHead(path, hs);
    forall i | 0 <= i < |hs| ensures LineOk(h.lines[i]) {
      PlainLineGood(hs[i]);
      GoodLineExactly(h.lines[i]);
    }
    forall b: byte { ClassesExactly(b); }
    PlainLiterals();
    PlainText(path, hs);
  }

  lemma {:induction false} PlainText(path: seq<byte>, hs: seq<(seq<byte>, seq<byte>)>)
    ensures RequestText(PlainHead(path, hs)) == PlainRequest(path, hs)
  {
    hide Ascii, LinesText, PlainHeaders;
    PlainLiterals();
    PlainHeadersAreLines(hs);
    assert VersionText(1) == [72, 84, 84, 80, 47, 49, 46, 49];
    assert [SP] + VersionText(1) + EolText(CrLf) == Ascii(" HTTP/1.1\r\n");
    assert LeadText(None) == [];
  }

  /** `s` lies in `b` and holds `t`. */
  predicate SliceIs(b: seq<byte>, s: Slice, t: seq<byte>) { s.start + s.len <= |b| && b[s.start..s.start + s.len] == t }

  /**
   * The request a client writes, `GET`, a path and its headers, is accepted whole within the capacity, whatever stands
   * behind it, and its parts are handed out: method, path, minor version, and names and values in order.
   */
  lemma {:induction false} PlainRequestAccepted(path: seq<byte>, hs: seq<(seq<byte>, seq<byte>)>, tail: seq<byte>,
      max: nat)
    requires forall i :: 0 <= i < |path| ==> Between(path[i], '!', '~')
    requires forall i :: 0 <= i < |hs| ==> PlainHeader(hs[i])
    requires |hs| <= max
    ensures var b := PlainRequest(path, hs) + tail; var r := PhrParseRequest(b, max, 0);
      && r.verdict == Accepted(|PlainRequest(path, hs)|) && r.minor == 1
      && r.verb.Some? && SliceIs(b, r.verb.value, Ascii("GET")) && r.path.Some? && SliceIs(b, r.path.value, path)
      && |r.headers| == |hs|
      && forall k :: 0 <= k < |hs| ==>
           && r.headers[k].name.Some? && SliceIs(b, r.headers[k].name.value, hs[k].0)
           && SliceIs(b, r.headers[k].value, hs[k].1)
  {
    hide ParseRequest, RequestText, RequestLineText, PlainRequest, Ascii, LineStart, LinesOk, PlainHeader, Between;
    var h := PlainHead(path, hs);
    var b := PlainRequest(path, hs) + tail;
    PlainIsHead(path, hs);
    ParsesRequestText(b, h, max);
    RequestFieldsHold(b, h);
    var r, line := ParseRequest(b, max), |RequestLineText(h)|;
    forall k | 0 <= k < |hs|
      ensures r.headers[k].name.Some? && SliceIs(b, r.headers[k].name.value, hs[k].0)
      ensures SliceIs(b, r.headers[k].value, hs[k].1)
    {
      assert HeaderHolds(b, r.headers[k], h.lines[k], LineStart(h.lines, line, k), LineStart(h.lines, line, k + 1));
    }
  }
}
