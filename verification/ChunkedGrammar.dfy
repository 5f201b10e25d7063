/**
 * The language the chunked decoder accepts, written as the text of a syntax tree, and the proof that a
 * decoder started afresh completes on exactly that language, with exactly the tree's data as payload.
 */
module ChunkedGrammar {
  import opened Bytes
  import opened ChunkedSpec

  /** `size [ext] LF data CR* LF`; the CR of a proper CRLF after the size is the last byte of `ext`. */
  datatype Chunk = Chunk(size: seq<byte>, ext: seq<byte>, data: seq<byte>, crs: nat)

  /** `CR* head rest LF`, where `head` is neither CR nor LF. */
  datatype TrailerLine = TrailerLine(crs: nat, head: byte, rest: seq<byte>)

  datatype Body = Body(chunks: seq<Chunk>, lastSize: seq<byte>, lastExt: seq<byte>, trailer: seq<TrailerLine>,
                       endCrs: nat)

  function HexFold(acc: nat, digits: seq<byte>): nat
    requires forall i :: 0 <= i < |digits| ==> IsHex(digits[i])
    decreases |digits|
  {
    if digits == [] then acc else assert IsHex(digits[0]); HexFold(acc * 16 + DecodeHex(digits[0]), digits[1..])
  }

  predicate SizeOk(size: seq<byte>, value: nat) {
    && 1 <= |size| <= MAX_HEX_DIGITS
    && (forall i :: 0 <= i < |size| ==> IsHex(size[i]))
    && HexFold(0, size) == value
  }

  predicate ExtOk(ext: seq<byte>) {
    LF !in ext && (ext != [] ==> !IsHex(ext[0]))
  }

  predicate ChunkOk(c: Chunk) {
    c.data != [] && SizeOk(c.size, |c.data|) && ExtOk(c.ext)
  }

  predicate TrailerLineOk(l: TrailerLine) {
    l.head != CR && l.head != LF && LF !in l.rest
  }

  predicate BodyOk(m: Body) {
    && (forall i :: 0 <= i < |m.chunks| ==> ChunkOk(m.chunks[i]))
    && SizeOk(m.lastSize, 0) && ExtOk(m.lastExt)
    && (forall i :: 0 <= i < |m.trailer| ==> TrailerLineOk(m.trailer[i]))
  }

  function SizeLine(size: seq<byte>, ext: seq<byte>): seq<byte> { size + (ext + [LF]) }

  function ChunkText(c: Chunk): seq<byte> { SizeLine(c.size, c.ext) + (c.data + (Repeat(CR, c.crs) + [LF])) }

  function ChunksText(cs: seq<Chunk>): seq<byte> {
    if cs == [] then [] else ChunkText(cs[0]) + ChunksText(cs[1..])
  }

  function TrailerLineText(l: TrailerLine): seq<byte> { Repeat(CR, l.crs) + ([l.head] + (l.rest + [LF])) }

  function TrailerText(ls: seq<TrailerLine>, endCrs: nat): seq<byte> {
    if ls == [] then Repeat(CR, endCrs) + [LF] else TrailerLineText(ls[0]) + TrailerText(ls[1..], endCrs)
  }

  /** Everything the decoder consumes: the trailer only when it was asked to. */
  function Text(m: Body, consumeTrailer: bool): seq<byte> {
    var trailer := if consumeTrailer then TrailerText(m.trailer, m.endCrs) else [];
    ChunksText(m.chunks) + (SizeLine(m.lastSize, m.lastExt) + trailer)
  }

  function Data(cs: seq<Chunk>): seq<byte> {
    if cs == [] then [] else cs[0].data + Data(cs[1..])
  }

  // ---------------------------------------------------------------- runs over one piece of syntax

  /** A stretch of input that only moves the decoder from `d` to `d'`, emitting `out`. */
  ghost predicate Passes(d: State, a: seq<byte>, out: seq<byte>, d': State) {
    Valid(d) && Valid(d') && Run(d, a) == Outcome(d', out, |a|, Incomplete)
  }

  lemma {:induction false} PassThen(d: State, a: seq<byte>, out: seq<byte>, d': State, b: seq<byte>)
    requires Passes(d, a, out, d')
    ensures Run(d, a + b) == Prepend(out, |a|, Run(d', b))
  {
    RunSplit(d, a, b);
  }

  lemma {:induction false} PassTwice(d: State, a: seq<byte>, out: seq<byte>, d1: State, b: seq<byte>,
      out': seq<byte>, d2: State)
    requires Passes(d, a, out, d1) && Passes(d1, b, out', d2)
    ensures Passes(d, a + b, out + out', d2)
  {
    PassThen(d, a, out, d1, b);
  }

  lemma {:induction false} PassDigits(d: State, digits: seq<byte>)
    requires Valid(d) && d.phase == InSize && d.hexCount + |digits| <= MAX_HEX_DIGITS
    requires forall i :: 0 <= i < |digits| ==> IsHex(digits[i])
    ensures Passes(d, digits, [], d.(left := HexFold(d.left, digits), hexCount := d.hexCount + |digits|))
    decreases |digits|
  {
    if digits != [] {
      PassDigits(Step(d, digits[0]).state, digits[1..]);
    }
  }

  /** Bytes that leave the state alone. */
  lemma {:induction false} PassStill(d: State, a: seq<byte>)
    requires Valid(d) && forall i :: 0 <= i < |a| ==> Step(d, a[i]) == Next(d, [])
    ensures Passes(d, a, [], d)
    decreases |a|
  {
    if a != [] {
      PassStill(d, a[1..]);
    }
  }

  /** A last byte that changes the state silently. */
  lemma {:induction false} PassLast(d: State, a: seq<byte>, d1: State, b: byte, d2: State)
    requires Passes(d, a, [], d1) && Step(d1, b) == Next(d2, [])
    ensures Passes(d, a + [b], [], d2)
  {
    assert [b][1..] == [];
    assert Passes(d1, [b], [], d2);
    PassTwice(d, a, [], d1, [b], [], d2);
  }

  lemma {:induction false} SizeToExt(d: State, s: seq<byte>)
    requires Valid(d) && d.phase == InSize && d.hexCount > 0 && s != [] && !IsHex(s[0])
    ensures Valid(d.(hexCount := 0, phase := InExt))
    ensures Run(d, s) == Run(d.(hexCount := 0, phase := InExt), s)
  {
    var e := d.(hexCount := 0, phase := InExt);
    assert Step(d, s[0]) == Step(e, s[0]);
  }

  /** Size digits and extension of a size line, up to the point where LF, or the end of input, is looked at. */
  lemma {:induction false} RunSizeAndExt(t: bool, size: seq<byte>, ext: seq<byte>, value: nat, rest: seq<byte>)
    requires SizeOk(size, value) && ExtOk(ext)
    requires ext + rest != [] && !IsHex((ext + rest)[0])
    ensures Valid(State(value, t, 0, InExt))
    ensures Run(Fresh(t), size + (ext + rest)) == Prepend([], |size| + |ext|, Run(State(value, t, 0, InExt), rest))
  {
    var d, e := State(value, t, |size|, InSize), State(value, t, 0, InExt);
    PassDigits(Fresh(t), size);
    PassThen(Fresh(t), size, [], d, ext + rest);
    SizeToExt(d, ext + rest);
    PassStill(e, ext);
    PassThen(e, ext, [], e, rest);
  }

  /** The state after a size line: data, trailer, or the end of the body. */
  lemma {:induction false} RunSizeLine(t: bool, size: seq<byte>, ext: seq<byte>, value: nat, rest: seq<byte>)
    requires SizeOk(size, value) && ExtOk(ext)
    ensures value < SIZE_MAX_EXCL
    ensures var n := |SizeLine(size, ext)|;
      Run(Fresh(t), SizeLine(size, ext) + rest) ==
      if value > 0 then Prepend([], n, Run(State(value, t, 0, InData), rest))
      else if t then Prepend([], n, Run(State(0, t, 0, InTrailerHead), rest))
      else Outcome(State(0, t, 0, InExt), [], n, Complete)
  {
    var tail := [LF] + rest;
    assert SizeLine(size, ext) + rest == size + (ext + tail);
    assert tail[1..] == rest;
    assert (ext + tail)[0] == if ext == [] then LF else ext[0];
    RunSizeAndExt(t, size, ext, value, tail);
  }

  /** The line end after a chunk's data. */
  lemma {:induction false} RunCrlf(t: bool, crs: nat, rest: seq<byte>)
    ensures Run(State(0, t, 0, InCrlf), Repeat(CR, crs) + [LF] + rest) == Prepend([], crs + 1, Run(Fresh(t), rest))
  {
    var d := State(0, t, 0, InCrlf);
    PassStill(d, Repeat(CR, crs));
    PassLast(d, Repeat(CR, crs), d, LF, Fresh(t));
    PassThen(d, Repeat(CR, crs) + [LF], [], Fresh(t), rest);
  }

  lemma {:induction false} RunChunk(t: bool, c: Chunk, rest: seq<byte>)
    requires ChunkOk(c)
    ensures Run(Fresh(t), ChunkText(c) + rest) == Prepend(c.data, |ChunkText(c)|, Run(Fresh(t), rest))
  {
    var end := Repeat(CR, c.crs) + [LF] + rest;
    var afterLine := c.data + end;
    var line := SizeLine(c.size, c.ext);
    assert ChunkText(c) + rest == line + afterLine;
    RunSizeLine(t, c.size, c.ext, |c.data|, afterLine);
    var d := State(|c.data|, t, 0, InData);
    RunData(d, afterLine, |c.data|);
    assert afterLine[..|c.data|] == c.data && afterLine[|c.data|..] == end;
    RunCrlf(t, c.crs, rest);
    PrependPrepend(c.data, |c.data|, [], c.crs + 1, Run(Fresh(t), rest));
    PrependPrepend([], |line|, c.data + [], |c.data| + (c.crs + 1), Run(Fresh(t), rest));
    assert [] + (c.data + []) == c.data;
  }

  lemma {:induction false} RunChunks(t: bool, cs: seq<Chunk>, rest: seq<byte>)
    requires forall i :: 0 <= i < |cs| ==> ChunkOk(cs[i])
    ensures Run(Fresh(t), ChunksText(cs) + rest) == Prepend(Data(cs), |ChunksText(cs)|, Run(Fresh(t), rest))
    decreases |cs|
  {
    if cs == [] {
      assert [] + rest == rest;
    } else {
      assert ChunksText(cs) + rest == ChunkText(cs[0]) + (ChunksText(cs[1..]) + rest);
      RunChunk(t, cs[0], ChunksText(cs[1..]) + rest);
      RunChunks(t, cs[1..], rest);
      PrependPrepend(cs[0].data, |ChunkText(cs[0])|, Data(cs[1..]), |ChunksText(cs[1..])|, Run(Fresh(t), rest));
    }
  }

  lemma {:induction false} RunTrailerLine(t: bool, l: TrailerLine, rest: seq<byte>)
    requires TrailerLineOk(l)
    ensures var d := State(0, t, 0, InTrailerHead);
      Run(d, TrailerLineText(l) + rest) == Prepend([], |TrailerLineText(l)|, Run(d, rest))
  {
    var d, m := State(0, t, 0, InTrailerHead), State(0, t, 0, InTrailerMiddle);
    PassStill(d, Repeat(CR, l.crs));
    PassLast(d, Repeat(CR, l.crs), d, l.head, m);
    PassStill(m, l.rest);
    PassLast(m, l.rest, m, LF, d);
    PassTwice(d, Repeat(CR, l.crs) + [l.head], [], m, l.rest + [LF], [], d);
    var text := Repeat(CR, l.crs) + [l.head] + (l.rest + [LF]);
    assert TrailerLineText(l) == text;
    PassThen(d, text, [], d, rest);
  }

  lemma {:induction false} RunTrailer(t: bool, ls: seq<TrailerLine>, endCrs: nat, rest: seq<byte>)
    requires forall i :: 0 <= i < |ls| ==> TrailerLineOk(ls[i])
    ensures var d := State(0, t, 0, InTrailerHead);
      Run(d, TrailerText(ls, endCrs) + rest) == Outcome(d, [], |TrailerText(ls, endCrs)|, Complete)
    decreases |ls|
  {
    var d := State(0, t, 0, InTrailerHead);
    if ls == [] {
      assert TrailerText(ls, endCrs) + rest == Repeat(CR, endCrs) + ([LF] + rest);
      PassStill(d, Repeat(CR, endCrs));
      PassThen(d, Repeat(CR, endCrs), [], d, [LF] + rest);
    } else {
      assert TrailerText(ls, endCrs) + rest == TrailerLineText(ls[0]) + (TrailerText(ls[1..], endCrs) + rest);
      RunTrailerLine(t, ls[0], TrailerText(ls[1..], endCrs) + rest);
      RunTrailer(t, ls[1..], endCrs, rest);
    }
  }

  /** Round trip: any encoding decodes to the concatenation of its chunks, and stops right behind the body. */
  lemma {:induction false} DecodesEveryBody(m: Body, t: bool, rest: seq<byte>)
    requires BodyOk(m)
    ensures var r := Run(Fresh(t), Text(m, t) + rest);
      r.verdict == Complete && r.payload == Data(m.chunks) && r.consumed == |Text(m, t)|
  {
    hide Run, Step, SizeLine, ChunksText, TrailerText, SizeOk, ExtOk, ChunkOk, TrailerLineOk;
    var line := SizeLine(m.lastSize, m.lastExt);
    var tail := if t then TrailerText(m.trailer, m.endCrs) else [];
    assert Text(m, t) + rest == ChunksText(m.chunks) + (line + (tail + rest));
    RunChunks(t, m.chunks, line + (tail + rest));
    RunSizeLine(t, m.lastSize, m.lastExt, 0, tail + rest);
    if t {
      RunTrailer(t, m.trailer, m.endCrs, rest);
    }
    assert Data(m.chunks) + [] == Data(m.chunks);
  }

  // ---------------------------------------------------------------- from a completed run back to the syntax

  lemma {:induction false} SeventeenthDigit(d: State, s: seq<byte>)
    requires Valid(d) && d.phase == InSize && d.hexCount == MAX_HEX_DIGITS && s != [] && IsHex(s[0])
    ensures Run(d, s).verdict == Error
  {
  }

  /** A run that completes does not start with more digits than a size may have. */
  lemma {:induction false} DigitsOf(t: bool, s: seq<byte>, n: nat)
    requires Run(Fresh(t), s).verdict == Complete && n <= |s|
    requires forall i :: 0 <= i < n ==> IsHex(s[i])
    ensures n <= MAX_HEX_DIGITS && Valid(State(HexFold(0, s[..n]), t, n, InSize))
    ensures Run(State(HexFold(0, s[..n]), t, n, InSize), s[n..]).verdict == Complete
  {
    hide Run, Step, HexFold;
    var k := if n <= MAX_HEX_DIGITS then n else MAX_HEX_DIGITS;
    var d := State(HexFold(0, s[..k]), t, k, InSize);
    PassDigits(Fresh(t), s[..k]);
    assert s == s[..k] + s[k..];
    PassThen(Fresh(t), s[..k], [], d, s[k..]);
    if k < n {
      SeventeenthDigit(d, s[k..]);
    }
  }

  /** Where the digits end, a run that completes has seen one and goes on as in an extension. */
  lemma {:induction false} SizeNotEmpty(d: State, s: seq<byte>)
    requires Valid(d) && d.phase == InSize && Run(d, s).verdict == Complete && (s != [] ==> !IsHex(s[0]))
    ensures s != [] && d.hexCount > 0 && Run(d.(hexCount := 0, phase := InExt), s).verdict == Complete
  {
    if s != [] && d.hexCount > 0 {
      SizeToExt(d, s);
    }
  }

  lemma {:induction false} ExtOf(e: State, s: seq<byte>) returns (ext: seq<byte>, rest: seq<byte>)
    requires Valid(e) && e.phase == InExt && Run(e, s).verdict == Complete
    ensures LF !in ext && s == ext + ([LF] + rest)
  {
    var k := Scan(s, 0, (b: byte) => b == LF);
    hide Run;
    ext := s[..k];
    PassStill(e, ext);
    assert s == ext + s[k..];
    PassThen(e, ext, [], e, s[k..]);
    MoreToCome(e, s[k..]);
    rest := s[k + 1..];
  }

  /** A run that completes starts with a size line. */
  lemma {:induction false} SizeLineOf(t: bool, s: seq<byte>) returns (size: seq<byte>, ext: seq<byte>, rest: seq<byte>)
    requires Run(Fresh(t), s).verdict == Complete
    ensures (forall i :: 0 <= i < |size| ==> IsHex(size[i])) && SizeOk(size, HexFold(0, size)) && ExtOk(ext)
    ensures s == SizeLine(size, ext) + rest
  {
    hide Run, Step;
    var n := Scan(s, 0, (b: byte) => !IsHex(b));
    size := s[..n];
    DigitsOf(t, s, n);
    SizeNotEmpty(State(HexFold(0, size), t, n, InSize), s[n..]);
    ext, rest := ExtOf(State(HexFold(0, size), t, 0, InExt), s[n..]);
    assert s == size + (ext + ([LF] + rest));
  }

  lemma {:induction false} LfAfterCrs(t: bool, s: seq<byte>)
    requires Run(State(0, t, 0, InCrlf), s).verdict == Complete && (s != [] ==> s[0] != CR)
    ensures s != [] && s[0] == LF
  {
  }

  /** After a chunk's data, a run that completes goes on with CRs and LF. */
  lemma {:induction false} CrlfOf(t: bool, s: seq<byte>) returns (crs: nat, rest: seq<byte>)
    requires Run(State(0, t, 0, InCrlf), s).verdict == Complete
    ensures s == Repeat(CR, crs) + [LF] + rest
  {
    hide Run;
    var d := State(0, t, 0, InCrlf);
    crs := Scan(s, 0, (b: byte) => b != CR);
    PassStill(d, s[..crs]);
    assert s == s[..crs] + s[crs..];
    PassThen(d, s[..crs], [], d, s[crs..]);
    LfAfterCrs(t, s[crs..]);
    rest := s[crs + 1..];
    assert s[..crs] == Repeat(CR, crs);
  }

  /** Inside a chunk, a run that completes finds all of the chunk's data. */
  lemma {:induction false} DataOf(t: bool, n: nat, s: seq<byte>)
    requires 0 < n < SIZE_MAX_EXCL && Run(State(n, t, 0, InData), s).verdict == Complete
    ensures n <= |s| && Run(State(0, t, 0, InCrlf), s[n..]).verdict == Complete
  {
    RunData(State(n, t, 0, InData), s, if n <= |s| then n else |s|);
  }

  /** One whole chunk off the front of a run that completes. */
  lemma {:induction false} ChunkOf(t: bool, size: seq<byte>, ext: seq<byte>, rest: seq<byte>)
      returns (c: Chunk, rest': seq<byte>)
    requires (forall i :: 0 <= i < |size| ==> IsHex(size[i])) && SizeOk(size, HexFold(0, size)) && ExtOk(ext)
    requires HexFold(0, size) > 0
    requires Run(Fresh(t), SizeLine(size, ext) + rest).verdict == Complete
    ensures ChunkOk(c) && SizeLine(size, ext) + rest == ChunkText(c) + rest' && ChunkText(c) != []
  {
    var n := HexFold(0, size);
    RunSizeLine(t, size, ext, n, rest);
    DataOf(t, n, rest);
    var crs;
    crs, rest' := CrlfOf(t, rest[n..]);
    c := Chunk(size, ext, rest[..n], crs);
    var end := Repeat(CR, crs) + [LF];
    assert rest == rest[..n] + (end + rest') == (rest[..n] + end) + rest';
    assert SizeLine(size, ext) + ((rest[..n] + end) + rest') == (SizeLine(size, ext) + (rest[..n] + end)) + rest';
  }

  lemma {:induction false} TrailerLineStarts(t: bool, s: seq<byte>)
    requires s != [] && s[0] != CR && s[0] != LF && Run(State(0, t, 0, InTrailerHead), s).verdict == Complete
    ensures Run(State(0, t, 0, InTrailerMiddle), s[1..]).verdict == Complete
  {
  }

  lemma {:induction false} MoreToCome(d: State, s: seq<byte>)
    requires Valid(d) && Run(d, s).verdict == Complete
    ensures s != []
  {
  }

  /** Leading CRs do not change what happens at the head of a trailer line. */
  lemma {:induction false} TrailerHeadOf(t: bool, s: seq<byte>) returns (crs: nat)
    requires Run(State(0, t, 0, InTrailerHead), s).verdict == Complete
    ensures crs < |s| && s[..crs] == Repeat(CR, crs) && s[crs] != CR
    ensures Run(State(0, t, 0, InTrailerHead), s[crs..]).verdict == Complete
  {
    hide Run;
    var d := State(0, t, 0, InTrailerHead);
    crs := Scan(s, 0, (b: byte) => b != CR);
    PassStill(d, s[..crs]);
    assert s == s[..crs] + s[crs..];
    PassThen(d, s[..crs], [], d, s[crs..]);
    MoreToCome(d, s[crs..]);
  }

  lemma {:induction false} PassTrailerText(t: bool, line: seq<byte>)
    requires LF !in line
    ensures Passes(State(0, t, 0, InTrailerMiddle), line, [], State(0, t, 0, InTrailerMiddle))
  {
    PassStill(State(0, t, 0, InTrailerMiddle), line);
  }

  lemma {:induction false} TrailerMiddleOf(t: bool, s: seq<byte>) returns (line: seq<byte>, rest: seq<byte>)
    requires Run(State(0, t, 0, InTrailerMiddle), s).verdict == Complete
    ensures LF !in line && s == line + ([LF] + rest)
  {
    var m := State(0, t, 0, InTrailerMiddle);
    var k := Scan(s, 0, (b: byte) => b == LF);
    hide Run, Step;
    line := s[..k];
    PassTrailerText(t, line);
    assert s == line + s[k..];
    PassThen(m, line, [], m, s[k..]);
    MoreToCome(m, s[k..]);
    rest := s[k + 1..];
  }

  lemma {:induction false} TrailerOf(t: bool, s: seq<byte>) returns (ls: seq<TrailerLine>, endCrs: nat)
    requires Run(State(0, t, 0, InTrailerHead), s).verdict == Complete
    ensures forall i :: 0 <= i < |ls| ==> TrailerLineOk(ls[i])
    ensures TrailerText(ls, endCrs) <= s
    decreases |s|
  {
    hide Run, Step;
    var crs := TrailerHeadOf(t, s);
    if s[crs] == LF {
      ls, endCrs := [], crs;
      assert TrailerText(ls, endCrs) == s[..crs + 1];
    } else {
      TrailerLineStarts(t, s[crs..]);
      var line, rest := TrailerMiddleOf(t, s[crs..][1..]);
      var l := TrailerLine(crs, s[crs], line);
      assert s == s[..crs] + ([s[crs]] + s[crs..][1..]);
      assert s == TrailerLineText(l) + rest;
      RunTrailerLine(t, l, rest);
      var ls', e := TrailerOf(t, rest);
      ls, endCrs := [l] + ls', e;
      assert TrailerText(ls, endCrs) == TrailerLineText(l) + TrailerText(ls', e);
    }
  }

  /** Every completed run has consumed the text of some well-formed body. */
  lemma {:induction false} BodyOf(t: bool, s: seq<byte>) returns (m: Body)
    requires Run(Fresh(t), s).verdict == Complete
    ensures BodyOk(m) && Text(m, t) <= s
    decreases |s|
  {
    hide Run, Step, SizeLine, ChunkText, TrailerText, SizeOk, ExtOk, ChunkOk;
    var size, ext, rest := SizeLineOf(t, s);
    if HexFold(0, size) == 0 {
      RunSizeLine(t, size, ext, 0, rest);
      m := Body([], size, ext, [], 0);
      if t {
        var ls, e := TrailerOf(t, rest);
        m := Body([], size, ext, ls, e);
      }
    } else {
      var c, rest' := ChunkOf(t, size, ext, rest);
      RunChunk(t, c, rest');
      var m' := BodyOf(t, rest');
      m := m'.(chunks := [c] + m'.chunks);
      assert Text(m, t) == ChunkText(c) + Text(m', t);
    }
  }

  /** `m` is a well-formed body whose text is the first `n` bytes and whose data is `payload`. */
  ghost predicate Encodes(m: Body, t: bool, s: seq<byte>, n: nat, payload: seq<byte>) {
    BodyOk(m) && n <= |s| && Text(m, t) == s[..n] && Data(m.chunks) == payload
  }

  /** Soundness and completeness: a fresh decoder completes exactly on the texts of well-formed bodies. */
  lemma {:induction false} CompletesExactlyOnBodies(t: bool, s: seq<byte>, n: nat, payload: seq<byte>)
    ensures (exists m :: Encodes(m, t, s, n, payload)) <==>
            (var r := Run(Fresh(t), s); r.verdict == Complete && r.consumed == n && r.payload == payload)
  {
    hide Run, BodyOk, Text, Data;
    var r := Run(Fresh(t), s);
    if r.verdict == Complete {
      var m := BodyOf(t, s);
      assert s == Text(m, t) + s[|Text(m, t)|..];
      DecodesEveryBody(m, t, s[|Text(m, t)|..]);
      assert Encodes(m, t, s, r.consumed, r.payload);
    }
    forall m | Encodes(m, t, s, n, payload)
      ensures r.verdict == Complete && r.consumed == n && r.payload == payload
    {
      assert s == Text(m, t) + s[n..];
      DecodesEveryBody(m, t, s[n..]);
    }
  }

  // ---------------------------------------------------------------- what -2 means

  lemma {:induction false} ByteThen(d: State, b: byte, d1: State, out: seq<byte>, x: seq<byte>)
    requires Valid(d) && Step(d, b) == Next(d1, out) && Run(d1, x).verdict == Complete
    ensures Run(d, [b] + x).verdict == Complete
  {
    assert ([b] + x)[1..] == x;
  }

  lemma {:induction false} LfFinishes(d: State)
    requires Valid(d) && Step(d, LF).Finish?
    ensures Run(d, [LF]).verdict == Complete
  {
  }

  /** The shortest body: `0`, LF and, if a trailer is wanted, another LF. */
  lemma {:induction false} FinishFresh(t: bool) returns (x: seq<byte>)
    ensures Run(Fresh(t), x).verdict == Complete
  {
    var m := Body([], [48], [], [], 0);
    x := Text(m, t) + [];
    assert HexFold(0, [48]) == 0 by { assert [48][1..] == []; }
    DecodesEveryBody(m, t, []);
  }

  lemma {:induction false} FinishCrlf(t: bool) returns (x: seq<byte>)
    ensures Run(State(0, t, 0, InCrlf), x).verdict == Complete
  {
    x := FinishFresh(t);
    ByteThen(State(0, t, 0, InCrlf), LF, Fresh(t), [], x);
    x := [LF] + x;
  }

  lemma {:induction false} FinishData(d: State) returns (x: seq<byte>)
    requires Valid(d) && d.phase == InData
    ensures Run(d, x).verdict == Complete
  {
    hide Run;
    var rest := FinishCrlf(d.consumeTrailer);
    x := Repeat(NUL, d.left) + rest;
    assert x[d.left..] == rest;
    RunData(d, x, d.left);
  }

  /** A size line that has begun, ended by LF. */
  lemma {:induction false} FinishSizeLine(d: State) returns (x: seq<byte>)
    requires Valid(d) && (d.phase == InExt || (d.phase == InSize && d.hexCount > 0))
    ensures Run(d, x).verdict == Complete
  {
    hide Run;
    if d.left == 0 && !d.consumeTrailer {
      LfFinishes(d);
      x := [LF];
    } else {
      var d1 := Step(d, LF).state;
      if d.left == 0 {
        LfFinishes(d1);
        x := [LF];
      } else {
        x := FinishData(d1);
      }
      ByteThen(d, LF, d1, [], x);
      x := [LF] + x;
    }
  }

  /** From every state between two calls some input completes the body. */
  lemma {:induction false} Finishes(d: State) returns (x: seq<byte>)
    requires Valid(d)
    ensures Run(d, x).verdict == Complete
  {
    hide Run;
    match d.phase
    case InSize =>
      if d.hexCount == 0 {
        assert d == Fresh(d.consumeTrailer);
        x := FinishFresh(d.consumeTrailer);
      } else {
        x := FinishSizeLine(d);
      }
    case InExt => x := FinishSizeLine(d);
    case InData => x := FinishData(d);
    case InCrlf => x := FinishCrlf(d.consumeTrailer);
    case InTrailerHead =>
      LfFinishes(d);
      x := [LF];
    case InTrailerMiddle =>
      var d1 := Step(d, LF).state;
      LfFinishes(d1);
      ByteThen(d, LF, d1, [], [LF]);
      x := [LF] + [LF];
  }

  /** Some continuation completes the body exactly when the input so far is not refused: -1 is final, -2 never idle. */
  lemma {:induction false} CompletableExactly(d: State, s: seq<byte>)
    requires Valid(d)
    ensures (exists x: seq<byte> :: Run(d, s + x).verdict == Complete) <==> Run(d, s).verdict != Error
  {
    hide Run;
    var r := Run(d, s);
    if r.verdict == Incomplete {
      var x := Finishes(r.state);
      RunSplit(d, s, x);
      assert Run(d, s + x).verdict == Complete;
    } else {
      forall x: seq<byte>
        ensures Run(d, s + x) == r
      {
        RunSplit(d, s, x);
      }
      assert Run(d, s + []) == r;
    }
  }
}
