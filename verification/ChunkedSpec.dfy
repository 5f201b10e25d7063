/**
 * A byte-at-a-time reading of the chunked transfer coding: the reference the in-place
 * decoder is proved against. Section 4.1 of RFC 7230, in the lax form the decoder accepts.
 */
module ChunkedSpec {
  import opened Bytes

  const SIZE_MAX_EXCL: nat := 0x1_0000_0000_0000_0000
  const MAX_HEX_DIGITS: nat := 16

  datatype Phase = InSize | InExt | InData | InCrlf | InTrailerHead | InTrailerMiddle

  /** The decoder's resumable state (`struct phr_chunked_decoder`). */
  datatype State = State(left: nat, consumeTrailer: bool, hexCount: nat, phase: Phase)

  datatype Verdict = Incomplete | Complete | Error

  /** What a piece of input does: the state left behind, the payload, the bytes consumed and the verdict. */
  datatype Outcome = Outcome(state: State, payload: seq<byte>, consumed: nat, verdict: Verdict)

  datatype StepResult = Next(state: State, out: seq<byte>) | Finish(state: State) | Bad(state: State)

  function Pow16(n: nat): (r: nat)
    ensures r > 0
  {
    if n == 0 then 1 else 16 * Pow16(n - 1)
  }

  /** The states a decoder that was zero-filled at the start can be in between two calls. */
  predicate Valid(d: State) {
    && d.left < SIZE_MAX_EXCL
    && match d.phase
       case InSize => d.hexCount <= MAX_HEX_DIGITS && d.left < Pow16(d.hexCount)
       case InExt => d.hexCount == 0
       case InData => d.hexCount == 0 && d.left > 0
       case _ => d.hexCount == 0 && d.left == 0
  }

  function Fresh(consumeTrailer: bool): (d: State)
    ensures Valid(d)
  {
    State(0, consumeTrailer, 0, InSize)
  }

  /** The value of a hexadecimal digit, -1 for any other byte. */
  function DecodeHex(ch: byte): (v: int)
    ensures -1 <= v < 16
  {
    if 48 <= ch <= 57 then ch - 48
    else if 65 <= ch <= 70 then ch - 65 + 10
    else if 97 <= ch <= 102 then ch - 97 + 10
    else -1
  }

  /** The byte has value `d` exactly if it is the digit `d` in either case. */
  lemma {:induction false} HexDigitsExactly(ch: byte, d: nat)
    requires d < 16
    ensures DecodeHex(ch) == d <==> ch == "0123456789abcdef"[d] as int || ch == "0123456789ABCDEF"[d] as int
  {
    HexDigits(d);
  }

  lemma {:induction false} HexDigits(d: nat)
    requires d < 16
    ensures "0123456789abcdef"[d] as int == if d < 10 then 48 + d else 87 + d
    ensures "0123456789ABCDEF"[d] as int == if d < 10 then 48 + d else 55 + d
  {
    assert d == 0 || d == 1 || d == 2 || d == 3 || d == 4 || d == 5 || d == 6 || d == 7 || d == 8 || d == 9 || d >= 10;
  }

  predicate IsHex(ch: byte) { DecodeHex(ch) >= 0 }

  /** What a byte does after the size digits have ended: the chunk extension runs up to LF. */
  function StepExt(d: State, b: byte): StepResult {
    if b != LF then Next(d, [])
    else if d.left != 0 then Next(d.(phase := InData), [])
    else if d.consumeTrailer then Next(d.(phase := InTrailerHead), [])
    else Finish(d)
  }

  function Step(d: State, b: byte): (r: StepResult)
    requires Valid(d)
    ensures Valid(r.state)
    ensures r.state.consumeTrailer == d.consumeTrailer
  {
    match d.phase
    case InSize =>
      var v := DecodeHex(b);
      if v >= 0 then
        if d.hexCount == MAX_HEX_DIGITS then Bad(d)
        else
          SixteenDigitsFit(d, v);
          Next(d.(left := d.left * 16 + v, hexCount := d.hexCount + 1), [])
      else if d.hexCount == 0 then Bad(d)
      else StepExt(d.(hexCount := 0, phase := InExt), b)
    case InExt => StepExt(d, b)
    case InData =>
      Next(if d.left == 1 then d.(left := 0, phase := InCrlf) else d.(left := d.left - 1), [b])
    case InCrlf =>
      if b == CR then Next(d, []) else if b == LF then Next(d.(phase := InSize), []) else Bad(d)
    case InTrailerHead =>
      if b == CR then Next(d, []) else if b == LF then Finish(d) else Next(d.(phase := InTrailerMiddle), [])
    case InTrailerMiddle =>
      if b == LF then Next(d.(phase := InTrailerHead), []) else Next(d, [])
  }

  /** The hexadecimal size never overflows: it stays below 16 to the number of digits read. */
  lemma {:induction false} SixteenDigitsFit(d: State, v: nat)
    requires Valid(d) && d.phase == InSize && d.hexCount < MAX_HEX_DIGITS && v < 16
    ensures d.left * 16 + v < Pow16(d.hexCount + 1) <= SIZE_MAX_EXCL
  {
    Pow16Monotone(d.hexCount + 1, MAX_HEX_DIGITS);
    assert Pow16(4) == 0x1_0000;
    assert Pow16(8) == 0x1_0000_0000;
    assert Pow16(12) == 0x1_0000_0000_0000;
    assert Pow16(16) == SIZE_MAX_EXCL;
  }

  lemma Pow16Monotone(a: nat, b: nat)
    requires a <= b
    ensures Pow16(a) <= Pow16(b)
  {
  }

  function Prepend(out: seq<byte>, n: nat, r: Outcome): Outcome {
    r.(payload := out + r.payload, consumed := n + r.consumed)
  }

  /** Feeds `s` byte by byte. An offending byte is not consumed; the byte that completes the body is. */
  function Run(d: State, s: seq<byte>): (r: Outcome)
    requires Valid(d)
    ensures Valid(r.state)
    ensures r.consumed <= |s|
    ensures r.verdict == Incomplete ==> r.consumed == |s|
    ensures |r.payload| <= r.consumed
    ensures r.state.consumeTrailer == d.consumeTrailer
    decreases |s|
  {
    if s == [] then Outcome(d, [], 0, Incomplete)
    else match Step(d, s[0])
      case Next(d1, out) => Prepend(out, 1, Run(d1, s[1..]))
      case Finish(d1) => Outcome(d1, [], 1, Complete)
      case Bad(d1) => Outcome(d1, [], 0, Error)
  }

  /** Feeds the pieces one call at a time, stopping at the first call that does not ask for more. */
  function RunPieces(d: State, pieces: seq<seq<byte>>): (r: Outcome)
    requires Valid(d)
    ensures Valid(r.state)
    decreases |pieces|
  {
    if pieces == [] then Outcome(d, [], 0, Incomplete)
    else
      var r := Run(d, pieces[0]);
      if r.verdict != Incomplete then r
      else Prepend(r.payload, r.consumed, RunPieces(r.state, pieces[1..]))
  }

  /** Cutting once: the second piece carries on exactly where the first one stopped. */
  lemma {:induction false} RunSplit(d: State, a: seq<byte>, b: seq<byte>)
    requires Valid(d)
    ensures var r := Run(d, a);
      Run(d, a + b) == if r.verdict != Incomplete then r else Prepend(r.payload, r.consumed, Run(r.state, b))
    decreases |a|
  {
    if a == [] {
      assert a + b == b;
    } else {
      assert (a + b)[1..] == a[1..] + b;
      match Step(d, a[0])
      case Next(d1, out) =>
        RunSplit(d1, a[1..], b);
        var r := Run(d1, a[1..]);
        if r.verdict == Incomplete {
          assert out + (r.payload + Run(r.state, b).payload) == (out + r.payload) + Run(r.state, b).payload;
        }
      case Finish(_) =>
      case Bad(_) =>
    }
  }

  /** Split invariance: any cutting of the input gives the state, payload, verdict and position of one call. */
  lemma {:induction false} SplitInvariance(d: State, pieces: seq<seq<byte>>)
    requires Valid(d)
    ensures RunPieces(d, pieces) == Run(d, Flatten(pieces))
    decreases |pieces|
  {
    if pieces != [] {
      RunSplit(d, pieces[0], Flatten(pieces[1..]));
      var r := Run(d, pieces[0]);
      if r.verdict == Incomplete {
        SplitInvariance(r.state, pieces[1..]);
      }
    }
  }

  /** If a piece completes with r bytes left, the uncut input completes with r plus the length of the rest. */
  lemma {:induction false} BytesLeftAfterCompletion(d: State, a: seq<byte>, b: seq<byte>)
    requires Valid(d) && Run(d, a).verdict == Complete
    ensures Run(d, a + b).verdict == Complete
    ensures |a + b| - Run(d, a + b).consumed == (|a| - Run(d, a).consumed) + |b|
    ensures Run(d, a + b).payload == Run(d, a).payload
  {
    RunSplit(d, a, b);
  }

  lemma {:induction false} PrependPrepend(a: seq<byte>, m: nat, b: seq<byte>, n: nat, r: Outcome)
    ensures Prepend(a, m, Prepend(b, n, r)) == Prepend(a + b, m + n, r)
  {
    assert a + (b + r.payload) == (a + b) + r.payload;
  }

  /** The state after `n` of the bytes left in a chunk. */
  function AfterData(d: State, n: nat): (d': State)
    requires Valid(d) && d.phase == InData && n <= d.left
    ensures Valid(d')
  {
    if n == d.left then d.(left := 0, phase := InCrlf) else d.(left := d.left - n)
  }

  lemma {:induction false} RunDataByte(d: State, s: seq<byte>)
    requires Valid(d) && d.phase == InData && s != []
    ensures Run(d, s) == Prepend([s[0]], 1, Run(AfterData(d, 1), s[1..]))
  {
  }

  /** A run of data bytes inside one chunk comes out unchanged, however long it is. */
  lemma {:induction false} RunData(d: State, s: seq<byte>, n: nat)
    requires Valid(d) && d.phase == InData && n <= |s| && n <= d.left
    ensures Run(d, s) == Prepend(s[..n], n, Run(AfterData(d, n), s[n..]))
    decreases n
  {
    hide Run, Step;
    if n == 0 {
      assert s[0..] == s;
      assert s[..0] == [];
    } else {
      var d1 := AfterData(d, 1);
      RunDataByte(d, s);
      if d.left == 1 {
        assert s[..n] == [s[0]];
      } else {
        RunData(d1, s[1..], n - 1);
        PrependPrepend([s[0]], 1, s[1..][..n - 1], n - 1, Run(AfterData(d, n), s[n..]));
        assert s[1..][n - 1..] == s[n..];
        assert s[..n] == [s[0]] + s[1..][..n - 1];
      }
    }
  }
}
