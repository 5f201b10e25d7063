/** The resumable in-place decoder of the chunked transfer coding. */
module ChunkedDecoder {
  import opened Bytes
  import opened ChunkedSpec

  /** `memmove` within one buffer: every byte is read before any byte is written. */
  method MoveBytes(buf: array<byte>, to: nat, from: nat, n: nat)
    requires to + n <= buf.Length && from + n <= buf.Length
    modifies buf
    ensures buf[to..to + n] == old(buf[from..from + n])
    ensures forall i :: 0 <= i < to || to + n <= i < buf.Length ==> buf[i] == old(buf[i])
  {
    forall i | 0 <= i < n {
      buf[to + i] := buf[from + i];
    }
  }

  /** Whether the decoder's loop goes on, or leaves with a verdict. */
  datatype Control = Go | Exit(verdict: Verdict)

  /** What is still to come: the run on the unread tail, or nothing more. */
  ghost function Rest(c: Control, d: State, tail: seq<byte>): Outcome
    requires ChunkedSpec.Valid(d)
  {
    match c
    case Go => Run(d, tail)
    case Exit(v) => Outcome(d, [], 0, v)
  }

  /** The bytes of the buffer from `src` on are still the original ones. */
  ghost predicate Unread(buf: array<byte>, bufsz: nat, src: nat, s: seq<byte>)
    requires bufsz <= buf.Length
    reads buf
  {
    |s| == bufsz && forall k :: src <= k < bufsz ==> buf[k] == s[k]
  }

  /** From position `i` in state `d0` the run emits `out`, stands at `j` in state `d`, and goes on as `c` says. */
  ghost predicate Reaches(s: seq<byte>, d0: State, i: nat, out: seq<byte>, d: State, j: nat, c: Control) {
    && ChunkedSpec.Valid(d0) && ChunkedSpec.Valid(d) && i <= j <= |s|
    && Run(d0, s[i..]) == Prepend(out, j - i, Rest(c, d, s[j..]))
  }

  lemma {:induction false} ReachesSelf(s: seq<byte>, d: State, i: nat)
    requires ChunkedSpec.Valid(d) && i <= |s|
    ensures Reaches(s, d, i, [], d, i, Go)
  {
  }

  lemma {:induction false} ReachesThen(s: seq<byte>, d0: State, i: nat, out1: seq<byte>, d1: State, j: nat,
                    out2: seq<byte>, d2: State, k: nat, c: Control)
    requires Reaches(s, d0, i, out1, d1, j, Go) && Reaches(s, d1, j, out2, d2, k, c)
    ensures Reaches(s, d0, i, out1 + out2, d2, k, c)
  {
    PrependPrepend(out1, j - i, out2, k - j, Rest(c, d2, s[k..]));
  }

  /** One more framing byte, consumed or refused as the step says; the end of the input asks for more. */
  lemma {:induction false} ReachesStep(s: seq<byte>, d0: State, i: nat, d: State, j: nat)
    requires Reaches(s, d0, i, [], d, j, Go)
    ensures j == |s| ==> Reaches(s, d0, i, [], d, j, Exit(Incomplete))
    ensures j < |s| ==>
      match Step(d, s[j])
      case Next(d1, out) => out == [] ==> Reaches(s, d0, i, [], d1, j + 1, Go)
      case Finish(d1) => Reaches(s, d0, i, [], d1, j + 1, Exit(Complete))
      case Bad(d1) => Reaches(s, d0, i, [], d1, j, Exit(Error))
  {
    if j < |s| {
      assert s[j..][1..] == s[j + 1..];
    }
  }

  /** The byte that ends the size digits is looked at again as the first byte of the extension. */
  lemma {:induction false} ReachesSizeEnd(s: seq<byte>, d0: State, i: nat, d: State, j: nat)
    requires Reaches(s, d0, i, [], d, j, Go) && j < |s|
    requires d.phase == InSize && d.hexCount > 0 && !IsHex(s[j])
    ensures Reaches(s, d0, i, [], d.(hexCount := 0, phase := InExt), j, Go)
  {
    var d1 := d.(hexCount := 0, phase := InExt);
    assert Step(d, s[j]) == Step(d1, s[j]);
    assert Run(d, s[j..]) == Run(d1, s[j..]);
  }

  lemma {:induction false} ReachesData(s: seq<byte>, d: State, i: nat, n: nat)
    requires ChunkedSpec.Valid(d) && d.phase == InData && i + n <= |s| && n <= d.left
    ensures Reaches(s, d, i, s[i..i + n], AfterData(d, n), i + n, Go)
    ensures i + n == |s| ==> Reaches(s, d, i, s[i..i + n], AfterData(d, n), i + n, Exit(Incomplete))
  {
    RunData(d, s[i..], n);
    assert s[i..][..n] == s[i..i + n];
    assert s[i..][n..] == s[i + n..];
  }

  /** What `Decode` promises, said of the run it has reached. */
  lemma {:induction false} ReachesEnd(s: seq<byte>, d0: State, out: seq<byte>, d: State, j: nat, v: Verdict)
    requires Reaches(s, d0, 0, out, d, j, Exit(v))
    ensures Run(d0, s) == Outcome(d, out, j, v)
  {
    assert s[0..] == s;
    assert out + [] == out;
  }

  /** A size digit is refused after sixteen others and otherwise accumulated; wrap-around never happens. */
  lemma {:induction false} SizeDigit(d: State, b: byte)
    requires ChunkedSpec.Valid(d) && d.phase == InSize && IsHex(b)
    ensures d.hexCount == MAX_HEX_DIGITS ==> Step(d, b) == Bad(d)
    ensures d.hexCount < MAX_HEX_DIGITS ==>
      && var d1 := d.(left := (d.left * 16 + DecodeHex(b)) % SIZE_MAX_EXCL, hexCount := d.hexCount + 1);
      && ChunkedSpec.Valid(d1) && Step(d, b) == Next(d1, [])
  {
    if d.hexCount < MAX_HEX_DIGITS {
      SixteenDigitsFit(d, DecodeHex(b));
    }
  }

  lemma {:induction false} SizeEnd(d: State, b: byte)
    requires ChunkedSpec.Valid(d) && d.phase == InSize && !IsHex(b)
    ensures d.hexCount == 0 ==> Step(d, b) == Bad(d)
    ensures ChunkedSpec.Valid(d.(hexCount := 0, phase := InExt))
  {
  }

  class Decoder {
    var bytesLeftInChunk: nat
    var consumeTrailer: bool
    var hexCount: nat
    var phase: Phase

    function Value(): State
      reads this
    {
      State(bytesLeftInChunk, consumeTrailer, hexCount, phase)
    }

    ghost predicate Valid()
      reads this
    {
      ChunkedSpec.Valid(Value())
    }

    /** Zero-filled, as the header asks, apart from the caller's choice about the trailer. */
    constructor (consumeTrailer: bool)
      ensures Valid() && Value() == Fresh(consumeTrailer)
    {
      bytesLeftInChunk, hexCount, phase := 0, 0, InSize;
      this.consumeTrailer := consumeTrailer;
    }

    method IsInData() returns (b: bool)
      requires Valid()
      ensures b <==> exists x: byte, d :: Step(Value(), x) == Next(d, [x])
    {
      b := phase == InData;
      assert Step(Value(), 0) == Step(Value(), 0);
      if b {
        assert Step(Value(), 0) == Next(AfterData(Value(), 1), [0]);
      }
    }

    /** Case CHUNKED_IN_CHUNK_SIZE: accumulates hex digits until a byte that is not one. */
    method ReadSize(buf: array<byte>, bufsz: nat, start: nat, ghost s: seq<byte>) returns (src: nat, c: Control)
      requires Valid() && phase == InSize && start <= bufsz <= buf.Length && Unread(buf, bufsz, start, s)
      modifies this
      ensures Valid() && start <= src <= bufsz
      ensures c == Go ==> phase == InExt
      ensures Reaches(s, old(Value()), start, [], Value(), src, c)
    {
      hide Reaches, Run, Step, Pow16;
      src := start;
      ghost var d0 := Value();
      ReachesSelf(s, d0, start);
      while true
        invariant Valid() && phase == InSize && start <= src <= bufsz
        invariant Reaches(s, d0, start, [], Value(), src, Go)
        decreases bufsz - src
      {
        ReachesStep(s, d0, start, Value(), src);
        if src == bufsz {
          return src, Exit(Incomplete);
        }
        var v := DecodeHex(buf[src]);
        if v == -1 {
          SizeEnd(Value(), buf[src]);
          if hexCount == 0 {
            return src, Exit(Error);
          }
          break;
        }
        SizeDigit(Value(), buf[src]);
        if hexCount == MAX_HEX_DIGITS {
          return src, Exit(Error);
        }
        bytesLeftInChunk := (bytesLeftInChunk * 16 + v) % SIZE_MAX_EXCL;
        hexCount := hexCount + 1;
        src := src + 1;
      }
      ReachesSizeEnd(s, d0, start, Value(), src);
      hexCount := 0;
      phase := InExt;
      c := Go;
    }

    /** Case CHUNKED_IN_CHUNK_EXT: skips to LF, then data, trailer or the end. */
    method ReadExt(buf: array<byte>, bufsz: nat, start: nat, ghost s: seq<byte>) returns (src: nat, c: Control)
      requires Valid() && phase == InExt && start <= bufsz <= buf.Length && Unread(buf, bufsz, start, s)
      modifies this`phase
      ensures Valid() && start <= src <= bufsz
      ensures c == Go ==> start < src
      ensures Reaches(s, old(Value()), start, [], Value(), src, c)
    {
      src := start;
      ghost var d0 := Value();
      ReachesSelf(s, d0, start);
      while true
        invariant phase == InExt && start <= src <= bufsz
        invariant Reaches(s, d0, start, [], Value(), src, Go)
        decreases bufsz - src
      {
        ReachesStep(s, d0, start, Value(), src);
        if src == bufsz {
          return src, Exit(Incomplete);
        }
        if buf[src] == LF {
          break;
        }
        src := src + 1;
      }
      src := src + 1;
      if bytesLeftInChunk == 0 {
        if consumeTrailer {
          phase := InTrailerHead;
          return src, Go;
        }
        return src, Exit(Complete);
      }
      phase := InData;
      c := Go;
    }

    /** Case CHUNKED_IN_CHUNK_CRLF: any run of CRs, then LF. */
    method ReadCrlf(buf: array<byte>, bufsz: nat, start: nat, ghost s: seq<byte>) returns (src: nat, c: Control)
      requires Valid() && phase == InCrlf && start <= bufsz <= buf.Length && Unread(buf, bufsz, start, s)
      modifies this`phase
      ensures Valid() && start <= src <= bufsz
      ensures c == Go ==> start < src
      ensures Reaches(s, old(Value()), start, [], Value(), src, c)
    {
      src := start;
      ghost var d0 := Value();
      ReachesSelf(s, d0, start);
      while true
        invariant phase == InCrlf && start <= src <= bufsz
        invariant Reaches(s, d0, start, [], Value(), src, Go)
        decreases bufsz - src
      {
        ReachesStep(s, d0, start, Value(), src);
        if src == bufsz {
          return src, Exit(Incomplete);
        }
        if buf[src] != CR {
          break;
        }
        src := src + 1;
      }
      if buf[src] != LF {
        return src, Exit(Error);
      }
      src := src + 1;
      phase := InSize;
      c := Go;
    }

    /** Case CHUNKED_IN_TRAILERS_LINE_HEAD: an empty line ends the body, anything else is a trailer line. */
    method ReadTrailerHead(buf: array<byte>, bufsz: nat, start: nat, ghost s: seq<byte>) returns (src: nat, c: Control)
      requires Valid() && phase == InTrailerHead && start <= bufsz <= buf.Length && Unread(buf, bufsz, start, s)
      modifies this`phase
      ensures Valid() && start <= src <= bufsz
      ensures c == Go ==> start < src
      ensures Reaches(s, old(Value()), start, [], Value(), src, c)
    {
      src := start;
      ghost var d0 := Value();
      ReachesSelf(s, d0, start);
      while true
        invariant phase == InTrailerHead && start <= src <= bufsz
        invariant Reaches(s, d0, start, [], Value(), src, Go)
        decreases bufsz - src
      {
        ReachesStep(s, d0, start, Value(), src);
        if src == bufsz {
          return src, Exit(Incomplete);
        }
        if buf[src] != CR {
          break;
        }
        src := src + 1;
      }
      src := src + 1;
      if buf[src - 1] == LF {
        return src, Exit(Complete);
      }
      phase := InTrailerMiddle;
      c := Go;
    }

    /** Case CHUNKED_IN_TRAILERS_LINE_MIDDLE: skips the rest of a trailer line. */
    method ReadTrailerMiddle(buf: array<byte>, bufsz: nat, start: nat, ghost s: seq<byte>)
        returns (src: nat, c: Control)
      requires Valid() && phase == InTrailerMiddle && start <= bufsz <= buf.Length && Unread(buf, bufsz, start, s)
      modifies this`phase
      ensures Valid() && start <= src <= bufsz
      ensures c == Go ==> start < src
      ensures Reaches(s, old(Value()), start, [], Value(), src, c)
    {
      src := start;
      ghost var d0 := Value();
      ReachesSelf(s, d0, start);
      while true
        invariant phase == InTrailerMiddle && start <= src <= bufsz
        invariant Reaches(s, d0, start, [], Value(), src, Go)
        decreases bufsz - src
      {
        ReachesStep(s, d0, start, Value(), src);
        if src == bufsz {
          return src, Exit(Incomplete);
        }
        if buf[src] == LF {
          break;
        }
        src := src + 1;
      }
      src := src + 1;
      phase := InTrailerHead;
      c := Go;
    }

    /** The switch over the states that emit nothing. */
    method ReadFraming(buf: array<byte>, bufsz: nat, start: nat, ghost s: seq<byte>) returns (src: nat, c: Control)
      requires Valid() && phase != InData && start <= bufsz <= buf.Length && Unread(buf, bufsz, start, s)
      modifies this
      ensures Valid() && start <= src <= bufsz
      ensures c == Go ==> start < src || (old(phase) == InSize && phase == InExt)
      ensures Reaches(s, old(Value()), start, [], Value(), src, c)
    {
      match phase {
        case InSize => src, c := ReadSize(buf, bufsz, start, s);
        case InExt => src, c := ReadExt(buf, bufsz, start, s);
        case InCrlf => src, c := ReadCrlf(buf, bufsz, start, s);
        case InTrailerHead => src, c := ReadTrailerHead(buf, bufsz, start, s);
        case InTrailerMiddle => src, c := ReadTrailerMiddle(buf, bufsz, start, s);
      }
    }

    /** Case CHUNKED_IN_CHUNK_DATA: moves the data down over the framing bytes already consumed. */
    method CopyData(buf: array<byte>, bufsz: nat, src: nat, dst: nat, ghost s: seq<byte>) returns (n: nat, c: Control)
      requires Valid() && phase == InData && dst <= src <= bufsz <= buf.Length && Unread(buf, bufsz, src, s)
      modifies this`bytesLeftInChunk, this`phase, buf
      ensures Valid() && src + n <= bufsz
      ensures c == Go ==> n > 0
      ensures buf[dst..dst + n] == s[src..src + n]
      ensures forall i :: 0 <= i < dst || src + n <= i < buf.Length ==> buf[i] == old(buf[i])
      ensures Reaches(s, old(Value()), src, s[src..src + n], Value(), src + n, c)
    {
      var avail := bufsz - src;
      n := if avail < bytesLeftInChunk then avail else bytesLeftInChunk;
      hide Reaches, Run;
      ReachesData(s, Value(), src, n);
      assert s[src..src + n] == buf[src..src + n];
      if dst != src {
        MoveBytes(buf, dst, src, n);
      }
      if avail < bytesLeftInChunk {
        bytesLeftInChunk := bytesLeftInChunk - avail;
        c := Exit(Incomplete);
      } else {
        bytesLeftInChunk := 0;
        phase := InCrlf;
        c := Go;
      }
    }

    /** The loop: payload moved to the front, everything behind `src` untouched, at the verdict of the run. */
    method Consume(buf: array<byte>, bufsz: nat, ghost s: seq<byte>) returns (dst: nat, src: nat, v: Verdict)
      requires Valid() && bufsz <= buf.Length && Unread(buf, bufsz, 0, s)
      modifies this, buf
      ensures Valid() && dst <= src <= bufsz && Unread(buf, bufsz, src, s)
      ensures Run(old(Value()), s) == Outcome(Value(), buf[..dst], src, v)
      ensures forall i :: bufsz <= i < buf.Length ==> buf[i] == old(buf[i])
    {
      hide Reaches, Run, Step, ChunkedSpec.Valid;
      var c := Go;
      dst, src := 0, 0;
      ghost var d0 := Value();
      ReachesSelf(s, d0, 0);
      while c == Go
        invariant Valid() && dst <= src <= bufsz && Unread(buf, bufsz, src, s)
        invariant forall i :: bufsz <= i < buf.Length ==> buf[i] == old(buf[i])
        invariant Reaches(s, d0, 0, buf[..dst], Value(), src, c)
        decreases c == Go, bufsz - src, phase == InSize
      {
        ghost var out, from, d := buf[..dst], src, Value();
        if phase == InData {
          var n;
          n, c := CopyData(buf, bufsz, src, dst, s);
          src, dst := src + n, dst + n;
          assert buf[..dst] == out + s[from..src];
          ReachesThen(s, d0, 0, out, d, from, s[from..src], Value(), src, c);
        } else {
          src, c := ReadFraming(buf, bufsz, src, s);
          assert out + [] == out == buf[..dst];
          ReachesThen(s, d0, 0, out, d, from, [], Value(), src, c);
        }
      }
      ReachesEnd(s, d0, buf[..dst], Value(), src, c.verdict);
      v := c.verdict;
    }

    /**
     * Rewrites `buf[..bufsz]` in place. On return the payload stands at the front, the unread bytes right
     * behind it, and the decoder is where the byte-at-a-time run over the original bytes ends.
     */
    method Decode(buf: array<byte>, bufsz: nat) returns (ret: int, size: nat)
      requires Valid() && bufsz <= buf.Length
      modifies this, buf
      ensures Valid()
      ensures var r := Run(old(Value()), old(buf[..bufsz]));
        && Value() == r.state
        && size == |r.payload| <= r.consumed <= bufsz
        && buf[..size] == r.payload
        && buf[size..size + (bufsz - r.consumed)] == old(buf[r.consumed..bufsz])
        && ret == (match r.verdict case Incomplete => -2 case Error => -1 case Complete => bufsz - r.consumed)
      ensures buf[bufsz..] == old(buf[bufsz..])
    {
      hide Run, ChunkedSpec.Valid;
      ghost var s := buf[..bufsz];
      var dst, src, v := Consume(buf, bufsz, s);
      assert buf[src..bufsz] == s[src..] == old(buf[src..bufsz]);
      ret := match v case Incomplete => -2 case Error => -1 case Complete => bufsz - src;
      if dst != src {
        MoveBytes(buf, dst, src, bufsz - src);
      }
      size := dst;
    }
  }

  lemma {:induction false} FlattenSplit<T>(pieces: seq<seq<T>>, k: nat)
    requires k < |pieces|
    ensures Flatten(pieces[..k + 1]) == Flatten(pieces[..k]) + pieces[k]
    ensures Flatten(pieces[k..]) == pieces[k] + Flatten(pieces[k + 1..])
  {
    assert pieces[k..][1..] == pieces[k + 1..];
    if k > 0 {
      FlattenSplit(pieces[1..], k - 1);
      assert pieces[1..][..k] == pieces[..k + 1][1..] && pieces[1..][..k - 1] == pieces[..k][1..];
    } else {
      assert pieces[..1][1..] == [];
    }
  }

  /**
   * The calling pattern the header documents: call again with newly arrived bytes while the answer is -2.
   * However the bytes were cut, the answer, the payload and the decoder are those of one run over all of them,
   * and the bytes not consumed are those left in the last piece used plus the pieces never looked at.
   */
  method DecodeStream(decoder: Decoder, pieces: seq<seq<byte>>) returns (ret: int, payload: seq<byte>, used: nat)
    requires decoder.Valid()
    modifies decoder
    ensures decoder.Valid() && used <= |pieces|
    ensures var r := Run(old(decoder.Value()), Flatten(pieces));
      && decoder.Value() == r.state && payload == r.payload
      && match r.verdict
         case Incomplete => ret == -2 && used == |pieces|
         case Error => ret == -1
         case Complete => ret >= 0 && ret + |Flatten(pieces[used..])| == |Flatten(pieces)| - r.consumed
  {
    ret, payload, used := -2, [], 0;
    ghost var d0, r := decoder.Value(), Outcome(decoder.Value(), [], 0, Incomplete);
    assert pieces[0..] == pieces && pieces[..0] == [];
    while used < |pieces| && ret == -2
      invariant decoder.Valid() && used <= |pieces|
      invariant r == Run(d0, Flatten(pieces[..used])) && decoder.Value() == r.state && payload == r.payload
      invariant match r.verdict
        case Incomplete => ret == -2
        case Error => ret == -1
        case Complete => ret == |Flatten(pieces[..used])| - r.consumed
      decreases |pieces| - used
    {
      var piece := pieces[used];
      var buf := new byte[|piece|](i requires 0 <= i < |piece| => piece[i]);
      assert buf[..|piece|] == piece;
      FlattenSplit(pieces, used);
      RunSplit(d0, Flatten(pieces[..used]), piece);
      var size;
      ret, size := decoder.Decode(buf, |piece|);
      payload := payload + buf[..size];
      used := used + 1;
      r := Run(d0, Flatten(pieces[..used]));
    }
    FlattenCut(pieces, used);
    RunSplit(d0, Flatten(pieces[..used]), Flatten(pieces[used..]));
    assert used == |pieces| ==> pieces[used..] == [];
  }

  lemma {:induction false} FlattenCut<T>(pieces: seq<seq<T>>, k: nat)
    requires k <= |pieces|
    ensures Flatten(pieces) == Flatten(pieces[..k]) + Flatten(pieces[k..])
    decreases |pieces| - k
  {
    if k < |pieces| {
      FlattenSplit(pieces, k);
      FlattenCut(pieces, k + 1);
    } else {
      assert pieces[..k] == pieces;
    }
  }
}
