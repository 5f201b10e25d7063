/** Chunked bodies as senders write them, in characters: sizes in hexadecimal, CRLF behind every line and chunk. */
module ChunkedCharacters {
  import opened Bytes
  import opened ChunkedSpec
  import opened ChunkedGrammar

  function HexDigit(d: nat): byte
    requires d < 16
  {
    Ascii("0123456789abcdef")[d]
  }

  /** The number in hexadecimal, without leading zeros. */
  function HexText(n: nat): (r: seq<byte>)
    ensures r != []
  {
    if n < 16 then [HexDigit(n)] else HexText(n / 16) + [HexDigit(n % 16)]
  }

  lemma {:induction false} HexDigitReads(d: nat)
    requires d < 16
    ensures DecodeHex(HexDigit(d)) == d && IsHex(HexDigit(d))
  {
    HexDigits(d);
  }

  lemma {:induction false} FoldLast(acc: nat, a: seq<byte>, b: byte)
    requires forall i :: 0 <= i < |a| ==> IsHex(a[i])
    requires IsHex(b)
    ensures forall i :: 0 <= i < |a + [b]| ==> IsHex((a + [b])[i])
    ensures HexFold(acc, a + [b]) == HexFold(acc, a) * 16 + DecodeHex(b)
    decreases |a|
  {
    if a == [] {
      assert [b][1..] == [] && a + [b] == [b];
      assert HexFold(acc * 16 + DecodeHex(b), []) == acc * 16 + DecodeHex(b);
    } else {
      assert IsHex(a[0]);
      assert (a + [b])[1..] == a[1..] + [b];
      FoldLast(acc * 16 + DecodeHex(a[0]), a[1..], b);
    }
  }

  /** A number of at most `k` hexadecimal digits has that many, and they read back as the number. */
  lemma {:induction false} HexReadsBack(n: nat, k: nat)
    requires k > 0 && n < Pow16(k)
    ensures |HexText(n)| <= k && forall i :: 0 <= i < |HexText(n)| ==> IsHex(HexText(n)[i])
    ensures HexFold(0, HexText(n)) == n
    decreases k
  {
    hide HexDigit, DecodeHex;
    HexDigitReads(n % 16);
    if n < 16 {
      FoldLast(0, [], HexDigit(n));
      assert [] + [HexDigit(n)] == [HexDigit(n)];
    } else {
      HexReadsBack(n / 16, k - 1);
      FoldLast(0, HexText(n / 16), HexDigit(n % 16));
    }
  }

  lemma {:induction false} SixteenDigits()
    ensures Pow16(16) == 0x1_0000_0000_0000_0000
  {
    assert Pow16(4) == 0x1_0000;
    assert Pow16(8) == 0x1_0000_0000;
    assert Pow16(12) == 0x1_0000_0000_0000;
  }

  /** The chunks, none of them empty and each shorter than 2^64. */
  predicate Sendable(cs: seq<seq<byte>>) {
    forall i :: 0 <= i < |cs| ==> 0 < |cs[i]| < 0x1_0000_0000_0000_0000
  }

  function SentChunks(cs: seq<seq<byte>>): seq<byte> {
    if cs == [] then [] else HexText(|cs[0]|) + Ascii("\r\n") + cs[0] + Ascii("\r\n") + SentChunks(cs[1..])
  }

  function Sent(cs: seq<seq<byte>>, t: bool): seq<byte> {
    SentChunks(cs) + Ascii("0\r\n") + (if t then Ascii("\r\n") else [])
  }

  function AsChunk(c: seq<byte>): Chunk { Chunk(HexText(|c|), [CR], c, 1) }

  function AsChunks(cs: seq<seq<byte>>): (r: seq<Chunk>)
    ensures |r| == |cs| && forall i :: 0 <= i < |cs| ==> r[i] == AsChunk(cs[i])
  {
    if cs == [] then [] else [AsChunk(cs[0])] + AsChunks(cs[1..])
  }

  lemma {:induction false} SentLiterals()
    ensures Ascii("\r\n") == [CR, LF] && Ascii("0\r\n") == [48, CR, LF] && Repeat(CR, 1) == [CR]
  {
  }

  lemma {:induction false} ChunkIsOk(c: seq<byte>)
    requires 0 < |c| < 0x1_0000_0000_0000_0000
    ensures ChunkOk(AsChunk(c))
    ensures ChunkText(AsChunk(c)) == HexText(|c|) + Ascii("\r\n") + c + Ascii("\r\n")
  {
    hide HexText, HexFold, Ascii;
    SixteenDigits();
    HexReadsBack(|c|, 16);
    SentLiterals();
    assert Repeat(CR, 1) + [LF] == [CR, LF] && [CR] + [LF] == [CR, LF];
  }

  lemma {:induction false} ChunksAreText(cs: seq<seq<byte>>)
    requires Sendable(cs)
    ensures forall i :: 0 <= i < |cs| ==> ChunkOk(AsChunks(cs)[i])
    ensures ChunksText(AsChunks(cs)) == SentChunks(cs) && Data(AsChunks(cs)) == Flatten(cs)
  {
    hide ChunkText, ChunkOk, HexText, Ascii;
    if cs != [] {
      ChunkIsOk(cs[0]);
      ChunksAreText(cs[1..]);
      assert AsChunks(cs)[1..] == AsChunks(cs[1..]);
      forall i | 0 <= i < |cs| ensures ChunkOk(AsChunks(cs)[i]) { ChunkIsOk(cs[i]); }
    }
  }

  /**
   * What a sender wrote chunk by chunk comes out as it was, whatever the chunk sizes below 2^64 and whatever follows;
   * the decoder stops behind the last line, and behind the empty trailer if it was asked to consume it.
   */
  lemma {:induction false} SentIsDecoded(cs: seq<seq<byte>>, t: bool, rest: seq<byte>)
    requires Sendable(cs)
    ensures var r := Run(Fresh(t), Sent(cs, t) + rest);
      r.verdict == Complete && r.payload == Flatten(cs) && r.consumed == |Sent(cs, t)|
  {
    hide Run, ChunksText, Ascii, HexText, ChunkOk;
    var m := Body(AsChunks(cs), [48], [CR], [], 1);
    ChunksAreText(cs);
    SentLiterals();
    assert SizeOk([48], 0) by { assert [48][1..] == []; }
    assert Text(m, t) == Sent(cs, t) by {
      assert SizeLine([48], [CR]) == [48, CR, LF];
      assert TrailerText([], 1) == [CR, LF];
    }
    DecodesEveryBody(m, t, rest);
  }

  /** Seventeen digits are too many, whatever they are and whatever follows. */
  lemma {:induction false} SeventeenDigitsRefused(t: bool, s: seq<byte>)
    requires |s| >= 17 && forall i :: 0 <= i < 17 ==> IsHex(s[i])
    ensures Run(Fresh(t), s).verdict == Error
  {
    hide Run, Step, HexFold;
    var d := State(HexFold(0, s[..16]), t, 16, InSize);
    PassDigits(Fresh(t), s[..16]);
    assert s == s[..16] + s[16..];
    PassThen(Fresh(t), s[..16], [], d, s[16..]);
    SeventeenthDigit(d, s[16..]);
  }
}
