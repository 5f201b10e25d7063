/** Bytes and the character constants the parser, the decoder and the printer share. */
module Bytes {
  /** One octet. The source's `char` comparisons do not depend on its signedness, so octets are unsigned here. */
  type byte = b: int | 0 <= b < 256

  const NUL: byte := 0
  const HT: byte := 9
  const LF: byte := 10
  const CR: byte := 13
  const SP: byte := 32
  const COLON: byte := 58
  const DEL: byte := 127

  /** The octets of an ASCII literal; other characters do not occur in any and become question marks. */
  function Ascii(s: string): (r: seq<byte>)
    ensures |r| == |s|
    ensures forall i :: 0 <= i < |s| && s[i] as int < 128 ==> r[i] == s[i] as int
  {
    seq(|s|, i requires 0 <= i < |s| => if s[i] as int < 128 then s[i] as int else 63)
  }

  /** `n` copies of one octet. */
  function Repeat(b: byte, n: nat): (r: seq<byte>)
    ensures |r| == n
    ensures forall i :: 0 <= i < n ==> r[i] == b
  {
    seq(n, _ => b)
  }

  function Flatten<T>(pieces: seq<seq<T>>): (r: seq<T>) {
    if pieces == [] then [] else pieces[0] + Flatten(pieces[1..])
  }

  /** The first index from `i` on whose byte satisfies `stop`, or the end: the plain per-byte scan. */
  function Scan(s: seq<byte>, i: nat, stop: byte -> bool): (j: nat)
    requires i <= |s|
    ensures i <= j <= |s|
    ensures forall k :: i <= k < j ==> !stop(s[k])
    ensures j < |s| ==> stop(s[j])
    decreases |s| - i
  {
    if i == |s| || stop(s[i]) then i else Scan(s, i + 1, stop)
  }
}
