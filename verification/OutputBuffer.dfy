/** The growable buffer a response is printed into and sent from. */
module OutputBuffer {
  import opened Bytes

  // ---------------------------------------------------------------- what the buffer means

  /** The capacity, the two offsets, the resize count and the bytes below the write-into offset. */
  datatype Value = Value(length: nat, from: nat, resizes: nat, filled: seq<byte>)

  predicate Ok(v: Value) { v.from <= |v.filled| <= v.length }

  function Room(v: Value): nat
    requires Ok(v)
  {
    v.length - |v.filled|
  }

  /** The bytes still to be sent. */
  function Pending(v: Value): seq<byte>
    requires Ok(v)
  {
    v.filled[v.from..]
  }

  /**
   * What an append leaves in the buffer. Text that exactly fills the room passes the size test, but the
   * terminating NUL of the formatter then stands where its last byte should.
   */
  function Stored(v: Value, text: seq<byte>): (r: seq<byte>)
    requires Ok(v)
    ensures |r| == |text|
  {
    if text != [] && |text| == Room(v) then text[..|text| - 1] + [NUL] else text
  }

  function Appended(v: Value, text: seq<byte>): (v': Value)
    requires Ok(v)
    ensures Ok(v')
  {
    var filled := v.filled + Stored(v, text);
    if |text| <= Room(v) then v.(filled := filled)
    else
      var need := |v.filled| + |text| + 1;
      Value(if 2 * v.length > need then 2 * v.length else need, v.from, v.resizes + 1, filled)
  }

  function Sent(v: Value, n: nat): (v': Value)
    requires Ok(v) && n <= |Pending(v)|
    ensures Ok(v')
  {
    v.(from := v.from + n)
  }

  /** Text that exactly fills the room and does not end in NUL anyway loses its last byte. */
  predicate Clobbers(v: Value, text: seq<byte>)
    requires Ok(v)
  {
    text != [] && |text| == Room(v) && text[|text| - 1] != NUL
  }

  /** The text survives an append exactly unless that happens. */
  lemma StoredIsText(v: Value, text: seq<byte>)
    requires Ok(v)
    ensures Stored(v, text) == text <==> !Clobbers(v, text)
  {
    if text != [] {
      assert text == text[..|text| - 1] + [text[|text| - 1]];
      assert (text[..|text| - 1] + [NUL])[|text| - 1] == NUL;
    }
  }

  /** A formatted text that fits is what an append stores. */
  lemma FormattedIsStored(v: Value, text: seq<byte>, got: seq<byte>)
    requires Ok(v) && |got| == |text| <= Room(v)
    requires forall k :: 0 <= k < |text| && k + 1 < Room(v) ==> got[k] == text[k]
    requires 0 < Room(v) <= |text| ==> got[Room(v) - 1] == NUL
    ensures Appended(v, text) == v.(filled := v.filled + got)
  {
    assert got == Stored(v, text);
  }

  /** One resize makes more than enough room, and appending after it is what an append does. */
  lemma ResizeThenAppend(v: Value, text: seq<byte>)
    requires Ok(v) && |text| > Room(v)
    ensures var need := |v.filled| + |text| + 1;
      var v' := v.(length := if 2 * v.length > need then 2 * v.length else need, resizes := v.resizes + 1);
      Ok(v') && |text| < Room(v') && Appended(v', text) == Appended(v, text)
  {
  }

  // ---------------------------------------------------------------- whole runs

  datatype Op = Append(text: seq<byte>) | Send(n: nat)

  /** What a run of appends and partial sends leaves: the buffer, the bytes the socket took, the bytes stored. */
  datatype Run = Run(v: Value, sent: seq<byte>, stored: seq<byte>)

  ghost predicate Possible(v: Value, ops: seq<Op>)
    requires Ok(v)
    decreases |ops|
  {
    ops == [] ||
    match ops[0]
    case Append(text) => Possible(Appended(v, text), ops[1..])
    case Send(n) => n <= |Pending(v)| && Possible(Sent(v, n), ops[1..])
  }

  ghost function After(v: Value, ops: seq<Op>): (r: Run)
    requires Ok(v) && Possible(v, ops)
    ensures Ok(r.v)
    decreases |ops|
  {
    if ops == [] then Run(v, [], [])
    else match ops[0]
      case Append(text) =>
        var r := After(Appended(v, text), ops[1..]);
        r.(stored := Stored(v, text) + r.stored)
      case Send(n) =>
        var r := After(Sent(v, n), ops[1..]);
        r.(sent := Pending(v)[..n] + r.sent)
  }

  ghost function Texts(ops: seq<Op>): seq<byte> {
    if ops == [] then []
    else match ops[0] case Append(text) => text + Texts(ops[1..]) case Send(_) => Texts(ops[1..])
  }

  /** No append of the run loses its last byte. */
  ghost predicate NeverClobbered(v: Value, ops: seq<Op>)
    requires Ok(v) && Possible(v, ops)
    decreases |ops|
  {
    ops == [] ||
    match ops[0]
    case Append(text) => !Clobbers(v, text) && NeverClobbered(Appended(v, text), ops[1..])
    case Send(n) => NeverClobbered(Sent(v, n), ops[1..])
  }

  lemma PendingAppended(v: Value, text: seq<byte>)
    requires Ok(v)
    ensures Pending(Appended(v, text)) == Pending(v) + Stored(v, text)
  {
  }

  lemma PendingSent(v: Value, n: nat)
    requires Ok(v) && n <= |Pending(v)|
    ensures Pending(v) == Pending(v)[..n] + Pending(Sent(v, n))
  {
  }

  /** Nothing is lost, repeated or reordered: what was sent and what is pending is what was pending and stored. */
  lemma {:induction false} StreamConserved(v: Value, ops: seq<Op>)
    requires Ok(v) && Possible(v, ops)
    ensures var r := After(v, ops); r.sent + Pending(r.v) == Pending(v) + r.stored
    decreases |ops|
  {
    hide Appended, Stored, Sent;
    if ops != [] {
      match ops[0]
      case Append(text) =>
        StreamConserved(Appended(v, text), ops[1..]);
        var r := After(Appended(v, text), ops[1..]);
        PendingAppended(v, text);
        assert (Pending(v) + Stored(v, text)) + r.stored == Pending(v) + (Stored(v, text) + r.stored);
      case Send(n) =>
        StreamConserved(Sent(v, n), ops[1..]);
        var r := After(Sent(v, n), ops[1..]);
        PendingSent(v, n);
        assert (Pending(v)[..n] + r.sent) + Pending(r.v) == Pending(v)[..n] + (r.sent + Pending(r.v));
    }
  }

  /** Stream fidelity: what goes out is the texts themselves exactly when no append loses its last byte. */
  lemma {:induction false} StreamIsTexts(v: Value, ops: seq<Op>)
    requires Ok(v) && Possible(v, ops)
    ensures var r := After(v, ops); r.sent + Pending(r.v) == Pending(v) + Texts(ops) <==> NeverClobbered(v, ops)
  {
    var r := After(v, ops);
    StreamConserved(v, ops);
    StoredIsTexts(v, ops);
    SameFront(Pending(v), r.stored, Pending(v), Texts(ops));
  }

  lemma {:induction false} SameFront<T(!new)>(a: seq<T>, x: seq<T>, b: seq<T>, y: seq<T>)
    requires |a| == |b|
    ensures a + x == b + y <==> a == b && x == y
  {
    assert (a + x)[..|a|] == a && (a + x)[|a|..] == x && (b + y)[..|b|] == b && (b + y)[|b|..] == y;
  }

  lemma {:induction false} StoredIsTexts(v: Value, ops: seq<Op>)
    requires Ok(v) && Possible(v, ops)
    ensures |After(v, ops).stored| == |Texts(ops)|
    ensures After(v, ops).stored == Texts(ops) <==> NeverClobbered(v, ops)
    decreases |ops|
  {
    hide Stored, Appended, Clobbers;
    if ops != [] {
      match ops[0]
      case Append(text) =>
        StoredIsTexts(Appended(v, text), ops[1..]);
        StoredIsText(v, text);
        SameFront(Stored(v, text), After(Appended(v, text), ops[1..]).stored, text, Texts(ops[1..]));
      case Send(n) => StoredIsTexts(Sent(v, n), ops[1..]);
    }
  }

  // ---------------------------------------------------------------- the buffer itself

  /** One answer of `write`: a positive or zero count, would block, or another error. */
  datatype WriteResult = Wrote(n: nat) | WouldBlock | Failed

  datatype WriteState = WriteFinish | WriteBusy | WriteError

  /** How many of `pending` bytes a socket with these answers takes before it is busy, fails or has them all. */
  function Taken(results: seq<WriteResult>, pending: nat): (n: nat)
    ensures n <= pending
  {
    if pending == 0 || results == [] || !results[0].Wrote? || results[0].n == 0 then 0
    else if results[0].n >= pending then pending
    else results[0].n + Taken(results[1..], pending - results[0].n)
  }

  /** With bytes still pending the socket reports an error, or takes none; with no answers left it would block. */
  predicate SendFails(results: seq<WriteResult>, pending: nat) {
    if pending == 0 || results == [] || results[0].WouldBlock? then false
    else if results[0].Failed? || results[0].n == 0 then true
    else results[0].n < pending && SendFails(results[1..], pending - results[0].n)
  }

  /** What the answer at `i` does to both, with `pending` bytes to send. */
  lemma {:induction false} NextAnswer(results: seq<WriteResult>, i: nat, pending: nat)
    requires i <= |results|
    ensures var rest := results[i..];
      && (pending == 0 || i == |results| ==> Taken(rest, pending) == 0 && !SendFails(rest, pending))
      && (pending > 0 && i < |results| ==>
            match results[i]
            case WouldBlock => Taken(rest, pending) == 0 && !SendFails(rest, pending)
            case Failed => Taken(rest, pending) == 0 && SendFails(rest, pending)
            case Wrote(n) =>
              var taken := if n <= pending then n else pending;
              if taken == 0 then Taken(rest, pending) == 0 && SendFails(rest, pending)
              else
                && Taken(rest, pending) == taken + Taken(results[i + 1..], pending - taken)
                && SendFails(rest, pending) == SendFails(results[i + 1..], pending - taken))
  {
    if i < |results| {
      assert results[i..][1..] == results[i + 1..];
    }
  }

  /** `vsnprintf` of text already formatted: at most `room - 1` bytes and a NUL; the full length is returned. */
  method Vsnprintf(buf: array<byte>, at: nat, room: nat, text: seq<byte>) returns (written: nat)
    requires at + room <= buf.Length
    modifies buf
    ensures written == |text|
    ensures forall k :: 0 <= k < at ==> buf[k] == old(buf[k])
    ensures forall k :: 0 <= k < |text| && k + 1 < room ==> buf[at + k] == text[k]
    ensures 0 < room <= |text| ==> buf[at + room - 1] == NUL
  {
    if room > 0 {
      var n := if |text| < room then |text| else room - 1;
      forall k | 0 <= k < n {
        buf[at + k] := text[k];
      }
      buf[at + n] := NUL;
    }
    written := |text|;
  }

  class Buffer {
    var data: array<byte>
    var writeFrom: nat
    var writeInto: nat
    var resizeCount: nat

    ghost predicate Valid()
      reads this, data
    {
      writeFrom <= writeInto <= data.Length
    }

    ghost function Val(): (v: Value)
      reads this, data
      requires Valid()
      ensures Ok(v)
    {
      Value(data.Length, writeFrom, resizeCount, data[..writeInto])
    }

    constructor (size: nat)
      ensures Valid() && fresh(data) && Val() == Value(size, 0, 0, [])
    {
      data := new byte[size];
      writeFrom, writeInto, resizeCount := 0, 0, 0;
    }

    method Reset()
      requires Valid()
      modifies this
      ensures Valid() && data == old(data) && Val() == Value(old(data.Length), 0, old(resizeCount), [])
    {
      writeFrom, writeInto := 0, 0;
    }

    /** `resize` and the `realloc` in it: doubles, or takes the minimum if that is more. */
    method Resize(minSize: nat)
      requires Valid() && minSize >= writeInto
      modifies this
      ensures Valid() && fresh(data)
      ensures Val() == old(Val()).(length := if 2 * old(data.Length) > minSize then 2 * old(data.Length) else minSize,
                                   resizes := old(resizeCount) + 1)
      ensures writeFrom == old(writeFrom) && writeInto == old(writeInto)
    {
      var newSize := if data.Length * 2 > minSize then data.Length * 2 else minSize;
      var bigger := new byte[newSize];
      forall k | 0 <= k < writeInto {
        bigger[k] := data[k];
      }
      data := bigger;
      resizeCount := resizeCount + 1;
    }

    /** Formats, and on a short buffer resizes and formats again; the second round always fits. */
    method Append(text: seq<byte>)
      requires Valid()
      modifies this, data
      ensures Valid() && (data == old(data) || fresh(data))
      ensures Val() == Appended(old(Val()), text)
    {
      hide Appended, Stored;
      ghost var v0 := Val();
      var done := false;
      ghost var v := v0;
      while !done
        invariant Valid() && (data == old(data) || fresh(data))
        invariant !done ==> v == Val() && Appended(v, text) == Appended(v0, text)
        invariant !done ==> v == v0 || |text| < Room(v)
        invariant done ==> Val() == Appended(v0, text)
        decreases !done, v == v0
      {
        var maxToWrite := data.Length - writeInto;
        var written := Vsnprintf(data, writeInto, maxToWrite, text);
        assert data[..writeInto] == v.filled;
        if written > maxToWrite {
          Resize(writeInto + written + 1);
          ResizeThenAppend(v, text);
          v := Val();
        } else {
          ghost var got := data[writeInto..writeInto + written];
          assert maxToWrite == Room(v);
          forall k | 0 <= k < written ensures got[k] == data[writeInto + k] {}
          FormattedIsStored(v, text, got);
          writeInto := writeInto + written;
          assert data[..writeInto] == v.filled + got;
          done := true;
        }
      }
    }

    /** Sends until nothing is pending, or the socket is busy or fails; `accepted` is what the socket took. */
    method WriteTo(results: seq<WriteResult>) returns (state: WriteState, accepted: seq<byte>)
      requires Valid()
      modifies this`writeFrom
      ensures Valid() && |accepted| <= |old(Pending(Val()))|
      ensures accepted == old(Pending(Val()))[..|accepted|]
      ensures Val() == Sent(old(Val()), |accepted|)
      ensures |accepted| == Taken(results, |old(Pending(Val()))|)
      ensures state == WriteFinish <==> Pending(Val()) == []
      ensures state == WriteError <==> SendFails(results, |old(Pending(Val()))|)
    {
      hide Taken, SendFails;
      ghost var total := |Pending(Val())|;
      var i := 0;
      accepted := [];
      assert results[0..] == results;
      while writeFrom < writeInto
        invariant Valid() && i <= |results|
        invariant |accepted| <= |old(Pending(Val()))| && accepted == old(Pending(Val()))[..|accepted|]
        invariant Val() == Sent(old(Val()), |accepted|)
        invariant Taken(results, total) == |accepted| + Taken(results[i..], total - |accepted|)
        invariant SendFails(results, total) == SendFails(results[i..], total - |accepted|)
        decreases |results| - i
      {
        NextAnswer(results, i, total - |accepted|);
        if i == |results| { return WriteBusy, accepted; }
        var numToWrite := writeInto - writeFrom;
        match results[i] {
          case WouldBlock => return WriteBusy, accepted;
          case Failed => return WriteError, accepted;
          case Wrote(n) =>
            var taken := if n <= numToWrite then n else numToWrite;
            if taken == 0 { return WriteError, accepted; }
            accepted := accepted + data[writeFrom..writeFrom + taken];
            writeFrom := writeFrom + taken;
        }
        i := i + 1;
      }
      NextAnswer(results, i, 0);
      state := WriteFinish;
    }
  }
}
