/** Verdicts do not change when more bytes arrive, except the one that asks for more. */
module HeadStability {
  import opened Bytes
  import opened Options
  import opened HeadSpec
  import opened HeadGrammar

  lemma {:induction false} ScanExt(b: seq<byte>, x: seq<byte>, i: nat, stop: byte -> bool)
    requires i <= |b| && Scan(b, i, stop) < |b|
    ensures Scan(b + x, i, stop) == Scan(b, i, stop)
  {
    assert stop((b + x)[Scan(b, i, stop)]);
  }

  lemma {:induction false} EolExt(b: seq<byte>, x: seq<byte>, i: nat)
    requires i <= |b| && Eol(b, i) != More
    ensures Eol(b + x, i) == Eol(b, i)
  {
  }

  lemma {:induction false} TokenExt(b: seq<byte>, x: seq<byte>, i: nat)
    requires i <= |b| && Token(b, i) != More
    ensures Token(b + x, i) == Token(b, i)
  {
    ScanExt(b, x, i, TokenStop);
  }

  lemma {:induction false} ToEolExt(b: seq<byte>, x: seq<byte>, i: nat)
    requires i <= |b| && ToEol(b, i) != More
    ensures ToEol(b + x, i) == ToEol(b, i)
  {
    ScanExt(b, x, i, EolStop);
    EolExt(b, x, Scan(b, i, EolStop));
  }

  lemma {:induction false} VersionExt(b: seq<byte>, x: seq<byte>, i: nat)
    requires i <= |b| && Version(b, i) != More
    ensures Version(b + x, i) == Version(b, i)
  {
    assert (b + x)[i..i + 7] == b[i..i + 7];
  }

  lemma {:induction false} FieldExt(b: seq<byte>, x: seq<byte>, i: nat)
    requires i <= |b| && Field(b, i) != More
    ensures Field(b + x, i) == Field(b, i)
  {
    hide Eol, ToEol;
    ScanExt(b, x, i, NameStop);
    var name := Name(b, i);
    if name.Got? {
      var k := Scan(b, name.next, NotBlank);
      if k == |b| {
        ToEolAtEnd(b);
      }
      ScanExt(b, x, name.next, NotBlank);
      ToEolExt(b, x, k);
    }
  }

  lemma {:induction false} LineExt(b: seq<byte>, x: seq<byte>, i: nat, first: bool)
    requires i < |b| && Line(b, i, first) != More
    ensures Line(b + x, i, first) == Line(b, i, first)
  {
    hide Field, ToEol;
    if first || !Blank(b[i]) {
      FieldExt(b, x, i);
    } else {
      ToEolExt(b, x, i);
    }
  }

  lemma {:induction false} HeadersExt(b: seq<byte>, x: seq<byte>, i: nat, hs: seq<Header>, max: nat)
    requires i <= |b| && Headers(b, i, hs, max).end != More
    ensures Headers(b + x, i, hs, max) == Headers(b, i, hs, max)
    decreases |b| - i
  {
    hide Line, Eol;
    if b[i] == CR || b[i] == LF {
      EolExt(b, x, i);
    } else if |hs| != max {
      LineExt(b, x, i, hs == []);
      var r := Line(b, i, hs == []);
      if r.Got? {
        HeadersExt(b, x, r.next, hs + [r.value], max);
      }
    }
  }

  lemma {:induction false} RequestRestExt(b: seq<byte>, x: seq<byte>, i: nat, so: Request, max: nat)
    requires i <= |b| && so.verdict == Incomplete && RequestRest(b, i, so, max).verdict != Incomplete
    ensures RequestRest(b + x, i, so, max) == RequestRest(b, i, so, max)
  {
    hide Version, Eol, Headers;
    VersionExt(b, x, i);
    var v := Version(b, i);
    if v.Got? {
      EolExt(b, x, v.next);
      var e := Eol(b, v.next);
      if e.Got? {
        HeadersExt(b, x, e.next, [], max);
      }
    }
  }

  /** A rejected or accepted request is rejected or accepted alike, with the same fields, whatever follows. */
  lemma {:induction false} RequestVerdictStable(b: seq<byte>, x: seq<byte>, max: nat)
    requires ParseRequest(b, max).verdict != Incomplete
    ensures ParseRequest(b + x, max) == ParseRequest(b, max)
  {
    hide Eol, Token, RequestRest;
    if b[0] == CR || b[0] == LF {
      EolExt(b, x, 0);
    }
    var lead := OptionalEol(b, 0);
    if lead.Got? {
      TokenExt(b, x, lead.next);
      var verb := Token(b, lead.next);
      if verb.Got? {
        TokenExt(b, x, verb.next);
        var path := Token(b, verb.next);
        if path.Got? {
          RequestRestExt(b, x, path.next, NO_REQUEST.(verb := Some(verb.value), path := Some(path.value)), max);
        }
      }
    }
  }

  lemma {:induction false} ResponseVerdictStable(b: seq<byte>, x: seq<byte>, max: nat)
    requires ParseResponse(b, max).verdict != Incomplete
    ensures ParseResponse(b + x, max) == ParseResponse(b, max)
  {
    hide Version, ToEol, Headers;
    VersionExt(b, x, 0);
    var v := Version(b, 0);
    if v.Got? && b[8] == SP && |b| >= 13 && Status(b, 9).1 && b[12] == SP {
      ToEolExt(b, x, 13);
      var m := ToEol(b, 13);
      if m.Got? {
        HeadersExt(b, x, m.next, [], max);
      }
    }
  }

  /** An accepted request depends on the bytes it consumed and on no others. */
  lemma {:induction false} AcceptedRequestIsLocal(b: seq<byte>, b': seq<byte>, max: nat)
    requires var v := ParseRequest(b, max).verdict; v.Accepted? && v.n <= |b'| && b'[..v.n] == b[..v.n]
    ensures ParseRequest(b', max) == ParseRequest(b, max)
  {
    var h := RequestOf(b, max);
    ParsesRequestText(b, h, max);
    assert b'[..|RequestText(h)|] == RequestText(h);
    ParsesRequestText(b', h, max);
  }

  lemma {:induction false} AcceptedResponseIsLocal(b: seq<byte>, b': seq<byte>, max: nat)
    requires var v := ParseResponse(b, max).verdict; v.Accepted? && v.n <= |b'| && b'[..v.n] == b[..v.n]
    ensures ParseResponse(b', max) == ParseResponse(b, max)
  {
    var h := ResponseOf(b, max);
    ParsesResponseText(b, h, max);
    assert b'[..|ResponseText(h)|] == ResponseText(h);
    ParsesResponseText(b', h, max);
  }
}
