/** What a reader makes of an answer that the relay has reprinted. */
module AnswersRerelay {
  import opened Net
  import opened Text
  import opened Chunking
  import opened Answers
  import opened AnswersPrint
  import opened AnswersHeads
  import L = SdpLines
  import P = SdpProofs
  import Utf8

  // ---------- framing lines and the others ----------

  lemma NamedOnce(line: string, a: string, b: string)
    requires Named(line, a) && |a| != |b|
    ensures !Named(line, b)
  {
  }

  lemma OtherNames(line: string)
    ensures Named(line, "content-type") ==> !FramingLine(line)
    ensures Named(line, "content-encoding") ==> !FramingLine(line)
  {
    if Named(line, "content-encoding") {
      NamedOnce(line, "content-encoding", "content-length");
      NamedOnce(line, "content-encoding", "transfer-encoding");
      NamedOnce(line, "content-encoding", "trailer");
    }
    if Named(line, "content-type") {
      NamedOnce(line, "content-type", "content-length");
      NamedOnce(line, "content-type", "transfer-encoding");
      NamedOnce(line, "content-type", "trailer");
    }
  }

  lemma {:induction false} RemainingHeader(ls: seq<string>, name: string)
    requires name == "content-type" || name == "content-encoding"
    ensures HeaderIn(Remaining(ls), name) == HeaderIn(ls, name)
  {
    hide Named, FramingLine;
    if ls != [] {
      RemainingHeader(ls[1..], name);
      OtherNames(ls[0]);
      var keep := Remaining(ls[1..]);
      assert ([ls[0]] + keep)[1..] == keep;
      assert [] + keep == keep;
    }
  }

  lemma {:induction false} RemainingAppend(a: seq<string>, b: seq<string>)
    ensures Remaining(a + b) == Remaining(a) + Remaining(b)
  {
    hide FramingLine;
    if a == [] {
      assert a + b == b && [] + Remaining(b) == Remaining(b);
    } else {
      RemainingAppend(a[1..], b);
      assert (a + b)[0] == a[0] && (a + b)[1..] == a[1..] + b;
      var first := if FramingLine(a[0]) then [] else [a[0]];
      Associate(first, Remaining(a[1..]), Remaining(b));
    }
  }

  lemma {:induction false} RemainingTwice(ls: seq<string>)
    ensures Remaining(Remaining(ls)) == Remaining(ls)
    ensures forall i :: 0 <= i < |Remaining(ls)| ==> !FramingLine(Remaining(ls)[i]) && Remaining(ls)[i] in ls
  {
    hide FramingLine;
    if ls != [] {
      RemainingTwice(ls[1..]);
      var keep := Remaining(ls[1..]);
      assert ([ls[0]] + keep)[1..] == keep;
      assert [] + keep == keep;
    }
  }

  lemma {:induction false} HeaderInAppend(a: seq<string>, b: seq<string>, name: string)
    ensures HeaderIn(a + b, name) == if HeaderIn(a, name).Some? then HeaderIn(a, name) else HeaderIn(b, name)
  {
    hide Named;
    if a == [] {
      assert a + b == b;
    } else {
      HeaderInAppend(a[1..], b, name);
      assert (a + b)[1..] == a[1..] + b;
    }
  }

  lemma {:induction false} NoFramingHeader(ls: seq<string>, name: string)
    requires name == "content-length" || name == "transfer-encoding"
    requires forall i :: 0 <= i < |ls| ==> !FramingLine(ls[i])
    ensures HeaderIn(ls, name) == None
  {
    if ls != [] {
      assert !FramingLine(ls[0]);
      NoFramingHeader(ls[1..], name);
    }
  }

  function LengthLine(n: nat): string { "Content-Length: " + Show(n, Decimal) }

  lemma LengthLineSplits(n: nat)
    ensures SplitOnce(LengthLine(n), ':') == Some(("Content-Length", " " + Show(n, Decimal)))
    ensures Named(LengthLine(n), "content-length") && FramingLine(LengthLine(n))
    ensures !Named(LengthLine(n), "transfer-encoding")
    ensures !Named(LengthLine(n), "content-type") && !Named(LengthLine(n), "content-encoding")
  {
    SplitAt("Content-Length", ':', " " + Show(n, Decimal));
    assert "Content-Length" + [':'] + (" " + Show(n, Decimal)) == LengthLine(n);
    assert EqIgnoreCase("Content-Length", "content-length");
  }

  lemma TrimDigits(n: nat)
    ensures Trim(" " + Show(n, Decimal)) == Show(n, Decimal)
  {
    var d := Show(n, Decimal);
    P.DigitsAreWord(n);
    assert (" " + d)[1..] == d;
    assert !IsWhitespace(d[0]) && !IsWhitespace(d[|d| - 1]);
    assert TrimStart(d) == d && TrimEnd(d) == d;
  }

  lemma LengthValue(n: nat)
    ensures HeaderIn([LengthLine(n)], "content-length") == Some(Show(n, Decimal))
    ensures HeaderIn([LengthLine(n)], "transfer-encoding") == None
    ensures HeaderIn([LengthLine(n)], "content-type") == None && HeaderIn([LengthLine(n)], "content-encoding") == None
    ensures Remaining([LengthLine(n)]) == []
  {
    hide Named, FramingLine, LengthLine;
    LengthLineSplits(n);
    TrimDigits(n);
    assert [LengthLine(n)][1..] == [];
  }

  // ---------- the reprinted answer ----------

  function NewLines(ls: seq<string>, body: seq<byte>): (r: seq<string>)
    ensures |r| == |Remaining(ls)| + 1
  {
    Remaining(ls) + [LengthLine(|body|)]
  }

  lemma ReprintedIsHead(ls: seq<string>, body: seq<byte>)
    ensures Reprinted(ls, body) == HeadWire(NewLines(ls, body)) + body
  {
    var k := NewLines(ls, body);
    LengthLineBlock(|body|);
    hide Show;
    CrlfText();
    Utf8.EncodeAppend(Join(k, "\r\n"), "\r\n");
  }

  lemma StatusLineStays(ls: seq<string>)
    requires ls != [] && "HTTP/1." <= ls[0]
    ensures !FramingLine(ls[0]) && Remaining(ls) != [] && Remaining(ls)[0] == ls[0]
    ensures Remaining(ls)[1..] == Remaining(ls[1..])
  {
    var kv := SplitOnce(ls[0], ':');
    if kv.Some? {
      var key := kv.value.0;
      assert key == ls[0][..|key|];
      if |key| > 0 {
        assert key[0] == ls[0][0] == 'H';
        assert Lower('H') == 'h' && Lower('c') == 'c' && Lower('t') == 't';
      }
    }
  }

  /** The last line ends in a bare line feed and is not a framing line, so that it stays the last but one. */
  predicate Dangling(ls: seq<string>) { ls != [] && EndsBare(ls) && !FramingLine(ls[|ls| - 1]) }

  lemma {:induction false} RemainingParts(ls: seq<string>)
    requires Parts(ls)
    ensures Remaining(ls) == [] || Parts(Remaining(ls))
    ensures Dangling(ls) <==> Remaining(ls) != [] && EndsBare(Remaining(ls))
    decreases |ls|
  {
    hide FramingLine, NoCrlf, Parts, EndsBare;
    PartsSplit(ls);
    if |ls| == 1 {
      assert Remaining(ls[1..]) == [] && ls == [ls[0]];
      assert Remaining(ls) == if FramingLine(ls[0]) then [] else ls;
    } else {
      RemainingParts(ls[1..]);
      var keep := Remaining(ls[1..]);
      assert [] + keep == keep;
      if keep == [] {
        assert [ls[0]] + keep == [ls[0]];
        OnePart(ls[0]);
        assert !EndsBare([ls[0]]) by { OneEnd(ls[0]); }
      } else {
        PartsBehind(ls[0], keep);
      }
    }
  }

  lemma OneEnd(l: string)
    ensures EndsBare([l]) == Ends(l, '\n')
  {
  }

  lemma NewLinesAccepted(ls: seq<string>, body: seq<byte>)
    requires AcceptedHead(ls) && !Dangling(ls)
    ensures AcceptedHead(NewLines(ls, body)) && NewLines(ls, body)[0] == ls[0]
  {
    hide FramingLine, LengthLine, NoCrlf, Dangling;
    StatusLineStays(ls);
    RemainingParts(ls);
    LengthLineBlock(|body|);
    var keep := Remaining(ls);
    var k := keep + [LengthLine(|body|)];
    forall i | 0 <= i < |k| ensures NoCrlf(k[i]) && k[i] != [] && (i < |k| - 1 ==> !Ends(k[i], '\n')) {
      if i < |keep| {
        assert k[i] == keep[i];
      }
    }
  }

  lemma LengthLineBlock(n: nat)
    ensures L.OneLine(LengthLine(n)) && LengthLine(n) != []
    ensures NoCrlf(LengthLine(n)) && !Ends(LengthLine(n), '\n')
  {
    P.DigitsAreWord(n);
    assert '\n' !in "Content-Length: ";
    assert IsWhitespace('\n');
  }

  lemma NewLinesHeaders(ls: seq<string>, body: seq<byte>)
    requires ls != [] && "HTTP/1." <= ls[0]
    ensures var k := NewLines(ls, body);
      && Header(k, "content-type") == Header(ls, "content-type")
      && Header(k, "content-encoding") == Header(ls, "content-encoding")
      && Header(k, "transfer-encoding") == None
      && Header(k, "content-length") == Some(Show(|body|, Decimal))
      && StatusOf(k) == StatusOf(ls)
  {
    hide HeaderIn, FramingLine, LengthLine;
    var k, tail, len := NewLines(ls, body), Remaining(ls[1..]), [LengthLine(|body|)];
    StatusLineStays(ls);
    assert k[0] == ls[0];
    assert k[1..] == tail + len;
    RemainingTwice(ls[1..]);
    LengthValue(|body|);
    RemainingHeader(ls[1..], "content-type");
    RemainingHeader(ls[1..], "content-encoding");
    NoFramingHeader(tail, "content-length");
    NoFramingHeader(tail, "transfer-encoding");
    HeaderInAppend(tail, len, "content-type");
    HeaderInAppend(tail, len, "content-encoding");
    HeaderInAppend(tail, len, "content-length");
    HeaderInAppend(tail, len, "transfer-encoding");
  }

  lemma NewLinesRemain(ls: seq<string>, body: seq<byte>)
    ensures Remaining(NewLines(ls, body)) == Remaining(ls)
  {
    hide LengthLine;
    RemainingTwice(ls);
    LengthValue(|body|);
    RemainingAppend(Remaining(ls), [LengthLine(|body|)]);
    assert Remaining(ls) + [] == Remaining(ls);
  }

  /** A reprinted answer that its reader takes whole: its last header is ended, and the limits hold. */
  predicate Readable(ls: seq<string>, body: seq<byte>) {
    !Dangling(ls) && |HeadWire(NewLines(ls, body))| <= MAX_HEADER && |body| <= MAX_BODY
  }

  /** How a reprinted answer should be read back: the same answer, framed by its length. */
  function Delivered(ls: seq<string>, status: nat, body: seq<byte>, rest: seq<byte>): Message {
    var k := NewLines(ls, body);
    Message(HeadWire(k), k, status, Body(body, body, rest, false))
  }

  /** Without a dangling header, a reprinted answer is read back whole or refused for its size. */
  lemma ReprintedReads(ls: seq<string>, status: nat, body: seq<byte>, rest: seq<byte>)
    requires AcceptedHead(ls) && StatusOf(ls) == Some(status) && IsSdp(ls, status) && !Compressed(ls)
    requires !Dangling(ls) && (Bodiless(status) ==> body == [])
    ensures var r := ReadMessage(Reprinted(ls, body) + rest);
      if Readable(ls, body) then r == Ok(Some(Delivered(ls, status, body, rest))) else r.Err?
  {
    hide Header, StatusOf, HeadWire, Reprinted, NewLines, ReadMessage, AcceptedHead, Dangling, ReadBody;
    hide IsSdp, Compressed;
    var k := NewLines(ls, body);
    AcceptedStart(ls);
    NewLinesHeaders(ls, body);
    NewLinesMeaning(ls, status, body);
    ReprintedIsHead(ls, body);
    NewLinesAccepted(ls, body);
    assert (HeadWire(k) + body) + rest == HeadWire(k) + (body + rest);
    HeadReads(k, body + rest);
    LengthBodyReads(k, status, body, rest);
  }

  lemma NewLinesMeaning(ls: seq<string>, status: nat, body: seq<byte>)
    requires ls != [] && "HTTP/1." <= ls[0]
    ensures var k := NewLines(ls, body); IsSdp(k, status) == IsSdp(ls, status) && Compressed(k) == Compressed(ls)
  {
    hide Header, StatusOf, NewLines;
    NewLinesHeaders(ls, body);
  }

  lemma AcceptedStart(ls: seq<string>)
    requires AcceptedHead(ls)
    ensures ls != [] && "HTTP/1." <= ls[0]
  {
  }

  /** A reprinted answer is read back as an SDP answer with the same body exactly when it is readable. */
  lemma ReprintedReadsIff(ls: seq<string>, status: nat, body: seq<byte>, rest: seq<byte>)
    requires AcceptedHead(ls) && StatusOf(ls) == Some(status) && IsSdp(ls, status) && !Compressed(ls)
    requires Bodiless(status) ==> body == []
    ensures ReadMessage(Reprinted(ls, body) + rest) == Ok(Some(Delivered(ls, status, body, rest)))
      <==> Readable(ls, body)
    ensures !Dangling(ls) && !Readable(ls, body) ==> ReadMessage(Reprinted(ls, body) + rest).Err?
    ensures IsSdp(NewLines(ls, body), status)
  {
    hide Header, StatusOf, HeadWire, Reprinted, NewLines, ReadMessage, AcceptedHead, Dangling, ReadBody, Spill;
    AcceptedStart(ls);
    NewLinesHeaders(ls, body);
    if Dangling(ls) {
      DanglingReads(ls, status, body, rest);
    } else {
      ReprintedReads(ls, status, body, rest);
    }
  }

  /** What follows the blank line that a dangling header makes of the reprinted head. */
  function Spill(body: seq<byte>): seq<byte> { Utf8.Encode(LengthLine(|body|)) + CRLF + CRLF + body }

  lemma DanglingIsHead(ls: seq<string>, body: seq<byte>)
    requires AcceptedHead(ls) && Dangling(ls)
    ensures Remaining(ls) != [] && AcceptedHead(Remaining(ls))
    ensures Reprinted(ls, body) == HeadWire(Remaining(ls)) + Spill(body)
  {
    hide FramingLine, Show, NoCrlf, Dangling;
    StatusLineStays(ls);
    RemainingParts(ls);
    var keep, l := Remaining(ls), LengthLine(|body|);
    JoinMore(keep, l);
    SpillBytes(Join(keep, "\r\n"), l, body);
  }

  lemma SpillBytes(text: string, l: string, body: seq<byte>)
    ensures Utf8.Encode(text + "\r\n" + l) + CRLF + CRLF + body ==
      (Utf8.Encode(text) + CRLF) + (Utf8.Encode(l) + CRLF + CRLF + body)
  {
    hide Utf8.Encode;
    CrlfText();
    Utf8.EncodeAppend(text, "\r\n");
    Utf8.EncodeAppend(text + "\r\n", l);
  }

  lemma {:induction false} JoinMore(ls: seq<string>, l: string)
    requires ls != []
    ensures Join(ls + [l], "\r\n") == Join(ls, "\r\n") + "\r\n" + l
  {
    if |ls| > 1 {
      JoinMore(ls[1..], l);
      assert (ls + [l])[1..] == ls[1..] + [l];
    } else {
      assert (ls + [l])[1..] == [l];
    }
  }

  /**
   The failing answers: behind a dangling header the reprinted head ends before its length line, so
   that line and the body are read as a body that the close of the stream ends, or as the next
   response of one that has no body.
   */
  lemma DanglingReads(ls: seq<string>, status: nat, body: seq<byte>, rest: seq<byte>)
    requires AcceptedHead(ls) && Dangling(ls) && StatusOf(ls) == Some(status) && IsSdp(ls, status) && !Compressed(ls)
    ensures var keep, all := Remaining(ls), Spill(body) + rest;
      && keep != [] && AcceptedHead(keep) && IsSdp(keep, status)
      && ReadMessage(Reprinted(ls, body) + rest) ==
         if |HeadWire(keep)| > MAX_HEADER then Err(HeaderTooLarge)
         else if Bodiless(status) then Ok(Some(Message(HeadWire(keep), keep, status, Body([], [], all, false))))
         else if |all| > MAX_BODY then Err(BodyTooLarge)
         else Ok(Some(Message(HeadWire(keep), keep, status, Body(all, all, [], true))))
  {
    hide StatusOf, HeadWire, Reprinted, ReadMessage, Parts, Dangling, HeaderIn, FramingLine, Spill;
    var keep, all := Remaining(ls), Spill(body) + rest;
    DanglingIsHead(ls, body);
    assert (HeadWire(keep) + Spill(body)) + rest == HeadWire(keep) + all;
    HeadReads(keep, all);
    KeptHeaders(ls);
  }

  lemma KeptHeaders(ls: seq<string>)
    requires ls != [] && "HTTP/1." <= ls[0]
    ensures var keep := Remaining(ls);
      && keep != [] && StatusOf(keep) == StatusOf(ls)
      && Header(keep, "content-type") == Header(ls, "content-type")
      && Header(keep, "content-encoding") == Header(ls, "content-encoding")
      && Header(keep, "transfer-encoding") == None && Header(keep, "content-length") == None
  {
    hide HeaderIn, FramingLine;
    StatusLineStays(ls);
    RemainingTwice(ls[1..]);
    RemainingHeader(ls[1..], "content-type");
    RemainingHeader(ls[1..], "content-encoding");
    NoFramingHeader(Remaining(ls[1..]), "content-length");
    NoFramingHeader(Remaining(ls[1..]), "transfer-encoding");
  }

  lemma LengthBodyReads(k: seq<string>, status: nat, body: seq<byte>, rest: seq<byte>)
    requires Header(k, "transfer-encoding") == None
    requires Header(k, "content-length") == Some(Show(|body|, Decimal))
    requires Bodiless(status) ==> body == []
    ensures |body| <= MAX_BODY ==> ReadBody(k, status, body + rest) == Ok(Body(body, body, rest, false))
    ensures |body| > MAX_BODY ==> ReadBody(k, status, body + rest).Err?
  {
    hide Header, Show, ParseUnsigned;
    LengthParses(|body|);
    assert (body + rest)[..|body|] == body && (body + rest)[|body|..] == rest;
    if body == [] {
      assert body + rest == rest;
    }
  }

  lemma LengthParses(n: nat)
    ensures ParseUnsigned(Show(n, Decimal), Decimal, USIZE_BOUND) == if n < USIZE_BOUND then Some(n) else None
  {
    hide Show, ParseDigits, DigitValue;
    ShowParses(n, Decimal);
    var d := Show(n, Decimal);
    assert d[0] != '+' by { FirstIsDigit(d); }
  }

  lemma FirstIsDigit(d: string)
    requires d != [] && IsDigits(d, Decimal)
    ensures d[0] != '+'
  {
    assert DigitValue('+') == 36;
  }
}
