/** Relaying the relay's own output changes nothing. */
module AnswersFixpoint {
  import opened Net
  import opened Text
  import opened Chunking
  import opened Answers
  import opened AnswersProofs
  import opened AnswersPrint
  import opened AnswersHeads
  import opened AnswersRerelay
  import opened AnswersFraming
  import L = SdpLines
  import P = SdpTwice
  import Utf8
  import Sdp

  // ---------- what is read depends only on the bytes read ----------

  lemma LineLocal(s: seq<byte>, x: seq<byte>)
    requires ReadLine(s).Ok? && ReadLine(s).value.bytes != []
    ensures ReadLine(ReadLine(s).value.bytes + x) == Ok(Line(ReadLine(s).value.bytes, x))
  {
    var i := Find(s, [LF]).value;
    FindSome(s, [LF]);
    FreeBefore(s, LF, i);
    assert s[i..i + 1] == [LF];
    assert s[..i + 1] == s[..i] + [LF];
    RawLineReads(s[..i], x);
  }

  lemma {:induction false} HeadLocal(raw: seq<byte>, s: seq<byte>, x: seq<byte>)
    requires ReadHead(raw, s).Ok?
    ensures var b := ReadHead(raw, s).value.bytes;
      raw <= b && ReadHead(raw, b[|raw|..] + x) == Ok(Line(b, x))
    decreases |s|
  {
    hide ReadLine;
    var l, rest := ReadLine(s).value.bytes, ReadLine(s).value.rest;
    var b := ReadHead(raw, s).value.bytes;
    if l == CRLF {
      assert b[|raw|..] == l;
      LineLocal(s, x);
    } else {
      HeadLocal(raw + l, rest, x);
      var more := b[|raw + l|..] + x;
      assert raw <= raw + l;
      assert b[|raw|..] + x == l + more by { assert b[..|raw + l|] == raw + l; }
      LineLocal(s, more);
    }
  }

  lemma {:induction false} TrailersLocal(wire: seq<byte>, start: nat, s: seq<byte>, x: seq<byte>)
    requires start <= |wire| && ReadTrailers(wire, start, s).Ok?
    ensures var b := ReadTrailers(wire, start, s).value.bytes;
      wire <= b && ReadTrailers(wire, start, b[|wire|..] + x) == Ok(Line(b, x))
    decreases |s|
  {
    hide ReadLine;
    var l, rest := ReadLine(s).value.bytes, ReadLine(s).value.rest;
    var b := ReadTrailers(wire, start, s).value.bytes;
    if l == CRLF {
      assert b[|wire|..] == l;
      LineLocal(s, x);
    } else {
      TrailersLocal(wire + l, start, rest, x);
      var more := b[|wire + l|..] + x;
      assert b[|wire|..] + x == l + more by { assert b[..|wire + l|] == wire + l; }
      LineLocal(s, more);
    }
  }

  function WithRest(c: Chunk, x: seq<byte>): Chunk {
    match c case Last(w, _) => Last(w, x) case Data(d, w, _) => Data(d, w, x)
  }

  lemma ChunkLocal(sofar: nat, wire: seq<byte>, s: seq<byte>, x: seq<byte>)
    requires sofar <= MAX_BODY && ReadChunk(sofar, wire, s).Ok?
    ensures var c := ReadChunk(sofar, wire, s).value;
      wire <= c.wire && ReadChunk(sofar, wire, c.wire[|wire|..] + x) == Ok(WithRest(c, x))
  {
    hide ReadLine, ReadTrailers, ChunkSize;
    var l, after := ReadLine(s).value.bytes, ReadLine(s).value.rest;
    EmptyLineIsNoChunk();
    var n := ChunkSize(l).value;
    var c := ReadChunk(sofar, wire, s).value;
    var w := wire + l;
    if n == 0 {
      TrailersLocal(w, |w|, after, x);
      var more := c.wire[|w|..] + x;
      assert c.wire[|wire|..] + x == l + more by { assert c.wire[..|w|] == w; }
      LineLocal(s, more);
    } else {
      var more := after[..n] + CRLF + x;
      assert c.wire[|wire|..] + x == l + more;
      LineLocal(s, more);
      assert more[..n] == after[..n] && more[n..n + 2] == CRLF && more[n + 2..] == x;
    }
  }

  lemma {:induction false} ChunkedLocal(content: seq<byte>, wire: seq<byte>, s: seq<byte>, x: seq<byte>)
    requires |content| <= MAX_BODY && ReadChunked(content, wire, s).Ok?
    ensures var b := ReadChunked(content, wire, s).value;
      wire <= b.wire && ReadChunked(content, wire, b.wire[|wire|..] + x) == Ok(b.(rest := x))
    decreases |s|
  {
    hide ReadChunk;
    var b := ReadChunked(content, wire, s).value;
    match ReadChunk(|content|, wire, s).value
    case Last(_, _) => ChunkLocal(|content|, wire, s, x);
    case Data(more, w, rest) =>
      ChunkedLocal(content + more, w, rest, x);
      var tail := b.wire[|w|..] + x;
      ChunkLocal(|content|, wire, s, tail);
      assert b.wire[|wire|..] + x == w[|wire|..] + tail by { assert b.wire[..|w|] == w; }
  }

  lemma BodyLocal(lines: seq<string>, status: nat, s: seq<byte>, x: seq<byte>)
    requires ReadBody(lines, status, s).Ok? && !ReadBody(lines, status, s).value.close
    ensures var b := ReadBody(lines, status, s).value; ReadBody(lines, status, b.wire + x) == Ok(b.(rest := x))
  {
    hide Header, ReadChunked;
    var b := ReadBody(lines, status, s).value;
    var te := Header(lines, "transfer-encoding");
    if Bodiless(status) {
      assert [] + x == x;
    } else if te.Some? {
      ChunkedLocal([], [], s, x);
      assert b.wire[0..] == b.wire;
    } else {
      assert (b.wire + x)[..|b.wire|] == b.wire && (b.wire + x)[|b.wire|..] == x;
    }
  }

  lemma ResponseLocal(raw: seq<byte>, rest: seq<byte>, x: seq<byte>)
    requires ReadResponse(raw, rest).Ok? && !ReadResponse(raw, rest).value.body.close
    ensures var m := ReadResponse(raw, rest).value;
      m.raw == raw && ReadResponse(raw, m.body.wire + x) == Ok(m.(body := m.body.(rest := x)))
  {
    hide ReadBody, StatusOf, IsSdp, Compressed, HeadLines;
    var m := ReadResponse(raw, rest).value;
    BodyLocal(m.lines, m.status, rest, x);
  }

  lemma Regroup(first: seq<byte>, raw: seq<byte>, wire: seq<byte>, x: seq<byte>)
    requires first <= raw
    ensures (raw + wire) + x == first + (raw[|first|..] + (wire + x))
  {
  }

  /** A self-delimiting response is read the same whatever follows it. */
  lemma MessageLocal(s: seq<byte>, x: seq<byte>)
    requires ReadMessage(s).Ok? && ReadMessage(s).value.Some? && !ReadMessage(s).value.value.body.close
    ensures var m := ReadMessage(s).value.value;
      ReadMessage(Consumed(m) + x) == Ok(Some(m.(body := m.body.(rest := x))))
  {
    hide ReadLine, ReadHead, ReadResponse;
    var first, after := ReadLine(s).value.bytes, ReadLine(s).value.rest;
    var raw, rest := ReadHead(first, after).value.bytes, ReadHead(first, after).value.rest;
    var m := ReadMessage(s).value.value;
    ResponseLocal(raw, rest, x);
    HeadLocal(first, after, m.body.wire + x);
    LineLocal(s, raw[|first|..] + (m.body.wire + x));
    Regroup(first, raw, m.body.wire, x);
  }

  // ---------- one answer ----------

  /** The answers that the relay would write again as they are: readable, and with nothing more to advertise. */
  predicate Reprintable(m: Message, t: Sdp.IpText, ep: Sdp.Endpoint) {
    IsSdp(m.lines, m.status) ==>
      var r := Sdp.Advertise(m.body.content, t, ep);
      && r.Ok? && Readable(m.lines, r.value)
      && P.SettledLines(Lines(Utf8.Decode(m.body.content).value), t, ep)
  }

  /** What is known of an SDP answer that the relay has reprinted. */
  lemma AnswerFacts(s: seq<byte>, t: Sdp.IpText, ep: Sdp.Endpoint)
    requires ReadMessage(s).Ok? && ReadMessage(s).value.Some?
    requires var m := ReadMessage(s).value.value; IsSdp(m.lines, m.status) && Sdp.Advertise(m.body.content, t, ep).Ok?
    ensures var m := ReadMessage(s).value.value; var body := Sdp.Advertise(m.body.content, t, ep).value;
      && AcceptedHead(m.lines) && StatusOf(m.lines) == Some(m.status) && !Compressed(m.lines)
      && (Bodiless(m.status) ==> body == []) && Output(m, t, ep) == Ok(Reprinted(m.lines, body))
  {
    hide ReadMessage, StatusOf, IsSdp, Compressed, Sdp.Advertise, AcceptedHead, Reprinted, HeadWire;
    var _ := MessageBody(s);
    AcceptedIsPrinted(s);
    EmptyBodyStays(t, ep);
  }

  /** An SDP answer, relayed, is read and written again as itself. */
  lemma AnswerTwice(s: seq<byte>, x: seq<byte>, t: Sdp.IpText, ep: Sdp.Endpoint)
    requires Sdp.PrintsWords(t) && ReadMessage(s).Ok? && ReadMessage(s).value.Some?
    requires var m := ReadMessage(s).value.value; IsSdp(m.lines, m.status) && Reprintable(m, t, ep)
    ensures var frame := Output(ReadMessage(s).value.value, t, ep).value;
      var again := ReadMessage(frame + x);
      && again.Ok? && again.value.Some? && !again.value.value.body.close && again.value.value.body.rest == x
      && Output(again.value.value, t, ep) == Ok(frame)
  {
    hide ReadMessage, StatusOf, IsSdp, Compressed, Sdp.Advertise, P.SettledLines, Sdp.PrintsWords, AcceptedHead;
    hide NewLines;
    hide Reprinted, HeadWire, Readable;
    var m := ReadMessage(s).value.value;
    var body := Sdp.Advertise(m.body.content, t, ep).value;
    AnswerFacts(s, t, ep);
    ReprintedReadsIff(m.lines, m.status, body, x);
    P.AdvertiseTwiceIff(m.body.content, t, ep);
    SameReprint(m.lines, body, body);
  }

  lemma SameReprint(ls: seq<string>, body: seq<byte>, other: seq<byte>)
    ensures Reprinted(NewLines(ls, body), other) == Reprinted(ls, other)
  {
    NewLinesRemain(ls, body);
  }

  // ---------- one answer that is not reprintable ----------

  predicate Reproduces(w: seq<byte>, t: Sdp.IpText, ep: Sdp.Endpoint) { Relay(w, t, ep) == Relayed(w, None) }

  /** Two reprints of one answer that begin the same stream have the same body. */
  lemma ReprintsDiffer(ls: seq<string>, status: nat, a: seq<byte>, x: seq<byte>, b: seq<byte>, y: seq<byte>)
    requires AcceptedHead(ls) && StatusOf(ls) == Some(status) && IsSdp(ls, status) && !Compressed(ls)
    requires (Bodiless(status) ==> a == [] && b == []) && Readable(ls, a) && a != b
    ensures Reprinted(ls, a) + x != Reprinted(ls, b) + y
  {
    hide ReadMessage, StatusOf, IsSdp, Compressed, AcceptedHead, NewLines, Reprinted, HeadWire;
    ReprintedReadsIff(ls, status, a, x);
    ReprintedReadsIff(ls, status, b, y);
  }

  /** An answer with more to advertise is written differently the second time. */
  lemma UnsettledDiffers(s: seq<byte>, x: seq<byte>, t: Sdp.IpText, ep: Sdp.Endpoint)
    requires Sdp.PrintsWords(t) && ReadMessage(s).Ok? && ReadMessage(s).value.Some?
    requires var m := ReadMessage(s).value.value;
      && IsSdp(m.lines, m.status) && Sdp.Advertise(m.body.content, t, ep).Ok?
      && Readable(m.lines, Sdp.Advertise(m.body.content, t, ep).value)
      && !P.SettledLines(Lines(Utf8.Decode(m.body.content).value), t, ep)
    ensures !Reproduces(Output(ReadMessage(s).value.value, t, ep).value + x, t, ep)
  {
    hide ReadMessage, StatusOf, IsSdp, Compressed, Sdp.Advertise, P.SettledLines, Sdp.PrintsWords, AcceptedHead;
    hide NewLines;
    hide Reprinted, HeadWire, Readable;
    var m := ReadMessage(s).value.value;
    var body := Sdp.Advertise(m.body.content, t, ep).value;
    AnswerFacts(s, t, ep);
    ReprintedReadsIff(m.lines, m.status, body, x);
    P.AdvertiseTwiceIff(m.body.content, t, ep);
    var again := Sdp.Advertise(body, t, ep);
    if again.Ok? {
      SameReprint(m.lines, body, again.value);
      EmptyBodyStays(t, ep);
      var more := Relay(x, t, ep);
      ReprintsDiffer(m.lines, m.status, body, x, again.value, more.written);
    }
  }

  /** A spilled length line is not what its own advertisement would spill: every pass adds two lines to it. */
  lemma SpillGrows(c: seq<byte>, t: Sdp.IpText, ep: Sdp.Endpoint)
    requires Sdp.PrintsWords(t) && Sdp.Advertise(c, t, ep).Ok?
    ensures Spill(Sdp.Advertise(c, t, ep).value) != c
  {
    hide Sdp.OutLines, Sdp.PrintsWords, Lines, LengthLine, L.OneLine;
    var ls := Lines(Utf8.Decode(c).value);
    var outs := Sdp.OutLines(ls, t, ep);
    var body := Sdp.Advertise(c, t, ep).value;
    L.LinesAreOneLine(Utf8.Decode(c).value);
    P.OutIsOneLine(ls, t, ep);
    P.OutIsLonger(ls, t, ep);
    var spilled := [LengthLine(|body|), ""] + outs;
    LengthLineBlock(|body|);
    assert L.OneLine("") by { EmptyIsOneLine(); }
    assert L.AllOneLine(spilled);
    SpillText(LengthLine(|body|), outs);
    L.LinesOfUnlines(spilled);
    Utf8.EncodeDecodes(L.Unlines(spilled));
  }

  lemma EmptyIsOneLine()
    ensures L.OneLine("")
  {
  }

  lemma SpillText(l: string, outs: seq<string>)
    ensures Utf8.Encode(L.Unlines([l, ""] + outs)) == Utf8.Encode(l) + CRLF + CRLF + Utf8.Encode(L.Unlines(outs))
  {
    hide Utf8.Encode;
    var text := L.Unlines(outs);
    L.UnlinesAppend([l, ""], outs);
    assert L.Unlines([l, ""]) == l + "\r\n" + "\r\n" by { TwoLines(l); }
    CrlfText();
    Utf8.EncodeAppend(l, "\r\n");
    Utf8.EncodeAppend(l + "\r\n", "\r\n");
    Utf8.EncodeAppend(l + "\r\n" + "\r\n", text);
  }

  lemma TwoLines(l: string)
    ensures L.Unlines([l, ""]) == l + "\r\n" + "\r\n"
  {
    assert [l, ""][1..] == [""] && [""][1..] == [];
    assert L.Unlines([""]) == "" + "\r\n" + [];
  }

  lemma NotAResponse(e: seq<byte>, more: seq<byte>)
    requires LF !in e && 0 < |e| < MAX_HEADER && e[0] != 'H' as int
    ensures ReadMessage(e + [LF] + more) == Err(NotHttp)
  {
    hide ReadLine, ReadHead, ReadResponse;
    RawLineReads(e, more);
    assert (e + [LF])[0] == e[0];
    Utf8.AsciiLength("HTTP/1.");
  }

  lemma LengthLineBytes()
    ensures var e := Utf8.Encode(LengthLine(0)); 0 < |e| < 100 && LF !in e && e[0] == 'C' as int
  {
    var l := LengthLine(0);
    assert l == "Content-Length: 0";
    Utf8.AsciiLength(l);
    LengthLineBlock(0);
    NoLfByte(l);
  }

  /** A length line is no response. */
  lemma LengthLineIsNoResponse(more: seq<byte>)
    ensures ReadMessage(Spill([]) + more) == Err(NotHttp)
  {
    hide ReadMessage, LengthLine;
    LengthLineBytes();
    var e := Utf8.Encode(LengthLine(0)) + [13];
    var behind := CRLF + more;
    NotAResponse(e, behind);
    assert Spill([]) + more == e + [LF] + behind;
  }

  /** An answer with a dangling header is not reproduced. */
  lemma DanglingDiffers(s: seq<byte>, x: seq<byte>, t: Sdp.IpText, ep: Sdp.Endpoint)
    requires Sdp.PrintsWords(t) && ReadMessage(s).Ok? && ReadMessage(s).value.Some?
    requires var m := ReadMessage(s).value.value;
      IsSdp(m.lines, m.status) && Sdp.Advertise(m.body.content, t, ep).Ok? && Dangling(m.lines)
    ensures !Reproduces(Output(ReadMessage(s).value.value, t, ep).value + x, t, ep)
  {
    hide ReadMessage, StatusOf, IsSdp, Compressed, Sdp.Advertise, Sdp.PrintsWords, AcceptedHead, Dangling;
    hide Reprinted, HeadWire, Spill, Remaining;
    var m := ReadMessage(s).value.value;
    var body := Sdp.Advertise(m.body.content, t, ep).value;
    AnswerFacts(s, t, ep);
    DanglingReads(m.lines, m.status, body, x);
    DanglingIsHead(m.lines, body);
    var keep, all := Remaining(m.lines), Spill(body) + x;
    assert (HeadWire(keep) + Spill(body)) + x == HeadWire(keep) + all;
    if Bodiless(m.status) {
      LengthLineIsNoResponse(x);
      assert Relay(all, t, ep).failure.Some?;
    } else if Sdp.Advertise(all, t, ep).Ok? {
      var c := Sdp.Advertise(all, t, ep).value;
      KeptReprint(m.lines, c);
      DanglingIsHead(m.lines, c);
      SpillGrows(all, t, ep);
      SameTail(HeadWire(keep), Spill(c), all);
    }
  }

  lemma KeptReprint(ls: seq<string>, body: seq<byte>)
    ensures Reprinted(Remaining(ls), body) == Reprinted(ls, body)
  {
    RemainingTwice(ls);
  }

  lemma SameTail<T>(front: seq<T>, a: seq<T>, b: seq<T>)
    ensures front + a == front + b ==> a == b
  {
    if front + a == front + b {
      assert a == (front + a)[|front|..] && b == (front + b)[|front|..];
    }
  }

  lemma AnswerDiffers(s: seq<byte>, x: seq<byte>, t: Sdp.IpText, ep: Sdp.Endpoint)
    requires Sdp.PrintsWords(t) && ReadMessage(s).Ok? && ReadMessage(s).value.Some?
    requires var m := ReadMessage(s).value.value;
      Output(m, t, ep).Ok? && !Reprintable(m, t, ep)
    ensures !Reproduces(Output(ReadMessage(s).value.value, t, ep).value + x, t, ep)
  {
    hide ReadMessage, StatusOf, IsSdp, Compressed, Sdp.Advertise, P.SettledLines, Sdp.PrintsWords, AcceptedHead;
    hide Dangling;
    hide Reprinted, HeadWire, Reproduces;
    var m := ReadMessage(s).value.value;
    var body := Sdp.Advertise(m.body.content, t, ep).value;
    if Dangling(m.lines) {
      DanglingDiffers(s, x, t, ep);
    } else if Readable(m.lines, body) {
      UnsettledDiffers(s, x, t, ep);
    } else {
      AnswerFacts(s, t, ep);
      ReprintedReadsIff(m.lines, m.status, body, x);
      var w := Reprinted(m.lines, body) + x;
      assert Relay(w, t, ep).failure.Some?;
      FailureIsNotReproduced(w, t, ep);
    }
  }

  lemma FailureIsNotReproduced(w: seq<byte>, t: Sdp.IpText, ep: Sdp.Endpoint)
    requires Relay(w, t, ep).failure.Some?
    ensures !Reproduces(w, t, ep)
  {
    hide Relay;
  }

  // ---------- whole streams ----------

  predicate AllReprintable(ms: seq<Message>, t: Sdp.IpText, ep: Sdp.Endpoint) {
    forall i :: 0 <= i < |ms| ==> Reprintable(ms[i], t, ep)
  }

  /**
   Whatever the relay has written, relaying it again reproduces it, and succeeds, exactly when every
   answer in it can be read again and has nothing more to advertise.
   */
  lemma {:induction false} RelayTwiceIff(s: seq<byte>, t: Sdp.IpText, ep: Sdp.Endpoint)
    requires Sdp.PrintsWords(t)
    ensures var written := Relay(s, t, ep).written;
      Relay(written, t, ep) == Relayed(written, None) <==> AllReprintable(Handled(s, t, ep), t, ep)
    decreases |s|
  {
    hide ReadMessage, Output, IsSdp, AllReprintable, Sdp.PrintsWords;
    var r := ReadMessage(s);
    EmptyStream();
    assert AllReprintable([], t, ep) by { NoneReprintable(t, ep); }
    if r.Ok? && r.value.Some? && Output(r.value.value, t, ep).Ok? {
      var m := r.value.value;
      var frame := Output(m, t, ep).value;
      var more, tail := [], [];
      if m.body.close {
        assert frame + [] == frame && [m] + [] == [m];
      } else {
        RelayTwiceIff(m.body.rest, t, ep);
        more, tail := Relay(m.body.rest, t, ep).written, Handled(m.body.rest, t, ep);
      }
      assert Relay(s, t, ep).written == frame + more && Handled(s, t, ep) == [m] + tail;
      assert Relay(more, t, ep) == Relayed(more, None) <==> AllReprintable(tail, t, ep);
      FirstOfAll(m, tail, t, ep);
      TwiceStep(s, more, t, ep);
    }
  }

  lemma TwiceStep(s: seq<byte>, x: seq<byte>, t: Sdp.IpText, ep: Sdp.Endpoint)
    requires Sdp.PrintsWords(t) && ReadMessage(s).Ok? && ReadMessage(s).value.Some?
    requires var m := ReadMessage(s).value.value; Output(m, t, ep).Ok? && (m.body.close ==> x == [])
    ensures var m := ReadMessage(s).value.value;
      Reproduces(Output(m, t, ep).value + x, t, ep) <==> Reprintable(m, t, ep) && Reproduces(x, t, ep)
  {
    hide ReadMessage, Output, Reprintable, Sdp.PrintsWords, Relay;
    var m := ReadMessage(s).value.value;
    if Reprintable(m, t, ep) {
      ReprintableTwice(s, x, t, ep);
      SameTail(Output(m, t, ep).value, Relay(x, t, ep).written, x);
    } else {
      AnswerDiffers(s, x, t, ep);
    }
  }

  lemma NoneReprintable(t: Sdp.IpText, ep: Sdp.Endpoint)
    ensures AllReprintable([], t, ep)
  {
  }

  lemma FirstOfAll(m: Message, tail: seq<Message>, t: Sdp.IpText, ep: Sdp.Endpoint)
    ensures AllReprintable([m] + tail, t, ep) <==> Reprintable(m, t, ep) && AllReprintable(tail, t, ep)
  {
    hide Reprintable;
    var hs := [m] + tail;
    assert hs[0] == m && forall i :: 0 <= i < |tail| ==> hs[i + 1] == tail[i];
  }

  lemma ReprintableTwice(s: seq<byte>, x: seq<byte>, t: Sdp.IpText, ep: Sdp.Endpoint)
    requires Sdp.PrintsWords(t) && ReadMessage(s).Ok? && ReadMessage(s).value.Some?
    requires var m := ReadMessage(s).value.value;
      Output(m, t, ep).Ok? && Reprintable(m, t, ep) && (m.body.close ==> x == [])
    ensures var frame := Output(ReadMessage(s).value.value, t, ep).value; var more := Relay(x, t, ep);
      Relay(frame + x, t, ep) == Relayed(frame + more.written, more.failure)
  {
    hide ReadMessage, Output, IsSdp, Reprintable, Sdp.PrintsWords;
    var m := ReadMessage(s).value.value;
    EmptyStream();
    if IsSdp(m.lines, m.status) {
      AnswerTwice(s, x, t, ep);
    } else {
      OtherTwice(s, x, t, ep);
      var frame := Output(m, t, ep).value;
      assert frame + [] == frame;
    }
  }

  lemma OtherTwice(s: seq<byte>, x: seq<byte>, t: Sdp.IpText, ep: Sdp.Endpoint)
    requires ReadMessage(s).Ok? && ReadMessage(s).value.Some?
    requires var m := ReadMessage(s).value.value; !IsSdp(m.lines, m.status) && (m.body.close ==> x == [])
    ensures var m := ReadMessage(s).value.value;
      var again := ReadMessage(Output(m, t, ep).value + x);
      && again == Ok(Some(m.(body := m.body.(rest := x))))
      && Output(again.value.value, t, ep) == Output(m, t, ep)
  {
    hide ReadMessage, IsSdp;
    var m := ReadMessage(s).value.value;
    MessageConserves(s);
    if m.body.close {
      assert Consumed(m) + [] == s;
    } else {
      MessageLocal(s, x);
    }
  }
}
