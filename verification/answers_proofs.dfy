/** The answer relay loses no byte, writes whole messages only, and leaves other responses alone. */
module AnswersProofs {
  import opened Net
  import opened Text
  import opened Chunking
  import opened Answers
  import Sdp

  // ---------- no byte is lost while reading ----------

  lemma LineConserves(s: seq<byte>)
    requires ReadLine(s).Ok?
    ensures ReadLine(s).value.bytes + ReadLine(s).value.rest == s
  {
  }

  lemma {:induction false} HeadConserves(raw: seq<byte>, s: seq<byte>)
    requires ReadHead(raw, s).Ok?
    ensures ReadHead(raw, s).value.bytes + ReadHead(raw, s).value.rest == raw + s
    decreases |s|
  {
    hide ReadLine;
    LineConserves(s);
    var l, rest := ReadLine(s).value.bytes, ReadLine(s).value.rest;
    assert (raw + l) + rest == raw + (l + rest);
    if l != CRLF {
      HeadConserves(raw + l, rest);
    }
  }

  lemma {:induction false} TrailersConserve(wire: seq<byte>, start: nat, s: seq<byte>)
    requires start <= |wire| && ReadTrailers(wire, start, s).Ok?
    ensures ReadTrailers(wire, start, s).value.bytes + ReadTrailers(wire, start, s).value.rest == wire + s
    decreases |s|
  {
    hide ReadLine;
    LineConserves(s);
    var l, rest := ReadLine(s).value.bytes, ReadLine(s).value.rest;
    assert (wire + l) + rest == wire + (l + rest);
    if l != CRLF {
      TrailersConserve(wire + l, start, rest);
    }
  }

  lemma ChunkConserves(sofar: nat, wire: seq<byte>, s: seq<byte>)
    requires sofar <= MAX_BODY && ReadChunk(sofar, wire, s).Ok?
    ensures ReadChunk(sofar, wire, s).value.wire + ReadChunk(sofar, wire, s).value.rest == wire + s
  {
    hide ReadLine, ReadTrailers, ChunkSize;
    LineConserves(s);
    var l, after := ReadLine(s).value.bytes, ReadLine(s).value.rest;
    var n := ChunkSize(l).value;
    assert (wire + l) + after == wire + (l + after);
    if n == 0 {
      TrailersConserve(wire + l, |wire + l|, after);
    } else {
      assert after == after[..n] + after[n..n + 2] + after[n + 2..];
      assert (wire + l + after[..n] + CRLF) + after[n + 2..] == (wire + l) + (after[..n] + CRLF + after[n + 2..]);
    }
  }

  lemma {:induction false} ChunkedConserves(content: seq<byte>, wire: seq<byte>, s: seq<byte>)
    requires |content| <= MAX_BODY && ReadChunked(content, wire, s).Ok?
    ensures var b := ReadChunked(content, wire, s).value; b.wire + b.rest == wire + s && !b.close
    decreases |s|
  {
    hide ReadChunk;
    ChunkConserves(|content|, wire, s);
    match ReadChunk(|content|, wire, s).value
    case Last(_, _) =>
    case Data(more, w, rest) => ChunkedConserves(content + more, w, rest);
  }

  lemma BodyConserves(lines: seq<string>, status: nat, s: seq<byte>)
    requires ReadBody(lines, status, s).Ok?
    ensures var b := ReadBody(lines, status, s).value; b.wire + b.rest == s && (b.close ==> b.rest == [])
  {
    hide Header, ReadChunked;
    var te := Header(lines, "transfer-encoding");
    if !Bodiless(status) && te.Some? && EqIgnoreCase(te.value, "chunked") {
      ChunkedConserves([], [], s);
    }
  }

  function Consumed(m: Message): seq<byte> { m.raw + m.body.wire }

  /** A response read off a stream is exactly the bytes before the rest of the stream. */
  lemma MessageConserves(s: seq<byte>)
    requires ReadMessage(s).Ok? && ReadMessage(s).value.Some?
    ensures var m := ReadMessage(s).value.value; Consumed(m) + m.body.rest == s && (m.body.close ==> m.body.rest == [])
  {
    hide ReadLine, ReadHead, ReadBody, StatusOf, IsSdp, Compressed, HeadLines;
    LineConserves(s);
    var first, after := ReadLine(s).value.bytes, ReadLine(s).value.rest;
    HeadConserves(first, after);
    var raw, rest := ReadHead(first, after).value.bytes, ReadHead(first, after).value.rest;
    var m := ReadMessage(s).value.value;
    BodyConserves(m.lines, m.status, rest);
    assert (raw + m.body.wire) + m.body.rest == raw + (m.body.wire + m.body.rest);
  }

  // ---------- whole messages ----------

  /** The responses the relay handles completely, in order. */
  function Handled(s: seq<byte>, t: Sdp.IpText, ep: Sdp.Endpoint): seq<Message>
    decreases |s|
  {
    match ReadMessage(s)
    case Err(_) => []
    case Ok(None) => []
    case Ok(Some(m)) =>
      if Output(m, t, ep).Err? then [] else [m] + (if m.body.close then [] else Handled(m.body.rest, t, ep))
  }

  function AllConsumed(ms: seq<Message>): seq<byte> {
    if ms == [] then [] else Consumed(ms[0]) + AllConsumed(ms[1..])
  }

  function AllOutput(ms: seq<Message>, t: Sdp.IpText, ep: Sdp.Endpoint): seq<byte> {
    if ms == [] then []
    else
      var o := Output(ms[0], t, ep);
      (match o case Ok(frame) => frame case Err(_) => []) + AllOutput(ms[1..], t, ep)
  }

  /** Why the relay stops in front of a given rest of the stream. */
  ghost predicate Stops(rest: seq<byte>, failure: Option<Error>, t: Sdp.IpText, ep: Sdp.Endpoint) {
    match failure
    case None => rest == []
    case Some(e) =>
      var r := ReadMessage(rest);
      r == Err(e) || (r.Ok? && r.value.Some? && Output(r.value.value, t, ep) == Err(e))
  }

  /**
   Whatever happens, the relay has written exactly the outputs of the responses that are whole in
   front of some rest of the stream, and it fails only on the response at the head of that rest.
   */
  lemma {:induction false} WritesWholeMessages(s: seq<byte>, t: Sdp.IpText, ep: Sdp.Endpoint) returns (rest: seq<byte>)
    ensures s == AllConsumed(Handled(s, t, ep)) + rest
    ensures Relay(s, t, ep).written == AllOutput(Handled(s, t, ep), t, ep)
    ensures Stops(rest, Relay(s, t, ep).failure, t, ep)
    decreases |s|
  {
    hide ReadMessage, Output, Consumed;
    rest := s;
    var r := ReadMessage(s);
    assert [] + s == s;
    if r.Ok? && r.value.None? {
      EndOfStream(s);
    } else if r.Ok? && Output(r.value.value, t, ep).Ok? {
      var m := r.value.value;
      var frame := Output(m, t, ep).value;
      MessageConserves(s);
      if m.body.close {
        assert [m] + [] == [m] && [m][1..] == [];
        assert Consumed(m) + [] == Consumed(m) && frame + [] == frame;
        rest := [];
      } else {
        rest := WritesWholeMessages(m.body.rest, t, ep);
        var more := Handled(m.body.rest, t, ep);
        assert ([m] + more)[1..] == more;
        assert Consumed(m) + (AllConsumed(more) + rest) == (Consumed(m) + AllConsumed(more)) + rest;
      }
    }
  }

  lemma EndOfStream(s: seq<byte>)
    requires ReadMessage(s) == Ok(None)
    ensures s == []
  {
  }

  /** Streams without SDP answers pass through byte for byte. */
  lemma {:induction false} OthersPassUnchanged(s: seq<byte>, t: Sdp.IpText, ep: Sdp.Endpoint)
    requires forall i :: 0 <= i < |Handled(s, t, ep)| ==>
      !IsSdp(Handled(s, t, ep)[i].lines, Handled(s, t, ep)[i].status)
    ensures Relay(s, t, ep).written <= s
    ensures Relay(s, t, ep).failure.None? ==> Relay(s, t, ep).written == s
  {
    var rest := WritesWholeMessages(s, t, ep);
    OutputIsInput(Handled(s, t, ep), t, ep);
    assert AllConsumed(Handled(s, t, ep)) + [] == AllConsumed(Handled(s, t, ep));
  }

  lemma {:induction false} OutputIsInput(ms: seq<Message>, t: Sdp.IpText, ep: Sdp.Endpoint)
    requires forall i :: 0 <= i < |ms| ==> !IsSdp(ms[i].lines, ms[i].status)
    ensures AllOutput(ms, t, ep) == AllConsumed(ms)
  {
    if ms != [] {
      OutputIsInput(ms[1..], t, ep);
    }
  }
}
