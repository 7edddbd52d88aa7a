/** The signaling answer relay: a streaming HTTP/1 response parser that reprints SDP answers. */
module Answers {
  import opened Net
  import opened Text
  import opened Chunking
  import Utf8
  import Sdp

  const MAX_BODY: nat := 1024 * 1024
  const MAX_HEADER: nat := 64 * 1024

  datatype Error =
    | TruncatedLine | HeaderTooLarge | NotHttp | TruncatedHeaders | InvalidHeader | InvalidStatus
    | CompressedSdp | UnsupportedTransferEncoding | InvalidChunkSize | BodyTooLarge | TruncatedTrailer
    | TrailersTooLarge | UnexpectedEof | InvalidChunkDelimiter | ChunkOverhead | InvalidContentLength
    | BadSdp(sdp: Sdp.SdpError)

  type Checked<T> = Result<T, Error>

  // ---------- lines ----------

  datatype Line = Line(bytes: seq<byte>, rest: seq<byte>)

  /** One line with its LF; the empty line means the stream has ended. */
  function ReadLine(s: seq<byte>): (r: Checked<Line>)
    ensures r.Ok? ==> |r.value.bytes| + |r.value.rest| == |s|
    ensures r.Ok? && r.value.bytes == [] ==> s == []
  {
    match Find(s, [LF])
    case Some(i) => if i + 1 > MAX_HEADER then Err(HeaderTooLarge) else Ok(Line(s[..i + 1], s[i + 1..]))
    case None =>
      if s == [] then Ok(Line([], []))
      else if |s| > MAX_HEADER then Err(HeaderTooLarge)
      else Err(TruncatedLine)
  }

  /** Lines up to and including the empty one, after what has been read of the head already. */
  function ReadHead(raw: seq<byte>, s: seq<byte>): (r: Checked<Line>)
    ensures r.Ok? ==> |r.value.rest| <= |s|
    decreases |s|
  {
    match ReadLine(s)
    case Err(e) => Err(e)
    case Ok(Line(l, rest)) =>
      if l == [] then Err(TruncatedHeaders)
      else if |raw + l| > MAX_HEADER then Err(HeaderTooLarge)
      else if l == CRLF then Ok(Line(raw + l, rest))
      else ReadHead(raw + l, rest)
  }

  // ---------- header lines ----------

  function TrimEndCrlf(s: string): string {
    if |s| >= 2 && s[|s| - 2..] == "\r\n" then TrimEndCrlf(s[..|s| - 2]) else s
  }

  function HeadLines(text: string): (r: seq<string>)
    ensures r != []
  {
    SplitOn(TrimEndCrlf(text), "\r\n")
  }

  predicate Named(line: string, name: string) {
    var kv := SplitOnce(line, ':');
    kv.Some? && EqIgnoreCase(kv.value.0, name)
  }

  function HeaderIn(lines: seq<string>, name: string): Option<string> {
    if lines == [] then None
    else if Named(lines[0], name) then Some(Trim(SplitOnce(lines[0], ':').value.1))
    else HeaderIn(lines[1..], name)
  }

  /** The trimmed value of the first header with a name; the status line is not searched. */
  function Header(lines: seq<string>, name: string): Option<string> {
    if lines == [] then None else HeaderIn(lines[1..], name)
  }

  predicate FramingLine(line: string) {
    Named(line, "content-length") || Named(line, "transfer-encoding") || Named(line, "trailer")
  }

  /** The header lines that survive a rewrite. */
  function Remaining(lines: seq<string>): seq<string> {
    if lines == [] then []
    else (if FramingLine(lines[0]) then [] else [lines[0]]) + Remaining(lines[1..])
  }

  function StatusOf(lines: seq<string>): Option<nat>
    requires lines != []
  {
    var words := Words(lines[0]);
    if |words| < 2 then None else ParseUnsigned(words[1], Decimal, U16_BOUND)
  }

  predicate IsSdp(lines: seq<string>, status: nat) {
    var kind := Header(lines, "content-type");
    200 <= status < 300 && kind.Some? && EqIgnoreCase(Trim(Before(kind.value, ';')), "application/sdp")
  }

  predicate Compressed(lines: seq<string>) {
    var coding := Header(lines, "content-encoding");
    coding.Some? && !EqIgnoreCase(coding.value, "identity")
  }

  // ---------- bodies ----------

  /** A body, the bytes that carried it, and what follows. */
  datatype Body = Body(content: seq<byte>, wire: seq<byte>, rest: seq<byte>, close: bool)

  function ReadTrailers(wire: seq<byte>, start: nat, s: seq<byte>): (r: Checked<Line>)
    requires start <= |wire|
    ensures r.Ok? ==> |r.value.rest| <= |s|
    decreases |s|
  {
    match ReadLine(s)
    case Err(e) => Err(e)
    case Ok(Line(l, rest)) =>
      if l == [] then Err(TruncatedTrailer)
      else if |wire + l| - start > MAX_HEADER then Err(TrailersTooLarge)
      else if l == CRLF then Ok(Line(wire + l, rest))
      else ReadTrailers(wire + l, start, rest)
  }

  function ChunkSize(line: seq<byte>): Option<nat> {
    match Utf8.Decode(line)
    case None => None
    case Some(text) => ParseUnsigned(Before(Trim(text), ';'), Hex, USIZE_BOUND)
  }

  datatype Chunk = Last(wire: seq<byte>, rest: seq<byte>) | Data(content: seq<byte>, wire: seq<byte>, rest: seq<byte>)

  /** One chunk, with the wire bytes read so far and the length of the body so far. */
  function ReadChunk(sofar: nat, wire: seq<byte>, s: seq<byte>): (r: Checked<Chunk>)
    requires sofar <= MAX_BODY
    ensures r.Ok? ==> |r.value.rest| <= |s|
    ensures r.Ok? && r.value.Data? ==> |r.value.rest| < |s| && |r.value.content| <= MAX_BODY - sofar
  {
    match ReadLine(s)
    case Err(e) => Err(e)
    case Ok(Line(l, after)) =>
      match ChunkSize(l)
      case None => Err(InvalidChunkSize)
      case Some(n) =>
        if n > MAX_BODY - sofar then Err(BodyTooLarge)
        else if n == 0 then
          match ReadTrailers(wire + l, |wire + l|, after)
          case Err(e) => Err(e)
          case Ok(Line(all, rest)) => Ok(Last(all, rest))
        else if |after| < n + 2 then Err(UnexpectedEof)
        else if after[n..n + 2] != CRLF then Err(InvalidChunkDelimiter)
        else
          var w := wire + l + after[..n] + CRLF;
          if |w| > MAX_BODY * 4 then Err(ChunkOverhead) else Ok(Data(after[..n], w, after[n + 2..]))
  }

  function ReadChunked(content: seq<byte>, wire: seq<byte>, s: seq<byte>): (r: Checked<Body>)
    requires |content| <= MAX_BODY
    ensures r.Ok? ==> |r.value.rest| <= |s|
    decreases |s|
  {
    match ReadChunk(|content|, wire, s)
    case Err(e) => Err(e)
    case Ok(Last(all, rest)) => Ok(Body(content, all, rest, false))
    case Ok(Data(more, w, rest)) => ReadChunked(content + more, w, rest)
  }

  predicate Bodiless(status: nat) { 100 <= status < 200 || status == 204 || status == 304 }

  function ReadBody(lines: seq<string>, status: nat, s: seq<byte>): (r: Checked<Body>)
    ensures r.Ok? ==> |r.value.rest| <= |s|
  {
    if Bodiless(status) then Ok(Body([], [], s, false))
    else
      match Header(lines, "transfer-encoding")
      case Some(te) => if EqIgnoreCase(te, "chunked") then ReadChunked([], [], s) else Err(UnsupportedTransferEncoding)
      case None =>
        match Header(lines, "content-length")
        case Some(length) =>
          (match ParseUnsigned(length, Decimal, USIZE_BOUND)
           case None => Err(InvalidContentLength)
           case Some(n) =>
             if n > MAX_BODY then Err(BodyTooLarge)
             else if |s| < n then Err(UnexpectedEof)
             else Ok(Body(s[..n], s[..n], s[n..], false)))
        case None =>
          if |s| > MAX_BODY then Err(BodyTooLarge) else Ok(Body(s, s, [], true))
  }

  // ---------- one response ----------

  datatype Message = Message(raw: seq<byte>, lines: seq<string>, status: nat, body: Body)

  /** A response head that has been read, and what follows it. */
  function ReadResponse(raw: seq<byte>, rest: seq<byte>): (r: Checked<Message>)
    ensures r.Ok? ==> |r.value.body.rest| <= |rest| && r.value.lines != []
  {
    match Utf8.Decode(raw)
    case None => Err(InvalidHeader)
    case Some(text) =>
      var lines := HeadLines(text);
      match StatusOf(lines)
      case None => Err(InvalidStatus)
      case Some(status) =>
        if IsSdp(lines, status) && Compressed(lines) then Err(CompressedSdp)
        else
          match ReadBody(lines, status, rest)
          case Err(e) => Err(e)
          case Ok(body) => Ok(Message(raw, lines, status, body))
  }

  /** The next response of a stream; None at its end. */
  function ReadMessage(s: seq<byte>): (r: Checked<Option<Message>>)
    ensures r.Ok? && r.value.Some? ==> |r.value.value.body.rest| < |s| && r.value.value.lines != []
  {
    match ReadLine(s)
    case Err(e) => Err(e)
    case Ok(Line(first, after)) =>
      if first == [] then Ok(None)
      else if !(Utf8.Encode("HTTP/1.") <= first) then Err(NotHttp)
      else
        match ReadHead(first, after)
        case Err(e) => Err(e)
        case Ok(Line(raw, rest)) =>
          match ReadResponse(raw, rest)
          case Err(e) => Err(e)
          case Ok(m) => Ok(Some(m))
  }

  function Reprinted(lines: seq<string>, body: seq<byte>): seq<byte> {
    Utf8.Encode(Join(Remaining(lines) + ["Content-Length: " + Show(|body|, Decimal)], "\r\n")) + CRLF + CRLF + body
  }

  /** What the relay writes for a response. */
  function Output(m: Message, t: Sdp.IpText, ep: Sdp.Endpoint): Checked<seq<byte>> {
    if !IsSdp(m.lines, m.status) then Ok(m.raw + m.body.wire)
    else
      match Sdp.Advertise(m.body.content, t, ep)
      case Err(e) => Err(BadSdp(e))
      case Ok(rewritten) => Ok(Reprinted(m.lines, rewritten))
  }

  // ---------- the whole stream ----------

  datatype Relayed = Relayed(written: seq<byte>, failure: Option<Error>)

  function Relay(s: seq<byte>, t: Sdp.IpText, ep: Sdp.Endpoint): Relayed
    decreases |s|
  {
    match ReadMessage(s)
    case Err(e) => Relayed([], Some(e))
    case Ok(None) => Relayed([], None)
    case Ok(Some(m)) =>
      match Output(m, t, ep)
      case Err(e) => Relayed([], Some(e))
      case Ok(frame) =>
        if m.body.close then Relayed(frame, None)
        else
          var more := Relay(m.body.rest, t, ep);
          Relayed(frame + more.written, more.failure)
  }

  // ---------- the code's loops ----------

  method ReadHeadLoop(first: seq<byte>, s: seq<byte>) returns (r: Checked<Line>)
    ensures r == ReadHead(first, s)
  {
    hide ReadLine;
    var raw, rest := first, s;
    while true
      invariant ReadHead(raw, rest) == ReadHead(first, s)
      decreases |rest|
    {
      var line := ReadLine(rest);
      if line.Err? {
        return Err(line.error);
      }
      var l := line.value.bytes;
      if l == [] {
        return Err(TruncatedHeaders);
      }
      raw := raw + l;
      if |raw| > MAX_HEADER {
        return Err(HeaderTooLarge);
      }
      rest := line.value.rest;
      if l == CRLF {
        return Ok(Line(raw, rest));
      }
    }
  }

  method ReadTrailersLoop(wire: seq<byte>, s: seq<byte>) returns (r: Checked<Line>)
    ensures r == ReadTrailers(wire, |wire|, s)
  {
    hide ReadLine;
    var start, all, rest := |wire|, wire, s;
    while true
      invariant start <= |all| && ReadTrailers(all, start, rest) == ReadTrailers(wire, |wire|, s)
      decreases |rest|
    {
      var trailer := ReadLine(rest);
      if trailer.Err? {
        return Err(trailer.error);
      }
      var l := trailer.value.bytes;
      if l == [] {
        return Err(TruncatedTrailer);
      }
      all := all + l;
      if |all| - start > MAX_HEADER {
        return Err(TrailersTooLarge);
      }
      rest := trailer.value.rest;
      if l == CRLF {
        return Ok(Line(all, rest));
      }
    }
  }

  method ReadOneChunk(sofar: nat, wire: seq<byte>, s: seq<byte>) returns (r: Checked<Chunk>)
    requires sofar <= MAX_BODY
    ensures r == ReadChunk(sofar, wire, s)
  {
    hide ReadLine, ReadTrailers, ChunkSize;
    var line := ReadLine(s);
    if line.Err? {
      return Err(line.error);
    }
    var size := ChunkSize(line.value.bytes);
    if size.None? {
      return Err(InvalidChunkSize);
    }
    var n, after := size.value, line.value.rest;
    if n > MAX_BODY - sofar {
      return Err(BodyTooLarge);
    }
    var w := wire + line.value.bytes;
    if n == 0 {
      var last := ReadTrailersLoop(w, after);
      return match last case Err(e) => Err(e) case Ok(Line(all, rest)) => Ok(Last(all, rest));
    }
    if |after| < n + 2 {
      return Err(UnexpectedEof);
    }
    if after[n..n + 2] != CRLF {
      return Err(InvalidChunkDelimiter);
    }
    w := w + after[..n] + CRLF;
    if |w| > MAX_BODY * 4 {
      return Err(ChunkOverhead);
    }
    r := Ok(Data(after[..n], w, after[n + 2..]));
  }

  method ReadChunkedLoop(s: seq<byte>) returns (r: Checked<Body>)
    ensures r == ReadChunked([], [], s)
  {
    hide ReadChunk;
    var content, wire, rest := [], [], s;
    while true
      invariant |content| <= MAX_BODY && ReadChunked(content, wire, rest) == ReadChunked([], [], s)
      decreases |rest|
    {
      var chunk := ReadOneChunk(|content|, wire, rest);
      match chunk
      case Err(e) => return Err(e);
      case Ok(Last(all, after)) => return Ok(Body(content, all, after, false));
      case Ok(Data(more, w, after)) =>
        content, wire, rest := content + more, w, after;
    }
  }

  /** The relay loop: response after response until the stream ends, closes or fails. */
  method RelayAnswers(s: seq<byte>, t: Sdp.IpText, ep: Sdp.Endpoint) returns (r: Relayed)
    ensures r == Relay(s, t, ep)
  {
    hide ReadMessage, Output;
    var written, rest := [], s;
    while true
      invariant Relay(s, t, ep) == Behind(written, Relay(rest, t, ep))
      decreases |rest|
    {
      var next := ReadMessage(rest);
      if next.Err? {
        assert written + [] == written;
        return Relayed(written, Some(next.error));
      }
      if next.value.None? {
        assert written + [] == written;
        return Relayed(written, None);
      }
      var m := next.value.value;
      var frame := Output(m, t, ep);
      if frame.Err? {
        assert written + [] == written;
        return Relayed(written, Some(frame.error));
      }
      if m.body.close {
        return Relayed(written + frame.value, None);
      }
      assert written + (frame.value + Relay(m.body.rest, t, ep).written) ==
             (written + frame.value) + Relay(m.body.rest, t, ep).written;
      written := written + frame.value;
      rest := m.body.rest;
    }
  }

  function Behind(written: seq<byte>, more: Relayed): Relayed {
    Relayed(written + more.written, more.failure)
  }
}
