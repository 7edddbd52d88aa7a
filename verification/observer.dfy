/** The passive HTTP/1 observer: framing of requests and responses from an arbitrarily cut byte stream. */
module Observer {
  import opened Net
  import opened Text
  import opened Chunking
  import Utf8

  const LIMIT: nat := 1024 * 1024
  const HEADER_LIMIT: nat := 64 * 1024

  datatype Reason =
    | InspectionLimit | TlsEncrypted
    | HeaderLimit | TruncatedHeader | HeaderEncoding | NonHttp | Status
    | TransferEncoding | ContentLength | BodyLimit | ChunkSize | ChunkDelimiter
    | TruncatedChunks | TruncatedBody

  type Checked<T> = Result<T, Reason>

  datatype Start = Response(status: nat) | Request(httpMethod: string, path: string)

  /** Where the body ends, as the head alone decides it. */
  datatype Framing = NoBody | Chunked | Length(size: nat) | UntilClose

  datatype Content = Sdp | Json | Other

  datatype Head = Head(start: Start, framing: Framing, encoded: bool, content: Content)

  /** A reported message; the JSON details are a function of these two. */
  datatype Event = Message(head: Head, body: seq<byte>) | Skipped(reason: Reason)

  // ---------- the head ----------

  function Headers(lines: seq<string>): seq<(string, string)> {
    if lines == [] then []
    else match SplitOnce(lines[0], ':')
      case None => Headers(lines[1..])
      case Some(h) => [h] + Headers(lines[1..])
  }

  function Lookup(headers: seq<(string, string)>, name: string): Option<string> {
    if headers == [] then None
    else if EqIgnoreCase(headers[0].0, name) then Some(Trim(headers[0].1))
    else Lookup(headers[1..], name)
  }

  function StartLine(response: bool, first: seq<string>): Checked<Start> {
    if response then
      if |first| < 2 || !("HTTP/1." <= first[0]) then Err(NonHttp)
      else match ParseUnsigned(first[1], Decimal, U16_BOUND)
        case None => Err(Status)
        case Some(n) => Ok(Response(n))
    else
      if |first| != 3 || !("HTTP/1." <= first[2]) then Err(NonHttp)
      else
        var m := if first[0] == "GET" || first[0] == "POST" then first[0] else "other";
        var p := if Before(first[1], '?') == "/v1/join" then "/v1/join"
                 else if "/v1/join/" <= first[1] then "/v1/join/{networkId}" else "other";
        Ok(Request(m, p))
  }

  function FramingOf(start: Start, headers: seq<(string, string)>): Checked<Framing> {
    if start.Response? && (100 <= start.status < 200 || start.status == 204 || start.status == 304) then Ok(NoBody)
    else
      match Lookup(headers, "transfer-encoding")
      case Some(te) => if EqIgnoreCase(te, "chunked") then Ok(Chunked) else Err(TransferEncoding)
      case None =>
        match Lookup(headers, "content-length")
        case Some(cl) =>
          (match ParseUnsigned(cl, Decimal, USIZE_BOUND)
           case None => Err(ContentLength)
           case Some(n) => if n > LIMIT then Err(BodyLimit) else Ok(Length(n)))
        case None => Ok(if start.Response? then UntilClose else NoBody)
  }

  function ContentOf(start: Start, headers: seq<(string, string)>, encoded: bool): Content {
    match Lookup(headers, "content-type")
    case None => Other
    case Some(v) =>
      if encoded then Other
      else if EqIgnoreCase(Trim(Before(v, ';')), "application/sdp") then Sdp
      else if start.Response? && "application/json" <= v then Json
      else Other
  }

  /** Everything the observer learns from the bytes before the blank line. */
  function ParseHead(head: seq<byte>, response: bool): Checked<Head> {
    match Utf8.Decode(head)
    case None => Err(HeaderEncoding)
    case Some(text) =>
      var lines := Lines(text);
      var first := if lines == [] then [] else Words(lines[0]);
      var headers := if lines == [] then [] else Headers(lines[1..]);
      match StartLine(response, first)
      case Err(e) => Err(e)
      case Ok(start) =>
        match FramingOf(start, headers)
        case Err(e) => Err(e)
        case Ok(framing) =>
          var coding := Lookup(headers, "content-encoding");
          var encoded := coding.Some? && !EqIgnoreCase(coding.value, "identity");
          Ok(Head(start, framing, encoded, ContentOf(start, headers, encoded)))
  }

  // ---------- the blank line ----------

  const CRLF2: seq<byte> := [13, 10, 13, 10]
  const LF2: seq<byte> := [10, 10]

  datatype Delimiter = Delimiter(end: nat, size: nat)

  /** The earlier of the first CRLF CRLF and the first LF LF. */
  function FindDelimiter(buf: seq<byte>): (r: Option<Delimiter>)
    ensures r.Some? ==> r.value.end + r.value.size <= |buf| && 2 <= r.value.size <= 4
  {
    match (Find(buf, CRLF2), Find(buf, LF2))
    case (None, None) => None
    case (Some(i), None) => Some(Delimiter(i, 4))
    case (None, Some(j)) => Some(Delimiter(j, 2))
    case (Some(i), Some(j)) => Some(if j < i then Delimiter(j, 2) else Delimiter(i, 4))
  }

  // ---------- chunked bodies ----------

  datatype Framed = Framed(end: nat, body: seq<byte>)

  /** Skip trailer lines up to the empty one. */
  function TrailerEnd(buf: seq<byte>, pos: nat): (r: Option<nat>)
    requires pos <= |buf|
    ensures r.Some? ==> pos < r.value <= |buf|
    decreases |buf| - pos
  {
    match Find(buf[pos..], CRLF)
    case None => None
    case Some(e) => if e == 0 then Some(pos + 2) else TrailerEnd(buf, pos + e + 2)
  }

  function ChunkSizeOf(line: seq<byte>): Option<nat> {
    match Utf8.Decode(line)
    case None => None
    case Some(text) => ParseUnsigned(Before(text, ';'), Hex, USIZE_BOUND)
  }

  datatype Chunk = NeedMore | Bad(reason: Reason) | Last(end: nat) | Data(from: nat, size: nat)

  /** The chunk that starts at a position, given how much body there is already. */
  function ChunkAt(buf: seq<byte>, pos: nat, sofar: nat): (r: Chunk)
    requires pos <= |buf| && sofar <= LIMIT
    ensures r.Last? ==> pos < r.end <= |buf|
    ensures r.Data? ==> pos < r.from && 0 < r.size <= LIMIT - sofar && r.from + r.size + 2 <= |buf|
  {
    match Find(buf[pos..], CRLF)
    case None => NeedMore
    case Some(e) =>
      match ChunkSizeOf(buf[pos..pos + e])
      case None => Bad(ChunkSize)
      case Some(size) =>
        var data := pos + e + 2;
        if size == 0 then (match TrailerEnd(buf, data) case None => NeedMore case Some(end) => Last(end))
        else if size > LIMIT - sofar then Bad(BodyLimit)
        else if |buf| - data < size + 2 then NeedMore
        else if buf[data + size..data + size + 2] != CRLF then Bad(ChunkDelimiter)
        else Data(data, size)
  }

  function Chunks(buf: seq<byte>, pos: nat, body: seq<byte>): (r: Checked<Option<Framed>>)
    requires pos <= |buf| && |body| <= LIMIT
    ensures r.Ok? && r.value.Some? ==> pos < r.value.value.end <= |buf|
    decreases |buf| - pos
  {
    match ChunkAt(buf, pos, |body|)
    case NeedMore => Ok(None)
    case Bad(e) => Err(e)
    case Last(end) => Ok(Some(Framed(end, body)))
    case Data(from, size) => Chunks(buf, from + size + 2, body + buf[from..from + size])
  }

  /** Skipping the trailer section, line by line. */
  method SkipTrailers(buf: seq<byte>, start: nat) returns (r: Option<nat>)
    requires start <= |buf|
    ensures r == TrailerEnd(buf, start)
  {
    var pos := start;
    while true
      invariant pos <= |buf| && TrailerEnd(buf, pos) == TrailerEnd(buf, start)
      decreases |buf| - pos
    {
      var end := Find(buf[pos..], CRLF);
      if end.None? {
        return None;
      }
      pos := pos + end.value + 2;
      if end.value == 0 {
        return Some(pos);
      }
    }
  }

  /** One turn of the chunk parser's loop. */
  method ReadChunk(buf: seq<byte>, pos: nat, sofar: nat) returns (r: Chunk)
    requires pos <= |buf| && sofar <= LIMIT
    ensures r == ChunkAt(buf, pos, sofar)
  {
    hide ChunkSizeOf, TrailerEnd;
    var end := Find(buf[pos..], CRLF);
    if end.None? {
      return NeedMore;
    }
    var size := ChunkSizeOf(buf[pos..pos + end.value]);
    if size.None? {
      return Bad(ChunkSize);
    }
    var data := pos + end.value + 2;
    if size.value == 0 {
      var last := SkipTrailers(buf, data);
      return match last case None => NeedMore case Some(e) => Last(e);
    }
    if size.value > LIMIT - sofar {
      return Bad(BodyLimit);
    }
    if |buf| - data < size.value + 2 {
      return NeedMore;
    }
    if buf[data + size.value..data + size.value + 2] != CRLF {
      return Bad(ChunkDelimiter);
    }
    r := Data(data, size.value);
  }

  /** The chunk parser's loop. */
  method ParseChunks(buf: seq<byte>, start: nat) returns (r: Checked<Option<Framed>>)
    requires start <= |buf|
    ensures r == Chunks(buf, start, [])
  {
    hide ChunkAt;
    var pos, body := start, [];
    while true
      invariant pos <= |buf| && |body| <= LIMIT
      invariant Chunks(buf, pos, body) == Chunks(buf, start, [])
      decreases |buf| - pos
    {
      var chunk := ReadChunk(buf, pos, |body|);
      match chunk
      case NeedMore => return Ok(None);
      case Bad(e) => return Err(e);
      case Last(end) => return Ok(Some(Framed(end, body)));
      case Data(from, size) =>
        body := body + buf[from..from + size];
        pos := from + size + 2;
    }
  }

  // ---------- one message ----------

  datatype Found = Found(size: nat, event: Event)

  function BodyAt(buf: seq<byte>, start: nat, framing: Framing, eof: bool): (r: Checked<Option<Framed>>)
    requires start <= |buf|
    ensures r.Ok? && r.value.Some? ==> start <= r.value.value.end <= |buf|
  {
    match framing
    case NoBody => Ok(Some(Framed(start, [])))
    case Chunked =>
      var r := Chunks(buf, start, []);
      if r == Ok(None) && eof then Err(TruncatedChunks) else r
    case Length(size) =>
      if |buf| < start + size then (if eof then Err(TruncatedBody) else Ok(None))
      else Ok(Some(Framed(start + size, buf[start..start + size])))
    case UntilClose =>
      if eof then Ok(Some(Framed(|buf|, buf[start..]))) else Ok(None)
  }

  /** Try to take one complete message off the front of the buffer. */
  function Frame(buf: seq<byte>, response: bool, eof: bool): (r: Checked<Option<Found>>)
    ensures r.Ok? && r.value.Some? ==> 0 < r.value.value.size <= |buf|
  {
    match FindDelimiter(buf)
    case None =>
      if |buf| > HEADER_LIMIT then Err(HeaderLimit)
      else if eof && buf != [] then Err(TruncatedHeader)
      else Ok(None)
    case Some(d) =>
      if d.end > HEADER_LIMIT then Err(HeaderLimit)
      else
        match ParseHead(buf[..d.end], response)
        case Err(e) => Err(e)
        case Ok(head) =>
          match BodyAt(buf, d.end + d.size, head.framing, eof)
          case Err(e) => Err(e)
          case Ok(None) => Ok(None)
          case Ok(Some(f)) => Ok(Some(Found(f.end, Message(head, f.body))))
  }

  // ---------- feeding ----------

  predicate TlsLike(buf: seq<byte>) {
    |buf| >= 3 && 20 <= buf[0] <= 25 && buf[1] == 3 && buf[2] <= 4
  }

  datatype State = State(pending: seq<byte>, disabled: bool, events: seq<Event>)

  function Disable(s: State, reason: Reason): State {
    State([], true, s.events + [Skipped(reason)])
  }

  /** Take whole messages off the front for as long as there are any. */
  function Drain(s: State, response: bool, eof: bool): State
    decreases |s.pending|
  {
    match Frame(s.pending, response, eof)
    case Err(e) => Disable(s, e)
    case Ok(None) => s
    case Ok(Some(f)) =>
      var s1 := s.(pending := s.pending[f.size..], events := s.events + [f.event]);
      if s1.pending == [] then s1 else Drain(s1, response, eof)
  }

  function Feed(s: State, data: seq<byte>, response: bool, eof: bool): State {
    if s.disabled then s
    else if |s.pending| + |data| > LIMIT + HEADER_LIMIT then Disable(s, InspectionLimit)
    else
      var s1 := s.(pending := s.pending + data);
      if TlsLike(s1.pending) then Disable(s1, TlsEncrypted) else Drain(s1, response, eof)
  }

  function FeedAll(s: State, cuts: seq<seq<byte>>, response: bool): State
    decreases |cuts|
  {
    if cuts == [] then s else FeedAll(Feed(s, cuts[0], response, false), cuts[1..], response)
  }

  /** The observer object. */
  class HttpObserver {
    const response: bool
    var pending: seq<byte>
    var disabled: bool
    var events: seq<Event>

    ghost function View(): State
      reads this
    {
      State(pending, disabled, events)
    }

    constructor (response: bool)
      ensures this.response == response && View() == State([], false, [])
    {
      this.response := response;
      pending, disabled, events := [], false, [];
    }

    method Stop(reason: Reason)
      modifies this
      ensures View() == Disable(old(View()), reason)
    {
      events := events + [Skipped(reason)];
      pending := [];
      disabled := true;
    }

    method FeedBytes(data: seq<byte>, eof: bool)
      modifies this
      ensures View() == Feed(old(View()), data, response, eof)
    {
      if disabled {
        return;
      }
      if |pending| + |data| > LIMIT + HEADER_LIMIT {
        Stop(InspectionLimit);
        return;
      }
      pending := pending + data;
      if |pending| >= 3 && 20 <= pending[0] <= 25 && pending[1] == 3 && pending[2] <= 4 {
        Stop(TlsEncrypted);
        return;
      }
      ghost var goal := Drain(View(), response, eof);
      while true
        invariant !disabled && Drain(View(), response, eof) == goal
        decreases |pending|
      {
        var framed := Frame(pending, response, eof);
        if framed.Err? {
          Stop(framed.error);
          break;
        }
        if framed.value.None? {
          break;
        }
        events := events + [framed.value.value.event];
        pending := pending[framed.value.value.size..];
        if pending == [] {
          break;
        }
      }
    }
  }
}
