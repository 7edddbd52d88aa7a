/** An SDP answer is relayed the same whether it arrives chunked, with a length, or closed by the stream. */
module AnswersFraming {
  import opened Net
  import opened Text
  import opened Chunking
  import opened Answers
  import opened AnswersPrint
  import opened AnswersProofs
  import opened AnswersHeads
  import opened AnswersRerelay
  import L = SdpLines
  import Utf8
  import Sdp

  // ---------- chunks that the relay reads ----------

  /** One line as the relay reads it: a line feed at its end and nowhere else. */
  predicate RawLine(l: seq<byte>) { l != [] && l[|l| - 1] == LF && LF !in l[..|l| - 1] && |l| <= MAX_HEADER }

  /** Any line that reads as the size: either line end, either case, leading zeros, extensions. */
  predicate SizeLine(l: seq<byte>, n: nat) { RawLine(l) && ChunkSize(l) == Some(n) }

  predicate PlainPiece(p: Piece) { p.data != [] && SizeLine(p.line, |p.data|) }

  predicate PlainPieces(ps: seq<Piece>) { forall i :: 0 <= i < |ps| ==> PlainPiece(ps[i]) }

  predicate TrailerLines(ls: seq<seq<byte>>) { forall i :: 0 <= i < |ls| ==> RawLine(ls[i]) && ls[i] != CRLF }

  predicate PlainEnding(e: Ending) {
    SizeLine(e.line, 0) && TrailerLines(e.trailers) && |Flat(e.trailers)| + 2 <= MAX_HEADER
  }

  lemma TrimLineEnd(d: string)
    requires d != [] && !IsWhitespace(d[0]) && !IsWhitespace(d[|d| - 1])
    ensures Trim(d + "\r\n") == d
  {
    var s := d + "\r\n";
    assert s[0] == d[0];
    assert TrimStart(s) == s;
    assert s[..|s| - 1] == d + "\r" && (d + "\r")[..|d|] == d;
    assert TrimEnd(d) == d;
    assert TrimEnd(d + "\r") == d;
  }

  /** An extension, or none. */
  predicate Extension(x: string) { x == "" || (x[0] == ';' && L.OneLine(x) && !IsWhitespace(x[|x| - 1])) }

  lemma BeforeExtension(d: string, x: string)
    requires ';' !in d && Extension(x)
    ensures Before(d + x, ';') == d
  {
    if x == "" {
      assert d + x == d;
      SplitNot(d, ';');
    } else {
      assert d + x == d + [';'] + x[1..];
      SplitAt(d, ';', x[1..]);
    }
  }

  lemma LineIsRaw(text: string)
    requires L.OneLine(text) && |Utf8.Encode(text)| + 2 <= MAX_HEADER
    ensures RawLine(Utf8.Encode(text) + CRLF)
  {
    NoLfByte(text);
    var e := Utf8.Encode(text);
    assert (e + CRLF)[..|e| + 1] == e + [13];
  }

  /** Any hexadecimal text, with any extension, makes a size line. */
  lemma ExtendedSizeLine(d: string, x: string, n: nat)
    requires IsWord(d) && ';' !in d && ParseUnsigned(d, Hex, USIZE_BOUND) == Some(n) && Extension(x)
    requires |Utf8.Encode(d + x)| + 2 <= MAX_HEADER
    ensures SizeLine(Utf8.Encode(d + x) + CRLF, n)
  {
    hide ParseUnsigned, Trim, Before, RawLine;
    var text := d + x;
    assert !IsWhitespace(d[0]) && !IsWhitespace(text[|text| - 1]) && IsWhitespace('\n');
    assert L.OneLine(text);
    LineIsRaw(text);
    CrlfText();
    Utf8.EncodeAppend(text, "\r\n");
    Utf8.EncodeDecodes(text + "\r\n");
    TrimLineEnd(text);
    BeforeExtension(d, x);
  }

  /** So does the plain one, lower-case hexadecimal. */
  lemma PlainSizeLine(n: nat)
    requires n <= MAX_BODY
    ensures SizeLine(SizeText(n) + CRLF, n)
  {
    hide SizeLine, ParseUnsigned;
    var d := Show(n, Hex);
    HexIsPlain(n);
    SizeTextIsShort(n);
    ShowParsesUnsigned(n, Hex, USIZE_BOUND);
    assert d + "" == d;
    ExtendedSizeLine(d, "", n);
  }

  lemma RawReads(l: seq<byte>, more: seq<byte>)
    requires RawLine(l)
    ensures ReadLine(l + more) == Ok(Line(l, more))
  {
    var e := l[..|l| - 1];
    assert l == e + [LF];
    RawLineReads(e, more);
  }

  lemma {:induction false} RawTrailersRead(wire: seq<byte>, start: nat, ls: seq<seq<byte>>, rest: seq<byte>)
    requires TrailerLines(ls) && start <= |wire| && |wire| - start + |Flat(ls)| + 2 <= MAX_HEADER
    ensures ReadTrailers(wire, start, Flat(ls) + CRLF + rest) == Ok(Line(wire + Flat(ls) + CRLF, rest))
    decreases |ls|
  {
    hide ReadLine, RawLine;
    if ls == [] {
      EmptyLineReads(rest);
      assert [] + CRLF + rest == CRLF + rest;
      assert wire + [] + CRLF == wire + CRLF;
    } else {
      var l, tail := ls[0], Flat(ls[1..]);
      assert Flat(ls) + CRLF + rest == l + (tail + CRLF + rest);
      RawReads(l, tail + CRLF + rest);
      assert l != [] by { RawIsNotEmpty(l); }
      RawTrailersRead(wire + l, start, ls[1..], rest);
      assert (wire + l) + tail + CRLF == wire + Flat(ls) + CRLF;
    }
  }

  lemma RawIsNotEmpty(l: seq<byte>)
    requires RawLine(l)
    ensures l != []
  {
  }

  lemma PieceReads(sofar: nat, wire: seq<byte>, p: Piece, rest: seq<byte>)
    requires PlainPiece(p) && sofar + |p.data| <= MAX_BODY && |wire| + |PieceWire(p)| <= MAX_BODY * 4
    ensures ReadChunk(sofar, wire, PieceWire(p) + rest) == Ok(Data(p.data, wire + PieceWire(p), rest))
  {
    hide ReadLine, ChunkSize, RawLine;
    var after := p.data + CRLF + rest;
    assert PieceWire(p) + rest == p.line + after;
    RawReads(p.line, after);
    assert after[..|p.data|] == p.data && after[|p.data|..|p.data| + 2] == CRLF && after[|p.data| + 2..] == rest;
    assert wire + p.line + p.data + CRLF == wire + PieceWire(p);
  }

  lemma EndingReads(sofar: nat, wire: seq<byte>, e: Ending, rest: seq<byte>)
    requires sofar <= MAX_BODY && PlainEnding(e)
    ensures ReadChunk(sofar, wire, EndingWire(e) + rest) == Ok(Last(wire + EndingWire(e), rest))
  {
    hide ReadLine, ReadTrailers, ChunkSize, RawLine, TrailerLines;
    var after := Flat(e.trailers) + CRLF + rest;
    assert EndingWire(e) + rest == e.line + after;
    RawReads(e.line, after);
    RawTrailersRead(wire + e.line, |wire + e.line|, e.trailers, rest);
    assert (wire + e.line) + Flat(e.trailers) + CRLF == wire + EndingWire(e);
  }

  /** Decoding undoes the chunked coding: any split of a body, any size lines, any trailers. */
  lemma {:induction false} ChunkedReads(content: seq<byte>, wire: seq<byte>, ps: seq<Piece>, e: Ending, rest: seq<byte>)
    requires PlainPieces(ps) && PlainEnding(e)
    requires |content| + |Carried(ps)| <= MAX_BODY && |wire| + |PiecesWire(ps)| <= MAX_BODY * 4
    ensures ReadChunked(content, wire, PiecesWire(ps) + EndingWire(e) + rest) ==
      Ok(Body(content + Carried(ps), wire + PiecesWire(ps) + EndingWire(e), rest, false))
    decreases |ps|
  {
    hide ReadChunk, PieceWire, EndingWire, PlainEnding, PlainPiece;
    if ps == [] {
      assert [] + EndingWire(e) + rest == EndingWire(e) + rest;
      EndingReads(|content|, wire, e, rest);
      assert content + [] == content && wire + [] + EndingWire(e) == wire + EndingWire(e);
    } else {
      var first, tail := PieceWire(ps[0]), PiecesWire(ps[1..]);
      var behind := tail + EndingWire(e) + rest;
      assert PiecesWire(ps) + EndingWire(e) + rest == first + behind;
      assert PlainPiece(ps[0]);
      PieceReads(|content|, wire, ps[0], behind);
      ChunkedReads(content + ps[0].data, wire + first, ps[1..], e, rest);
      assert (content + ps[0].data) + Carried(ps[1..]) == content + Carried(ps);
      assert (wire + first) + tail + EndingWire(e) == wire + PiecesWire(ps) + EndingWire(e);
    }
  }

  // ---------- the framings ----------

  /** Heads that agree except for framing lines. */
  predicate SameApartFromFraming(a: seq<string>, b: seq<string>) {
    AcceptedHead(a) && AcceptedHead(b) && Remaining(a) == Remaining(b)
  }

  lemma SameMeaning(a: seq<string>, b: seq<string>)
    requires SameApartFromFraming(a, b)
    ensures StatusOf(a) == StatusOf(b)
    ensures forall status :: IsSdp(a, status) == IsSdp(b, status)
    ensures Compressed(a) == Compressed(b)
  {
    hide Header, StatusOf, Parts;
    KeptHeaders(a);
    KeptHeaders(b);
  }

  /** How a body may follow a head. */
  datatype Framing = WithoutBody | WithLength | WithChunks(pieces: seq<Piece>, ending: Ending) | UntilClose

  predicate Frames(f: Framing, ls: seq<string>, status: nat, body: seq<byte>) {
    var te, cl := Header(ls, "transfer-encoding"), Header(ls, "content-length");
    && |body| <= MAX_BODY && (Bodiless(status) <==> f.WithoutBody?)
    && match f
       case WithoutBody => body == []
       case WithLength => te.None? && cl.Some? && ParseUnsigned(cl.value, Decimal, USIZE_BOUND) == Some(|body|)
       case UntilClose => te.None? && cl.None?
       case WithChunks(pieces, ending) =>
         && te.Some? && EqIgnoreCase(te.value, "chunked")
         && PlainPieces(pieces) && PlainEnding(ending) && Carried(pieces) == body
         && |PiecesWire(pieces)| <= MAX_BODY * 4
  }

  function Wire(f: Framing, body: seq<byte>): seq<byte> {
    match f case WithChunks(pieces, ending) => PiecesWire(pieces) + EndingWire(ending) case _ => body
  }

  /** Every body within the limit can be sent in chunks: in one, with plain size lines. */
  lemma EveryBodyHasChunks(body: seq<byte>) returns (pieces: seq<Piece>, ending: Ending)
    requires |body| <= MAX_BODY
    ensures PlainPieces(pieces) && PlainEnding(ending) && Carried(pieces) == body
    ensures |PiecesWire(pieces)| <= MAX_BODY * 4
    ensures forall ls, status ::
      !Bodiless(status) && (var te := Header(ls, "transfer-encoding"); te.Some? && EqIgnoreCase(te.value, "chunked"))
      ==> Frames(WithChunks(pieces, ending), ls, status, body)
  {
    hide Header, SizeLine;
    PlainSizeLine(0);
    ending := Ending(SizeText(0) + CRLF, []);
    if body == [] {
      pieces := [];
    } else {
      PlainSizeLine(|body|);
      SizeTextIsShort(|body|);
      var piece := Piece(SizeText(|body|) + CRLF, body);
      pieces := [piece];
      assert pieces[1..] == [] && body + [] == body && PieceWire(piece) + [] == PieceWire(piece);
    }
  }

  lemma FramedBodyReads(f: Framing, ls: seq<string>, status: nat, body: seq<byte>, rest: seq<byte>)
    requires Frames(f, ls, status, body) && (f.UntilClose? ==> rest == [])
    ensures ReadBody(ls, status, Wire(f, body) + rest) == Ok(Body(body, Wire(f, body), rest, f.UntilClose?))
  {
    hide Header, ReadChunked, PiecesWire, EndingWire, Carried, PlainPieces, PlainEnding;
    match f
    case WithoutBody => assert [] + rest == rest;
    case WithChunks(pieces, ending) =>
      ChunkedReads([], [], pieces, ending, rest);
      var w := PiecesWire(pieces) + EndingWire(ending);
      assert [] + PiecesWire(pieces) + EndingWire(ending) == w && [] + Carried(pieces) == Carried(pieces);
    case WithLength => assert (body + rest)[..|body|] == body && (body + rest)[|body|..] == rest;
    case UntilClose => assert body + [] == body;
  }

  /** What the relay makes of an SDP answer with these lines and this body, before the rest of the stream. */
  function AnswerRelayed(ls: seq<string>, body: seq<byte>, rest: seq<byte>, t: Sdp.IpText, ep: Sdp.Endpoint): Relayed
    requires ls != []
  {
    if |HeadWire(ls)| > MAX_HEADER then Relayed([], Some(HeaderTooLarge))
    else if Compressed(ls) then Relayed([], Some(CompressedSdp))
    else
      match Sdp.Advertise(body, t, ep)
      case Err(e) => Relayed([], Some(BadSdp(e)))
      case Ok(sdp) => var more := Relay(rest, t, ep); Relayed(Reprinted(ls, sdp) + more.written, more.failure)
  }

  /** An SDP answer with these lines and this body, in a framing that the rest of the stream can follow. */
  predicate Framed(f: Framing, ls: seq<string>, status: nat, body: seq<byte>, rest: seq<byte>) {
    && AcceptedHead(ls) && StatusOf(ls) == Some(status) && IsSdp(ls, status)
    && Frames(f, ls, status, body) && (f.UntilClose? ==> rest == [])
  }

  function Stream(f: Framing, ls: seq<string>, body: seq<byte>, rest: seq<byte>): seq<byte>
    requires ls != []
  {
    HeadWire(ls) + (Wire(f, body) + rest)
  }

  /** An answer in any framing, anywhere on a stream, is relayed by its lines and its body alone. */
  lemma FramedAnswer(f: Framing, ls: seq<string>, status: nat, body: seq<byte>, rest: seq<byte>,
                     t: Sdp.IpText, ep: Sdp.Endpoint)
    requires Framed(f, ls, status, body, rest)
    ensures Relay(Stream(f, ls, body, rest), t, ep) == AnswerRelayed(ls, body, rest, t, ep)
  {
    hide ReadBody, StatusOf, IsSdp, Compressed, HeadWire, ReadMessage, Frames, Reprinted, Wire, Parts;
    hide Sdp.Advertise;
    HeadReads(ls, Wire(f, body) + rest);
    FramedBodyReads(f, ls, status, body, rest);
    if f.UntilClose? {
      EmptyStream();
      if Sdp.Advertise(body, t, ep).Ok? {
        var frame := Reprinted(ls, Sdp.Advertise(body, t, ep).value);
        assert frame + [] == frame;
      }
    }
  }

  /**
   Framing does not matter: answers with the same other headers and the same body, before the same
   rest of the stream, are relayed alike in any framing that can be followed by it: the same bytes,
   or the same failure.
   */
  lemma FramingDoesNotMatter(f: Framing, g: Framing, a: seq<string>, b: seq<string>, status: nat,
                             body: seq<byte>, rest: seq<byte>, t: Sdp.IpText, ep: Sdp.Endpoint)
    requires SameApartFromFraming(a, b) && (|HeadWire(a)| > MAX_HEADER <==> |HeadWire(b)| > MAX_HEADER)
    requires Framed(f, a, status, body, rest) && Framed(g, b, status, body, rest)
    ensures Relay(Stream(f, a, body, rest), t, ep) == Relay(Stream(g, b, body, rest), t, ep)
  {
    hide StatusOf, IsSdp, Compressed, HeadWire, Frames, Sdp.Advertise, Stream, Relay, Parts;
    SameMeaning(a, b);
    FramedAnswer(f, a, status, body, rest, t, ep);
    FramedAnswer(g, b, status, body, rest, t, ep);
    SameReprinted(a, b);
  }

  lemma SameReprinted(a: seq<string>, b: seq<string>)
    requires Remaining(a) == Remaining(b)
    ensures forall sdp :: Reprinted(a, sdp) == Reprinted(b, sdp)
  {
  }

  /**
   What the peer receives: one length-framed response with the status line and the other headers of
   the answer and the advertised body, then what the rest of the stream is relayed to. It does so
   exactly when the last header is not dangling and the reprinted answer is within the limits.
   */
  lemma AnswerDeliveredIff(f: Framing, ls: seq<string>, status: nat, body: seq<byte>, rest: seq<byte>,
                           t: Sdp.IpText, ep: Sdp.Endpoint)
    requires Framed(f, ls, status, body, rest) && |HeadWire(ls)| <= MAX_HEADER && !Compressed(ls)
    requires Sdp.Advertise(body, t, ep).Ok?
    ensures var sdp := Sdp.Advertise(body, t, ep).value;
      ReadMessage(Relay(Stream(f, ls, body, rest), t, ep).written)
        == Ok(Some(Delivered(ls, status, sdp, Relay(rest, t, ep).written)))
      <==> Readable(ls, sdp)
    ensures var k := NewLines(ls, Sdp.Advertise(body, t, ep).value);
      && k[0] == ls[0] && Remaining(k) == Remaining(ls) && Header(k, "transfer-encoding") == None
      && Header(k, "content-length") == Some(Show(|Sdp.Advertise(body, t, ep).value|, Decimal))
  {
    hide StatusOf, IsSdp, Compressed, HeadWire, Sdp.Advertise, Stream, Relay, ReadMessage, Reprinted, Header, Parts;
    hide NewLines, Remaining, Readable;
    var sdp := Sdp.Advertise(body, t, ep).value;
    FramedAnswer(f, ls, status, body, rest, t, ep);
    assert Bodiless(status) ==> sdp == [] by { EmptyBodyStays(t, ep); }
    ReprintedReadsIff(ls, status, sdp, Relay(rest, t, ep).written);
    StatusStays(ls, sdp);
    NewLinesRemain(ls, sdp);
    NewLinesHeaders(ls, sdp);
  }

  lemma StatusStays(ls: seq<string>, body: seq<byte>)
    requires ls != [] && "HTTP/1." <= ls[0]
    ensures NewLines(ls, body)[0] == ls[0]
  {
    StatusLineStays(ls);
  }

  lemma EmptyBodyStays(t: Sdp.IpText, ep: Sdp.Endpoint)
    ensures Sdp.Advertise([], t, ep).Ok? ==> Sdp.Advertise([], t, ep).value == []
  {
    assert Utf8.Decode([]) == Some([]);
    assert Lines([]) == [] && Sdp.OutLines([], t, ep) == [];
  }

  // ---------- every answer that is read is framed ----------

  lemma LineIsRawLine(s: seq<byte>)
    requires ReadLine(s).Ok? && ReadLine(s).value.bytes != []
    ensures RawLine(ReadLine(s).value.bytes)
  {
    LineShape(s);
    var l := ReadLine(s).value.bytes;
    var e := l[..|l| - 1];
    assert forall i :: 0 <= i < |e| ==> e[i] == l[i];
  }

  lemma {:induction false} TrailersAreLines(wire: seq<byte>, start: nat, s: seq<byte>) returns (ls: seq<seq<byte>>)
    requires start <= |wire| && ReadTrailers(wire, start, s).Ok?
    ensures TrailerLines(ls) && ReadTrailers(wire, start, s).value.bytes == wire + Flat(ls) + CRLF
    ensures |wire| - start + |Flat(ls)| + 2 <= MAX_HEADER
    decreases |s|
  {
    hide ReadLine, RawLine;
    var l, rest := ReadLine(s).value.bytes, ReadLine(s).value.rest;
    if l == CRLF {
      ls := [];
      assert wire + [] + CRLF == wire + CRLF;
    } else {
      LineIsRawLine(s);
      var more := TrailersAreLines(wire + l, start, rest);
      ls := [l] + more;
      assert ls[1..] == more;
      assert (wire + l) + Flat(more) + CRLF == wire + (l + Flat(more)) + CRLF;
    }
  }

  lemma LastIsEnding(sofar: nat, wire: seq<byte>, s: seq<byte>) returns (e: Ending)
    requires sofar <= MAX_BODY && ReadChunk(sofar, wire, s).Ok? && ReadChunk(sofar, wire, s).value.Last?
    ensures PlainEnding(e) && ReadChunk(sofar, wire, s).value.wire == wire + EndingWire(e)
  {
    hide ReadLine, ReadTrailers, ChunkSize, RawLine, TrailerLines;
    var l, after := ReadLine(s).value.bytes, ReadLine(s).value.rest;
    EmptyLineIsNoChunk();
    LineIsRawLine(s);
    var ls := TrailersAreLines(wire + l, |wire + l|, after);
    e := Ending(l, ls);
    assert (wire + l) + Flat(ls) + CRLF == wire + EndingWire(e);
  }

  lemma DataIsPiece(sofar: nat, wire: seq<byte>, s: seq<byte>) returns (p: Piece)
    requires sofar <= MAX_BODY && ReadChunk(sofar, wire, s).Ok? && ReadChunk(sofar, wire, s).value.Data?
    ensures var c := ReadChunk(sofar, wire, s).value;
      && PlainPiece(p) && p.data == c.content && c.wire == wire + PieceWire(p) && |c.wire| <= MAX_BODY * 4
  {
    hide ReadLine, ReadTrailers, ChunkSize, RawLine;
    var l, after := ReadLine(s).value.bytes, ReadLine(s).value.rest;
    EmptyLineIsNoChunk();
    LineIsRawLine(s);
    p := Piece(l, after[..ChunkSize(l).value]);
    assert wire + l + p.data + CRLF == wire + PieceWire(p);
  }

  lemma EmptyLineIsNoChunk()
    ensures ChunkSize([]) == None
  {
    assert Utf8.Decode([]) == Some([]);
    assert Trim([]) == [] && Find("", ";").None?;
  }

  /** Only the chunked coding of a body is decoded: its pieces and its ending can be told from the stream. */
  lemma {:induction false} ChunkedIsPieces(content: seq<byte>, wire: seq<byte>, s: seq<byte>)
    returns (ps: seq<Piece>, e: Ending)
    requires |content| <= MAX_BODY && |wire| <= MAX_BODY * 4 && ReadChunked(content, wire, s).Ok?
    ensures var b := ReadChunked(content, wire, s).value;
      && PlainPieces(ps) && PlainEnding(e) && |wire| + |PiecesWire(ps)| <= MAX_BODY * 4 && |b.content| <= MAX_BODY
      && b.content == content + Carried(ps) && b.wire == wire + PiecesWire(ps) + EndingWire(e) && !b.close
    decreases |s|
  {
    hide ReadChunk, PieceWire, EndingWire, PlainEnding, PlainPiece;
    match ReadChunk(|content|, wire, s).value
    case Last(_, _) =>
      e := LastIsEnding(|content|, wire, s);
      ps := [];
      assert content + [] == content && wire + [] + EndingWire(e) == wire + EndingWire(e);
    case Data(more, w, rest) =>
      var p := DataIsPiece(|content|, wire, s);
      var qs;
      qs, e := ChunkedIsPieces(content + more, w, rest);
      ps := [p] + qs;
      assert ps[1..] == qs;
      assert content + (more + Carried(qs)) == (content + more) + Carried(qs);
      assert (wire + PieceWire(p)) + PiecesWire(qs) + EndingWire(e) == wire + PiecesWire(ps) + EndingWire(e);
  }

  lemma BodyIsFramed(ls: seq<string>, status: nat, s: seq<byte>) returns (f: Framing)
    requires ReadBody(ls, status, s).Ok?
    ensures var b := ReadBody(ls, status, s).value;
      Frames(f, ls, status, b.content) && Wire(f, b.content) == b.wire && (f.UntilClose? ==> b.rest == [])
  {
    hide Header, ReadChunked, PlainPieces, PlainEnding, PiecesWire, EndingWire, Carried;
    if Bodiless(status) {
      f := WithoutBody;
    } else if Header(ls, "transfer-encoding").Some? {
      var ps, e := ChunkedIsPieces([], [], s);
      f := WithChunks(ps, e);
      assert [] + Carried(ps) == Carried(ps) && [] + PiecesWire(ps) + EndingWire(e) == PiecesWire(ps) + EndingWire(e);
    } else if Header(ls, "content-length").Some? {
      f := WithLength;
    } else {
      f := UntilClose;
    }
  }

  /** The framings are all there are: every SDP answer that the relay reads is the stream of one of them. */
  lemma EveryAnswerIsFramed(s: seq<byte>) returns (f: Framing)
    requires ReadMessage(s).Ok? && ReadMessage(s).value.Some?
    requires IsSdp(ReadMessage(s).value.value.lines, ReadMessage(s).value.value.status)
    ensures var m := ReadMessage(s).value.value;
      && Framed(f, m.lines, m.status, m.body.content, m.body.rest) && |HeadWire(m.lines)| <= MAX_HEADER
      && !Compressed(m.lines) && Stream(f, m.lines, m.body.content, m.body.rest) == s
  {
    hide ReadMessage, StatusOf, IsSdp, Compressed, ReadBody, Frames, Wire, Parts, HeadWire;
    var m := ReadMessage(s).value.value;
    AcceptedIsPrinted(s);
    MessageConserves(s);
    var rest := MessageBody(s);
    f := BodyIsFramed(m.lines, m.status, rest);
    assert (HeadWire(m.lines) + m.body.wire) + m.body.rest == HeadWire(m.lines) + (m.body.wire + m.body.rest);
  }

  lemma MessageBody(s: seq<byte>) returns (rest: seq<byte>)
    requires ReadMessage(s).Ok? && ReadMessage(s).value.Some?
    ensures var m := ReadMessage(s).value.value;
      && StatusOf(m.lines) == Some(m.status) && !(IsSdp(m.lines, m.status) && Compressed(m.lines))
      && ReadBody(m.lines, m.status, rest) == Ok(m.body)
  {
    hide ReadLine, ReadHead, StatusOf, IsSdp, Compressed, HeadLines, ReadBody;
    var first, after := ReadLine(s).value.bytes, ReadLine(s).value.rest;
    rest := ReadHead(first, after).value.rest;
  }
}
