/** The observer reports what was printed: reading inverts printing, message by message and for whole streams. */
module ObserverStream {
  import opened Net
  import opened Text
  import opened Chunking
  import opened Observer
  import opened ObserverPrint
  import ObserverProofs
  import C = ObserverCuts
  import Limits = ObserverLimits
  import L = SdpLines
  import P = AnswersPrint
  import Utf8

  /** How a body travels: none, with its length, or in chunks with trailer lines. */
  datatype Transfer = Bare | Sized(body: seq<byte>) | Parts(pieces: seq<Piece>, ending: Ending)

  datatype Printed = Printed(opening: Opening, fields: seq<Field>, transfer: Transfer)

  function FramingFields(t: Transfer): seq<Field> {
    match t
    case Bare => []
    case Sized(body) => [Field("Content-Length", Show(|body|, Decimal))]
    case Parts(_, _) => [Field("Transfer-Encoding", "chunked")]
  }

  function AllFields(m: Printed): seq<Field> { m.fields + FramingFields(m.transfer) }

  function Payload(t: Transfer): seq<byte> {
    match t
    case Bare => []
    case Sized(body) => body
    case Parts(pieces, ending) => PiecesWire(pieces) + EndingWire(ending)
  }

  function PrintHead(m: Printed): seq<byte> { HeadBytes(HeadLines(m.opening, AllFields(m))) }

  function Print(m: Printed): seq<byte> { PrintHead(m) + Payload(m.transfer) }

  /** A response that never has a body. */
  predicate Bodiless(o: Opening) {
    o.Replies? && (100 <= o.status < 200 || o.status == 204 || o.status == 304)
  }

  /** A line that CRLF ends, and nothing earlier does. */
  predicate CrlfLine(l: seq<byte>) { |l| >= 2 && Find(l, CRLF) == Some(|l| - 2) }

  /** Any line that reads as the size: either case, leading zeros, extensions. */
  predicate SizeLine(l: seq<byte>, n: nat) { CrlfLine(l) && ChunkSizeOf(l[..|l| - 2]) == Some(n) }

  predicate SeenPieces(ps: seq<Piece>) {
    forall i :: 0 <= i < |ps| ==> ps[i].data != [] && SizeLine(ps[i].line, |ps[i].data|)
  }

  predicate SeenEnding(e: Ending) {
    SizeLine(e.line, 0) && forall i :: 0 <= i < |e.trailers| ==> CrlfLine(e.trailers[i]) && |e.trailers[i]| > 2
  }

  predicate PlainTransfer(t: Transfer) {
    match t
    case Bare => true
    case Sized(body) => |body| <= LIMIT
    case Parts(pieces, ending) => SeenPieces(pieces) && |Carried(pieces)| <= LIMIT && SeenEnding(ending)
  }

  /** A message whose framing is what its transfer says. */
  predicate Plain(m: Printed) {
    && PlainOpening(m.opening) && PlainFields(m.fields) && PlainTransfer(m.transfer)
    && ValueOf(m.fields, "transfer-encoding").None? && ValueOf(m.fields, "content-length").None?
    && (m.opening.Replies? ==> (Bodiless(m.opening) <==> m.transfer.Bare?))
  }

  // ---------- what there is to report ----------

  function SeenStart(o: Opening): Start {
    match o
    case Asks(verb, path, _, _) =>
      Request(if verb in {"GET", "POST"} then verb else "other",
              if path == "/v1/join" then path else if "/v1/join/" <= path then "/v1/join/{networkId}" else "other")
    case Replies(_, status, _) => Response(status)
  }

  function SeenFraming(t: Transfer): Framing {
    match t
    case Bare => NoBody
    case Sized(body) => Length(|body|)
    case Parts(_, _) => Chunked
  }

  predicate IsEncoded(fields: seq<Field>) {
    var v := ValueOf(fields, "content-encoding");
    v.Some? && !EqIgnoreCase(v.value, "identity")
  }

  predicate HasMediaType(fields: seq<Field>, media: string) {
    var v := ValueOf(fields, "content-type");
    v.Some? && EqIgnoreCase(Trim(Before(v.value, ';')), media)
  }

  function SeenContent(m: Printed): Content {
    if IsEncoded(m.fields) then Other
    else if HasMediaType(m.fields, "application/sdp") then Sdp
    else
      var v := ValueOf(m.fields, "content-type");
      if m.opening.Replies? && v.Some? && "application/json" <= v.value then Json else Other
  }

  function SeenHead(m: Printed): Head {
    Head(SeenStart(m.opening), SeenFraming(m.transfer), IsEncoded(m.fields), SeenContent(m))
  }

  function Body(t: Transfer): seq<byte> {
    match t
    case Bare => []
    case Sized(body) => body
    case Parts(pieces, _) => Carried(pieces)
  }

  function Seen(m: Printed): Event { Message(SeenHead(m), Body(m.transfer)) }

  // ---------- the head ----------

  lemma FieldIsLine(f: Field)
    requires PlainField(f)
    ensures L.OneLine(FieldLine(f)) && FieldLine(f) != ""
  {
  }

  lemma LinesArePlain(o: Opening, fields: seq<Field>)
    requires PlainOpening(o) && PlainFields(fields)
    ensures BlockLines(HeadLines(o, fields)) && L.AllOneLine(HeadLines(o, fields))
  {
    hide FieldLine, PlainField;
    L.WordsOneLine(OpeningWords(o));
    var ls := HeadLines(o, fields);
    forall i | 0 <= i < |ls| ensures L.OneLine(ls[i]) && ls[i] != "" {
      if i > 0 {
        assert PlainField(fields[i - 1]);
        FieldIsLine(fields[i - 1]);
      }
    }
  }

  lemma TargetPath(path: string, query: Option<string>)
    requires '?' !in path
    ensures Before(Target(path, query), '?') == path
    ensures "/v1/join/" <= Target(path, query) <==> "/v1/join/" <= path
  {
    SplitNot(path, '?');
    if query.Some? {
      var t := Target(path, query);
      assert t == path + ['?'] + query.value;
      SplitAt(path, '?', query.value);
      assert t[..|path|] == path;
      assert t[|path|] == '?';
      assert '?' !in "/v1/join/";
      if |path| >= 9 {
        assert t[..9] == path[..9];
      }
    }
  }

  lemma OpeningRead(o: Opening)
    requires PlainOpening(o)
    ensures StartLine(o.Replies?, OpeningWords(o)) == Ok(SeenStart(o))
  {
    hide Before, Target;
    match o
    case Asks(verb, path, query, version) => TargetPath(path, query);
    case Replies(version, status, phrase) => ShowParsesUnsigned(status, Decimal, U16_BOUND);
  }

  lemma {:induction false} ValueOfAppend(a: seq<Field>, b: seq<Field>, name: string)
    ensures ValueOf(a + b, name) == if ValueOf(a, name).Some? then ValueOf(a, name) else ValueOf(b, name)
  {
    if a == [] {
      assert a + b == b;
    } else {
      assert (a + b)[1..] == a[1..] + b;
      ValueOfAppend(a[1..], b, name);
    }
  }

  lemma NamesDiffer()
    ensures !EqIgnoreCase("Content-Length", "transfer-encoding") && !EqIgnoreCase("Transfer-Encoding", "content-length")
    ensures !EqIgnoreCase("Content-Length", "content-type") && !EqIgnoreCase("Transfer-Encoding", "content-type")
    ensures !EqIgnoreCase("Content-Length", "content-encoding")
    ensures !EqIgnoreCase("Transfer-Encoding", "content-encoding")
  {
    assert Lower("Content-Length"[8]) == 'l' && Lower("content-encoding"[8]) == 'e';
  }

  lemma NamesAgree()
    ensures EqIgnoreCase("Content-Length", "content-length") && EqIgnoreCase("Transfer-Encoding", "transfer-encoding")
  {
  }

  lemma FramingValues(t: Transfer)
    ensures var f := FramingFields(t);
      && ValueOf(f, "transfer-encoding") == (if t.Parts? then Some("chunked") else None)
      && ValueOf(f, "content-length") == (if t.Sized? then Some(Show(|t.body|, Decimal)) else None)
      && ValueOf(f, "content-type") == None && ValueOf(f, "content-encoding") == None
  {
    hide EqIgnoreCase, Show;
    NamesDiffer();
    NamesAgree();
  }

  lemma DigitsTrim(n: nat)
    ensures Trim(Show(n, Decimal)) == Show(n, Decimal) && L.OneLine(Show(n, Decimal))
  {
    ShowParses(n, Decimal);
    var d := Show(n, Decimal);
    assert forall i :: 0 <= i < |d| ==> DigitValue(d[i]) < 10;
    assert !IsWhitespace(d[0]) && !IsWhitespace(d[|d| - 1]);
  }

  lemma FramingFieldsArePlain(t: Transfer)
    ensures PlainFields(FramingFields(t))
  {
    hide PlainField;
    match t
    case Bare =>
    case Sized(body) => LengthFieldPlain(|body|);
    case Parts(_, _) => CodingFieldPlain();
  }

  lemma LengthNamePlain()
    ensures ':' !in "Content-Length" && L.OneLine("Content-Length")
  {
  }

  lemma LengthFieldPlain(n: nat)
    ensures PlainField(Field("Content-Length", Show(n, Decimal)))
  {
    hide Trim, Show, L.OneLine;
    LengthNamePlain();
    DigitsTrim(n);
  }

  lemma CodingNamePlain()
    ensures ':' !in "Transfer-Encoding" && L.OneLine("Transfer-Encoding")
  {
  }

  lemma CodingValuePlain()
    ensures L.OneLine("chunked") && Trim("chunked") == "chunked"
  {
  }

  lemma CodingFieldPlain()
    ensures PlainField(Field("Transfer-Encoding", "chunked"))
  {
    hide Trim, L.OneLine;
    CodingNamePlain();
    CodingValuePlain();
  }

  lemma FieldsArePlain(m: Printed)
    requires PlainFields(m.fields)
    ensures PlainFields(AllFields(m))
  {
    hide PlainField, FramingFields;
    FramingFieldsArePlain(m.transfer);
  }

  /** Looking up any of the four names in the printed lines finds what the message says. */
  lemma AllValues(m: Printed, name: string)
    requires PlainFields(m.fields)
    ensures Lookup(Headers(FieldLines(AllFields(m))), name) ==
      if ValueOf(m.fields, name).Some? then ValueOf(m.fields, name) else ValueOf(FramingFields(m.transfer), name)
  {
    FieldsArePlain(m);
    FieldsRead(AllFields(m), name);
    ValueOfAppend(m.fields, FramingFields(m.transfer), name);
  }

  lemma FramingRead(m: Printed)
    requires Plain(m)
    ensures FramingOf(SeenStart(m.opening), Headers(FieldLines(AllFields(m)))) == Ok(SeenFraming(m.transfer))
  {
    hide Headers, Lookup, FieldLines, ValueOf, PlainFields, PlainOpening, ParseUnsigned, Show;
    AllValues(m, "transfer-encoding");
    AllValues(m, "content-length");
    FramingValues(m.transfer);
    if m.transfer.Sized? {
      ShowParsesUnsigned(|m.transfer.body|, Decimal, USIZE_BOUND);
    }
  }

  lemma ContentRead(m: Printed)
    requires Plain(m)
    ensures var headers := Headers(FieldLines(AllFields(m)));
      var coding := Lookup(headers, "content-encoding");
      && IsEncoded(m.fields) == (coding.Some? && !EqIgnoreCase(coding.value, "identity"))
      && ContentOf(SeenStart(m.opening), headers, IsEncoded(m.fields)) == SeenContent(m)
  {
    hide Headers, Lookup, FieldLines, ValueOf, PlainFields, PlainOpening, EqIgnoreCase, Trim, Before;
    AllValues(m, "content-type");
    AllValues(m, "content-encoding");
    FramingValues(m.transfer);
  }

  lemma HeadRead(m: Printed)
    requires Plain(m)
    ensures var block := EncodeLines(HeadLines(m.opening, AllFields(m)));
      |block| >= 2 && ParseHead(block[..|block| - 2], m.opening.Replies?) == Ok(SeenHead(m))
  {
    hide EncodeLines, PlainFields, StartLine, FramingOf, ContentOf, Headers, Lookup, Words, Lines, Join, Utf8.Decode;
    hide SeenStart, SeenFraming, SeenContent, IsEncoded, BlockLines;
    var fields := AllFields(m);
    var ls := HeadLines(m.opening, fields);
    FieldsArePlain(m);
    LinesArePlain(m.opening, fields);
    assert ls[|ls| - 1] != "" by { LastIsNotEmpty(ls); }
    HeadDecodes(ls);
    LinesOfJoin(ls);
    WordsOfJoin(OpeningWords(m.opening));
    assert ls[1..] == FieldLines(fields);
    OpeningRead(m.opening);
    FramingRead(m);
    ContentRead(m);
  }

  lemma LastIsNotEmpty(ls: seq<string>)
    requires ls != [] && BlockLines(ls)
    ensures ls[|ls| - 1] != ""
  {
  }

  // ---------- the body ----------

  lemma CrlfLineFirst(l: seq<byte>, rest: seq<byte>)
    requires CrlfLine(l)
    ensures Find(l + rest, CRLF) == Some(|l| - 2)
  {
    FindStable(l, CRLF, rest);
  }

  /** A text without line feeds, and CRLF, is such a line. */
  lemma TextLine(e: seq<byte>)
    requires LF !in e
    ensures CrlfLine(e + CRLF)
  {
    var s := e + CRLF;
    forall j | 0 <= j < |e| ensures !At(s, CRLF, j) {
      assert s[j + 1] == if j + 1 < |e| then e[j + 1] else 13;
      assert s[j..j + 2][1] == s[j + 1];
    }
    assert s[|e|..|e| + 2] == CRLF;
    FindIs(s, CRLF, |e|);
  }

  /** The plain size line, lower-case hexadecimal, is a size line. */
  lemma PlainSizeLine(n: nat)
    requires n < USIZE_BOUND
    ensures SizeLine(SizeText(n) + CRLF, n)
  {
    hide CrlfLine;
    HexIsPlain(n);
    SplitNot(Show(n, Hex), ';');
    Utf8.EncodeDecodes(Show(n, Hex));
    ShowParsesUnsigned(n, Hex, USIZE_BOUND);
    P.NoLfByte(Show(n, Hex));
    TextLine(SizeText(n));
    assert (SizeText(n) + CRLF)[..|SizeText(n)|] == SizeText(n);
  }

  lemma {:induction false} TrailersSeen(pre: seq<byte>, trailers: seq<seq<byte>>, rest: seq<byte>)
    requires forall i :: 0 <= i < |trailers| ==> CrlfLine(trailers[i]) && |trailers[i]| > 2
    ensures TrailerEnd(pre + Flat(trailers) + CRLF + rest, |pre|) == Some(|pre| + |Flat(trailers)| + 2)
    decreases |trailers|
  {
    hide Find, CrlfLine;
    var buf := pre + Flat(trailers) + CRLF + rest;
    if trailers == [] {
      assert buf[|pre|..] == CRLF + rest;
      EmptyLineFirst(rest);
    } else {
      var l, tail := trailers[0], Flat(trailers[1..]);
      assert buf[|pre|..] == l + (tail + CRLF + rest);
      CrlfLineFirst(l, tail + CRLF + rest);
      assert buf == (pre + l) + tail + CRLF + rest;
      TrailersSeen(pre + l, trailers[1..], rest);
    }
  }

  lemma EmptyLineFirst(rest: seq<byte>)
    ensures Find(CRLF + rest, CRLF) == Some(0)
  {
    TextLine([]);
    assert [] + CRLF == CRLF;
    CrlfLineFirst(CRLF, rest);
  }

  lemma PieceSeen(pre: seq<byte>, p: Piece, rest: seq<byte>, sofar: nat)
    requires p.data != [] && SizeLine(p.line, |p.data|) && sofar + |p.data| <= LIMIT
    ensures var buf := pre + PieceWire(p) + rest;
      var from := |pre| + |p.line|;
      && ChunkAt(buf, |pre|, sofar) == Data(from, |p.data|)
      && from + |p.data| + 2 == |pre + PieceWire(p)| && buf[from..from + |p.data|] == p.data
  {
    hide Find, ChunkSizeOf;
    var n := |p.line| - 2;
    var buf := pre + PieceWire(p) + rest;
    assert buf[|pre|..] == p.line + (p.data + CRLF + rest);
    CrlfLineFirst(p.line, p.data + CRLF + rest);
    assert buf[|pre|..|pre| + n] == p.line[..n];
    var from := |pre| + |p.line|;
    assert buf[from..from + |p.data|] == p.data && buf[from + |p.data|..from + |p.data| + 2] == CRLF;
  }

  lemma EndingSeen(pre: seq<byte>, e: Ending, rest: seq<byte>, sofar: nat)
    requires SeenEnding(e) && sofar <= LIMIT
    ensures ChunkAt(pre + EndingWire(e) + rest, |pre|, sofar) == Last(|pre + EndingWire(e)|)
  {
    hide Find, ChunkSizeOf, TrailerEnd, Flat;
    var tail := Flat(e.trailers) + CRLF + rest;
    var buf := pre + EndingWire(e) + rest;
    assert buf[|pre|..] == e.line + tail;
    CrlfLineFirst(e.line, tail);
    assert buf[|pre|..|pre| + |e.line| - 2] == e.line[..|e.line| - 2];
    assert buf == (pre + e.line) + Flat(e.trailers) + CRLF + rest;
    TrailersSeen(pre + e.line, e.trailers, rest);
  }

  /** Chunked coding is undone: any split of a body, any size lines, any trailers. */
  lemma {:induction false} ChunksSeen(pre: seq<byte>, ps: seq<Piece>, e: Ending, rest: seq<byte>, body: seq<byte>)
    requires SeenPieces(ps) && SeenEnding(e) && |body| + |Carried(ps)| <= LIMIT
    ensures Chunks(pre + PiecesWire(ps) + EndingWire(e) + rest, |pre|, body) ==
      Ok(Some(Framed(|pre + PiecesWire(ps) + EndingWire(e)|, body + Carried(ps))))
    decreases |ps|
  {
    hide ChunkAt, PieceWire, EndingWire, SeenEnding, SizeLine;
    var buf := pre + PiecesWire(ps) + EndingWire(e) + rest;
    if ps == [] {
      assert buf == pre + EndingWire(e) + rest;
      EndingSeen(pre, e, rest, |body|);
      assert body + [] == body;
    } else {
      var first, tail := PieceWire(ps[0]), PiecesWire(ps[1..]);
      assert buf == pre + first + (tail + EndingWire(e) + rest);
      PieceSeen(pre, ps[0], tail + EndingWire(e) + rest, |body|);
      assert buf == (pre + first) + tail + EndingWire(e) + rest;
      ChunksSeen(pre + first, ps[1..], e, rest, body + ps[0].data);
      assert (body + ps[0].data) + Carried(ps[1..]) == body + Carried(ps);
    }
  }

  lemma BodySeen(pre: seq<byte>, t: Transfer)
    requires PlainTransfer(t)
    ensures BodyAt(pre + Payload(t), |pre|, SeenFraming(t), false) == Ok(Some(Framed(|pre + Payload(t)|, Body(t))))
  {
    hide Chunks, PiecesWire, EndingWire, Carried, SeenPieces, SeenEnding;
    match t
    case Bare => assert pre + [] == pre;
    case Sized(body) => assert (pre + body)[|pre|..|pre| + |body|] == body;
    case Parts(ps, e) =>
      assert pre + Payload(t) == pre + PiecesWire(ps) + EndingWire(e) + [];
      assert pre + Payload(t) == pre + PiecesWire(ps) + EndingWire(e);
      ChunksSeen(pre, ps, e, [], []);
      assert [] + Carried(ps) == Carried(ps);
  }

  /** Every body within the limit can be printed in chunks: in one, with plain size lines. */
  lemma EveryBodyHasParts(body: seq<byte>) returns (t: Transfer)
    requires |body| <= LIMIT
    ensures t.Parts? && PlainTransfer(t) && Body(t) == body
  {
    hide SizeLine;
    PlainSizeLine(0);
    var ending := Ending(SizeText(0) + CRLF, []);
    if body == [] {
      t := Parts([], ending);
    } else {
      PlainSizeLine(|body|);
      var piece := Piece(SizeText(|body|) + CRLF, body);
      assert Carried([piece]) == body by { assert [piece][1..] == [] && body + [] == body; }
      t := Parts([piece], ending);
    }
  }

  // ---------- one message, and a stream of them ----------

  /**
   Reading undoes printing: the event names the method, path class, status, framing, coding and
   body, for exactly the heads whose blank line starts within the limit. Those whose blank line
   also ends within a byte of it can be cut anywhere.
   */
  lemma PrintedIsSeen(m: Printed)
    requires Plain(m)
    ensures Frame(Print(m), m.opening.Replies?, false) ==
      if |PrintHead(m)| <= HEADER_LIMIT + 4 then Ok(Some(Found(|Print(m)|, Seen(m)))) else Err(HeaderLimit)
    ensures ObserverProofs.HeadFits(Print(m)) <==> |PrintHead(m)| <= HEADER_LIMIT + 1
  {
    hide FindDelimiter, ParseHead, BodyAt, EncodeLines, BlockLines, PlainFields, PlainOpening;
    hide Payload, Body, SeenFraming, SeenStart, SeenContent, IsEncoded, HeadLines, ValueOf;
    var ls := HeadLines(m.opening, AllFields(m));
    BlankLine(m);
    HeadRead(m);
    BodySeen(PrintHead(m), m.transfer);
    var block := EncodeLines(ls);
    assert Print(m)[..|block| - 2] == block[..|block| - 2] by {
      assert Print(m) == block + (CRLF + Payload(m.transfer));
    }
    assert |PrintHead(m)| == |block| + 2;
  }

  lemma BlankLine(m: Printed)
    requires Plain(m)
    ensures FindDelimiter(Print(m)) == Some(Delimiter(|PrintHead(m)| - 4, 4))
  {
    hide FindDelimiter, EncodeLines, BlockLines, PlainFields, PlainOpening, HeadLines, Payload, ValueOf;
    FieldsArePlain(m);
    LinesArePlain(m.opening, AllFields(m));
    HasOpening(m.opening, AllFields(m));
    PrintedDelimiter(HeadLines(m.opening, AllFields(m)), Payload(m.transfer));
  }

  lemma HasOpening(o: Opening, fields: seq<Field>)
    ensures HeadLines(o, fields) != []
  {
  }

  predicate Fits(m: Printed, response: bool) {
    Plain(m) && m.opening.Replies? == response && |PrintHead(m)| <= HEADER_LIMIT + 1 && !TlsLike(Print(m))
  }

  function PrintAll(ms: seq<Printed>): (r: seq<seq<byte>>)
    ensures |r| == |ms| && forall i :: 0 <= i < |r| ==> r[i] == Print(ms[i])
  {
    if ms == [] then [] else [Print(ms[0])] + PrintAll(ms[1..])
  }

  function SeenAll(ms: seq<Printed>): seq<Event> {
    if ms == [] then [] else [Seen(ms[0])] + SeenAll(ms[1..])
  }

  lemma {:induction false} AllSeen(ms: seq<Printed>, response: bool)
    requires forall i :: 0 <= i < |ms| ==> Fits(ms[i], response)
    ensures C.AllObservable(PrintAll(ms), response) && C.EventsOf(PrintAll(ms), response) == SeenAll(ms)
  {
    hide Frame, Print, Seen, TlsLike, Plain, PrintHead, ObserverProofs.HeadFits;
    if ms != [] {
      AllSeen(ms[1..], response);
      PrintedIsSeen(ms[0]);
      var all := PrintAll(ms);
      assert all[1..] == PrintAll(ms[1..]);
      assert C.Observable(all[0], response);
      forall i | 0 <= i < |all| ensures C.Observable(all[i], response) {
        if i > 0 {
          assert all[i] == all[1..][i - 1];
        }
      }
    }
  }

  /**
   A stream of printed messages, cut anyhow within the inspection limit, is reported message by
   message: the events are what was printed, in order, and nothing stays pending.
   */
  lemma StreamIsSeen(ms: seq<Printed>, cuts: seq<seq<byte>>, response: bool)
    requires forall i :: 0 <= i < |ms| ==> Fits(ms[i], response)
    requires Flat(cuts) == Flat(PrintAll(ms)) && C.SafeCut(PrintAll(ms), 0, cuts)
    ensures FeedAll(State([], false, []), cuts, response) == State([], false, SeenAll(ms))
  {
    hide Frame, Print, Seen, TlsLike, FeedAll;
    AllSeen(ms, response);
    NothingIsQuiet(response);
    assert Flat(PrintAll(ms)) + [] == Flat(PrintAll(ms));
    C.CutIndependence(cuts, PrintAll(ms), [], response);
  }

  lemma NothingIsQuiet(response: bool)
    ensures ObserverProofs.Quiet([], response) && !TlsLike([])
  {
    C.NothingQuiet(State([], false, []), response);
  }

  // ---------- heads just over the limit ----------

  /** A request whose only header has a value of a given length. */
  function LongRequest(n: nat): Printed {
    Printed(Asks("GET", "/", None, "HTTP/1.1"), [Field("X", Letters(n))], Bare)
  }

  lemma LettersArePlain(n: nat)
    ensures |Letters(n)| == n && L.OneLine(Letters(n)) && Trim(Letters(n)) == Letters(n) && Utf8.Ascii(Letters(n))
  {
    var s := Letters(n);
    assert !IsWhitespace('a');
    assert TrimStart(s) == s && TrimEnd(s) == s;
  }

  lemma LongRequestIsPlain(n: nat)
    ensures Plain(LongRequest(n))
  {
    hide Letters, Trim;
    LettersArePlain(n);
    var m := LongRequest(n);
    assert IsWord("GET") && IsWord("/") && IsWord("HTTP/1.1") && '?' !in "/";
    assert PlainField(m.fields[0]);
    assert m.fields[1..] == [];
    assert ValueOf(m.fields, "transfer-encoding").None? && ValueOf(m.fields, "content-length").None?;
  }

  lemma RequestLine()
    ensures var l := Join(["GET", "/", "HTTP/1.1"], " "); |l| == 14 && Utf8.Ascii(l) && l[0] == 'G'
  {
    JoinThree("GET", "/", "HTTP/1.1", " ");
    var l := "GET" + " " + ("/" + " " + "HTTP/1.1");
    assert l == "GET / HTTP/1.1";
  }

  lemma LongRequestLength(n: nat)
    ensures |PrintHead(LongRequest(n))| == n + 23 && Print(LongRequest(n))[0] == 71
  {
    hide Letters, Join;
    LettersArePlain(n);
    RequestLine();
    var m := LongRequest(n);
    var a, b := Join(["GET", "/", "HTTP/1.1"], " "), "X" + ":" + (" " + Letters(n));
    assert AllFields(m) == m.fields by { assert m.fields + [] == m.fields; }
    assert FieldLines(m.fields) == [b] by { assert m.fields[1..] == []; }
    assert HeadLines(m.opening, m.fields) == [a, b];
    assert Utf8.Ascii(b);
    Utf8.AsciiLength(a);
    Utf8.AsciiLength(b);
    assert [a, b][1..] == [b] && [b][1..] == [];
    assert EncodeLines([b]) == Utf8.Encode(b) + CRLF + [];
    assert EncodeLines([a, b]) == Utf8.Encode(a) + CRLF + EncodeLines([b]);
  }

  /** Requests two to four bytes over the limit: reported when fed whole, given up when fed but for one byte. */
  lemma LateRequestDependsOnCut(over: nat)
    requires 2 <= over <= 4
    ensures var m := LongRequest(HEADER_LIMIT + over - 23); var n := |Print(m)| - 1;
      && Plain(m) && |PrintHead(m)| == HEADER_LIMIT + over
      && FeedAll(State([], false, []), [Print(m)], false) == State([], false, [Seen(m)])
      && FeedAll(State([], false, []), [Print(m)[..n], Print(m)[n..]], false) == State([], true, [Skipped(HeaderLimit)])
  {
    hide Letters, Plain, PrintHead, Seen, FindDelimiter, FeedAll, Frame, ObserverProofs.HeadFits;
    var m := LongRequest(HEADER_LIMIT + over - 23);
    LongRequestIsPlain(HEADER_LIMIT + over - 23);
    LongRequestLength(HEADER_LIMIT + over - 23);
    PrintedIsSeen(m);
    Limits.LateHeadDependsOnCut(Print(m), false);
    BlankLine(m);
    assert PrintHead(m) + [] == PrintHead(m);
  }
}
