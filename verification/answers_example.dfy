/** An answer that the relay accepts and its peer cannot read. */
module AnswersExample {
  import opened Net
  import opened Text
  import opened Chunking
  import opened Answers
  import opened AnswersPrint
  import opened AnswersHeads
  import opened AnswersRerelay
  import opened AnswersFraming
  import Utf8
  import Sdp

  const STATUS_LINE: string := "HTTP/1.1 200 OK"
  const TYPE_LINE: string := "Content-Type" + ":" + " application/sdp"
  const LAST_LINE: string := "X: y\n"

  // ---------- three lines ----------

  lemma ThreeLines(a: string, b: string, c: string)
    requires a != [] && b != [] && c != [] && NoCrlf(a) && NoCrlf(b) && NoCrlf(c)
    requires "HTTP/1." <= a && !Ends(a, '\n') && !Ends(b, '\n') && Ends(c, '\n')
    ensures AcceptedHead([a, b, c]) && HeadTextOf([a, b, c]) == a + "\r\n" + (b + "\r\n" + c)
  {
    hide NoCrlf, Ends;
    JoinThree(a, b, c, "\r\n");
    assert [a, b, c][2] == c;
  }

  lemma ThreeHeaders(a: string, b: string, c: string, kb: string, vb: string, kc: string, vc: string, name: string)
    requires SplitOnce(b, ':') == Some((kb, vb)) && SplitOnce(c, ':') == Some((kc, vc))
    ensures Header([a, b, c], name) ==
      if EqIgnoreCase(kb, name) then Some(Trim(vb)) else if EqIgnoreCase(kc, name) then Some(Trim(vc)) else None
  {
    hide SplitOnce, EqIgnoreCase, Trim;
    assert [a, b, c][1..] == [b, c] && [b, c][1..] == [c] && [c][1..] == [];
    assert HeaderIn([c], name) == if EqIgnoreCase(kc, name) then Some(Trim(vc)) else None;
  }

  lemma ThreeStay(a: string, b: string, c: string)
    requires !FramingLine(a) && !FramingLine(b) && !FramingLine(c)
    ensures Remaining([a, b, c]) == [a, b, c]
  {
    hide FramingLine;
    assert [a, b, c][1..] == [b, c] && [b, c][1..] == [c] && [c][1..] == [];
    assert Remaining([c]) == [c] && Remaining([b, c]) == [b] + [c];
  }

  lemma NotFraming(line: string, key: string, value: string)
    requires SplitOnce(line, ':') == Some((key, value)) && |key| < 17 && |key| != 14 && |key| != 7
    ensures !FramingLine(line)
  {
    hide SplitOnce;
  }

  // ---------- these three ----------

  lemma Shapes()
    ensures NoCrlf(STATUS_LINE) && NoCrlf(TYPE_LINE) && NoCrlf(LAST_LINE)
    ensures !Ends(STATUS_LINE, '\n') && !Ends(TYPE_LINE, '\n') && Ends(LAST_LINE, '\n')
    ensures "HTTP/1." <= STATUS_LINE
  {
    assert '\r' !in STATUS_LINE && '\r' !in TYPE_LINE && '\r' !in LAST_LINE;
  }

  lemma StatusIs200()
    ensures StatusOf([STATUS_LINE, TYPE_LINE, LAST_LINE]) == Some(200)
  {
    hide Words, Show, ParseUnsigned;
    var w0, w1, w2 := "HTTP/1.1", "200", "OK";
    assert w0 + " " + (w1 + " " + w2) == STATUS_LINE;
    ThreeWords(w0, w1, w2);
    Shown200();
    ShowParsesUnsigned(200, Decimal, U16_BOUND);
  }

  lemma Shown200()
    ensures Show(200, Decimal) == "200"
  {
    assert Show(2, Decimal) == "2";
    assert Show(20, Decimal) == Show(2, Decimal) + ['0'];
    assert Show(200, Decimal) == Show(20, Decimal) + ['0'];
  }

  lemma ThreeWords(a: string, b: string, c: string)
    requires IsWord(a) && IsWord(b) && IsWord(c)
    ensures Words(a + " " + (b + " " + c)) == [a, b, c]
  {
    hide IsWord, Words;
    var ws := [a, b, c];
    JoinThree(a, b, c, " ");
    WordsOfJoin(ws);
  }

  lemma TypeSplits()
    ensures SplitOnce(TYPE_LINE, ':') == Some(("Content-Type", " application/sdp"))
  {
    hide SplitOnce;
    TypeKey("Content-Type", " application/sdp");
    assert [':'] == ":";
  }

  lemma TypeKey(key: string, value: string)
    requires key == "Content-Type"
    ensures SplitOnce(key + [':'] + value, ':') == Some((key, value))
  {
    hide SplitOnce;
    assert ':' !in key;
    SplitAt(key, ':', value);
  }

  lemma LastSplits()
    ensures SplitOnce(LAST_LINE, ':') == Some(("X", " y\n"))
  {
    SplitAt("X", ':', " y\n");
    assert "X" + [':'] + " y\n" == LAST_LINE;
  }

  lemma TypeIsSdp(d: string)
    requires d == "application/sdp"
    ensures Trim(" " + d) == d && Before(d, ';') == d && Trim(d) == d
  {
    assert IsWord(d);
    assert (" " + d)[1..] == d && !IsWhitespace(d[0]) && !IsWhitespace(d[|d| - 1]);
    assert TrimStart(d) == d && TrimEnd(d) == d;
    SplitNot(d, ';');
  }

  lemma Headers(name: string)
    ensures var h := Header([STATUS_LINE, TYPE_LINE, LAST_LINE], name);
      && (|name| == 12 && EqIgnoreCase("Content-Type", name) ==> h == Some(Trim(" application/sdp")))
      && (|name| > 12 ==> h == None)
  {
    hide Header, SplitOnce, Trim;
    TypeSplits();
    LastSplits();
    ThreeHeaders(STATUS_LINE, TYPE_LINE, LAST_LINE, "Content-Type", " application/sdp", "X", " y\n", name);
  }

  function Lines3(): seq<string> { [STATUS_LINE, TYPE_LINE, LAST_LINE] }

  lemma Meaning()
    ensures var ls := Lines3();
      && StatusOf(ls) == Some(200) && IsSdp(ls, 200) && !Compressed(ls) && Dangling(ls) && Remaining(ls) == ls
      && Header(ls, "transfer-encoding") == None && Header(ls, "content-length") == None
  {
    hide Header, Trim, Before, FramingLine, StatusOf, SplitOnce;
    StatusIs200();
    Headers("content-type");
    Headers("content-encoding");
    Headers("transfer-encoding");
    Headers("content-length");
    assert " application/sdp" == " " + "application/sdp";
    TypeIsSdp("application/sdp");
    TypeSplits();
    LastSplits();
    Shapes();
    NotFraming(TYPE_LINE, "Content-Type", " application/sdp");
    NotFraming(LAST_LINE, "X", " y\n");
    StatusLineStays(Lines3());
    ThreeStay(STATUS_LINE, TYPE_LINE, LAST_LINE);
  }

  lemma Accepted3()
    ensures AcceptedHead(Lines3()) && |HeadWire(Lines3())| <= MAX_HEADER
    ensures HeadTextOf(Lines3()) == STATUS_LINE + "\r\n" + (TYPE_LINE + "\r\n" + LAST_LINE)
  {
    hide Ends, NoCrlf, Parts, HeadTextOf;
    Shapes();
    ThreeLines(STATUS_LINE, TYPE_LINE, LAST_LINE);
    Utf8.EncodeBound(HeadTextOf(Lines3()));
    assert |STATUS_LINE| == 15 && |TYPE_LINE| == 29 && |LAST_LINE| == 5;
  }

  /** An answer without framing lines whose last header ends in a bare line feed. */
  lemma SpilledAnswer(ls: seq<string>, status: nat, body: seq<byte>, t: Sdp.IpText, ep: Sdp.Endpoint)
    requires Framed(UntilClose, ls, status, body, []) && |HeadWire(ls)| <= MAX_HEADER && !Compressed(ls)
    requires Dangling(ls) && Remaining(ls) == ls && Sdp.Advertise(body, t, ep).Ok?
    requires |Spill(Sdp.Advertise(body, t, ep).value)| <= MAX_BODY
    ensures var all, s := Spill(Sdp.Advertise(body, t, ep).value), HeadWire(ls) + body;
      && Relay(s, t, ep) == Relayed(HeadWire(ls) + all, None)
      && ReadMessage(Relay(s, t, ep).written) == Ok(Some(Message(HeadWire(ls), ls, status, Body(all, all, [], true))))
  {
    hide StatusOf, IsSdp, Compressed, Sdp.Advertise, ReadMessage, Reprinted, Header, Parts, Dangling;
    hide Spill, HeadWire, Relay, Remaining;
    var sdp := Sdp.Advertise(body, t, ep).value;
    FramedAnswer(UntilClose, ls, status, body, [], t, ep);
    assert Wire(UntilClose, body) + [] == body;
    NothingRelayed(t, ep);
    assert Reprinted(ls, sdp) + [] == Reprinted(ls, sdp);
    DanglingIsHead(ls, sdp);
    DanglingReads(ls, status, sdp, []);
    assert Spill(sdp) + [] == Spill(sdp);
  }

  /** With `X: y` LF for a last header line the peer finds the length line in the body. */
  lemma BareEndIsNotDelivered(body: seq<byte>, t: Sdp.IpText, ep: Sdp.Endpoint)
    requires |body| <= MAX_BODY && Sdp.Advertise(body, t, ep).Ok?
    requires |Spill(Sdp.Advertise(body, t, ep).value)| <= MAX_BODY
    ensures var ls, all := Lines3(), Spill(Sdp.Advertise(body, t, ep).value);
      && Relay(HeadWire(ls) + body, t, ep) == Relayed(HeadWire(ls) + all, None)
      && ReadMessage(HeadWire(ls) + all) == Ok(Some(Message(HeadWire(ls), ls, 200, Body(all, all, [], true))))
  {
    hide StatusOf, IsSdp, Compressed, Sdp.Advertise, ReadMessage, Reprinted, Header, Parts, Dangling, Lines3;
    hide Spill, HeadWire, Relay, Remaining;
    Accepted3();
    Meaning();
    SpilledAnswer(Lines3(), 200, body, t, ep);
  }

  lemma NothingRelayed(t: Sdp.IpText, ep: Sdp.Endpoint)
    ensures Relay([], t, ep) == Relayed([], None)
  {
    hide ReadMessage;
    EmptyStream();
  }
}
