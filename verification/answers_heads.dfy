/** The response heads that the relay accepts, bare line feeds included: printing and reading are inverse. */
module AnswersHeads {
  import opened Net
  import opened Text
  import opened Chunking
  import opened Answers
  import opened AnswersPrint
  import Utf8

  // ---------- texts without a blank line ----------

  /** No blank line: no CR LF at the start and none right behind an LF. */
  predicate NoBlank<T(==)>(u: seq<T>, cr: T, lf: T) {
    && !(|u| >= 2 && u[0] == cr && u[1] == lf)
    && forall i :: 0 <= i < |u| - 2 ==> !(u[i] == lf && u[i + 1] == cr && u[i + 2] == lf)
  }

  predicate Ends<T(==)>(u: seq<T>, lf: T) { u != [] && u[|u| - 1] == lf }

  predicate NoCrlf(l: string) { forall i :: 0 <= i < |l| - 1 ==> !(l[i] == '\r' && l[i + 1] == '\n') }

  /** Behind an LF a text without a blank line has another one. */
  lemma NoBlankBehind<T>(u: seq<T>, i: nat, cr: T, lf: T)
    requires NoBlank(u, cr, lf) && i < |u| && u[i] == lf
    ensures NoBlank(u[i + 1..], cr, lf)
  {
    var v := u[i + 1..];
    if |v| >= 2 {
      assert v[0] == u[i + 1] && v[1] == u[i + 2];
    }
    forall j | 0 <= j < |v| - 2 ensures !(v[j] == lf && v[j + 1] == cr && v[j + 2] == lf) {
      assert v[j] == u[i + 1 + j] && v[j + 1] == u[i + 2 + j] && v[j + 2] == u[i + 3 + j];
    }
  }

  /** Adding one more line keeps a text without a blank line. */
  lemma NoBlankMore<T>(u: seq<T>, l: seq<T>, cr: T, lf: T)
    requires cr != lf && NoBlank(u, cr, lf) && (u == [] || Ends(u, lf))
    requires Ends(l, lf) && (forall i :: 0 <= i < |l| - 1 ==> l[i] != lf) && l != [cr, lf]
    ensures NoBlank(u + l, cr, lf) && Ends(u + l, lf)
  {
    var v, n := u + l, |u|;
    forall i | 0 <= i < |v| - 2 ensures !(v[i] == lf && v[i + 1] == cr && v[i + 2] == lf) {
      BlankStraddles(u, l, cr, lf, i);
    }
    if u == [] {
      assert v == l;
    } else {
      assert v[0] == u[0];
    }
  }

  lemma BlankStraddles<T>(u: seq<T>, l: seq<T>, cr: T, lf: T, i: nat)
    requires cr != lf && NoBlank(u, cr, lf) && (u == [] || Ends(u, lf))
    requires Ends(l, lf) && (forall i :: 0 <= i < |l| - 1 ==> l[i] != lf) && l != [cr, lf]
    requires i < |u + l| - 2
    ensures var v := u + l; !(v[i] == lf && v[i + 1] == cr && v[i + 2] == lf)
  {
    var v, n := u + l, |u|;
    if i >= n {
      assert v[i] == l[i - n];
    } else if i + 2 < n {
      assert v[i] == u[i] && v[i + 1] == u[i + 1] && v[i + 2] == u[i + 2];
    } else if i + 2 == n {
      assert v[i + 1] == u[n - 1];
    } else {
      assert v[i + 1] == l[0] && v[i + 2] == l[1];
    }
  }

  // ---------- the lines of a head ----------

  /** Lines as splitting a head at CR LF gives them: only the last may end in a bare line feed. */
  predicate Parts(ls: seq<string>) {
    && ls != []
    && forall i :: 0 <= i < |ls| ==> NoCrlf(ls[i]) && ls[i] != [] && (i < |ls| - 1 ==> !Ends(ls[i], '\n'))
  }

  predicate AcceptedHead(ls: seq<string>) { ls != [] && Parts(ls) && "HTTP/1." <= ls[0] }

  /** The last line ends in a bare line feed. */
  predicate EndsBare(ls: seq<string>)
    requires ls != []
  {
    Ends(ls[|ls| - 1], '\n')
  }

  /** The head up to its blank line. */
  function HeadTextOf(ls: seq<string>): string
    requires ls != []
  {
    if EndsBare(ls) then Join(ls, "\r\n") else Join(ls, "\r\n") + "\r\n"
  }

  function HeadWire(ls: seq<string>): seq<byte>
    requires ls != []
  {
    Utf8.Encode(HeadTextOf(ls)) + CRLF
  }

  lemma HeadTextStep(ls: seq<string>)
    requires |ls| > 1
    ensures HeadTextOf(ls) == ls[0] + "\r\n" + HeadTextOf(ls[1..])
  {
    assert ls[1..][|ls| - 2] == ls[|ls| - 1];
    var tail := Join(ls[1..], "\r\n");
    assert ls[0] + "\r\n" + (tail + "\r\n") == (ls[0] + "\r\n" + tail) + "\r\n";
  }

  lemma GlueNoBlank(l: string, u: string)
    requires l != [] && NoCrlf(l) && !Ends(l, '\n') && NoBlank(u, '\r', '\n')
    ensures NoBlank(l + "\r\n" + u, '\r', '\n')
  {
    var v := l + "\r\n" + u;
    var n := |l|;
    assert v[n] == '\r' && v[n + 1] == '\n' && forall i :: 0 <= i < n ==> v[i] == l[i];
    forall i | 0 <= i < |v| - 2 ensures !(v[i] == '\n' && v[i + 1] == '\r' && v[i + 2] == '\n') {
      if i >= n + 2 {
        assert v[i] == u[i - n - 2] && v[i + 1] == u[i - n - 1] && v[i + 2] == u[i - n];
      } else if i == n + 1 {
        assert v[i + 1] == u[0] && v[i + 2] == u[1];
      } else if i + 2 < n {
        assert !(l[i + 1] == '\r' && l[i + 2] == '\n');
      }
    }
  }

  lemma OneNoBlank(l: string)
    requires l != [] && NoCrlf(l)
    ensures NoBlank(l, '\r', '\n')
  {
    forall i | 0 <= i < |l| - 2 ensures !(l[i] == '\n' && l[i + 1] == '\r' && l[i + 2] == '\n') {
      assert !(l[i + 1] == '\r' && l[i + 2] == '\n');
    }
    if |l| >= 2 {
      assert !(l[0] == '\r' && l[1] == '\n');
    }
  }

  lemma {:induction false} HeadTextNoBlank(ls: seq<string>)
    requires Parts(ls)
    ensures NoBlank(HeadTextOf(ls), '\r', '\n') && Ends(HeadTextOf(ls), '\n')
    decreases |ls|
  {
    hide NoBlank, NoCrlf;
    if |ls| == 1 {
      if EndsBare(ls) {
        OneNoBlank(ls[0]);
      } else {
        assert NoBlank([], '\r', '\n') by { NothingNoBlank(); }
        GlueNoBlank(ls[0], []);
        assert ls[0] + "\r\n" + [] == ls[0] + "\r\n";
      }
    } else {
      HeadTextStep(ls);
      HeadTextNoBlank(ls[1..]);
      GlueNoBlank(ls[0], HeadTextOf(ls[1..]));
    }
  }

  lemma NothingNoBlank()
    ensures NoBlank<char>([], '\r', '\n')
  {
  }

  // ---------- reading a head ----------

  lemma FirstLineFeed(u: string) returns (i: nat)
    requires Ends(u, '\n')
    ensures i < |u| && u[i] == '\n' && '\n' !in u[..i]
  {
    i := 0;
    while u[i] != '\n'
      invariant i < |u| && '\n' !in u[..i]
      decreases |u| - i
    {
      i := i + 1;
    }
  }

  lemma AnyLineReads(e: seq<byte>, more: seq<byte>)
    requires LF !in e
    ensures ReadLine(e + [LF] + more) == if |e| < MAX_HEADER then Ok(Line(e + [LF], more)) else Err(HeaderTooLarge)
  {
    if |e| < MAX_HEADER {
      RawLineReads(e, more);
    } else {
      CleanOfOne(e, LF);
      FindStable(e + [LF], [LF], more);
    }
  }

  lemma LineSplits(u: string, i: nat)
    requires i < |u| && u[i] == '\n'
    ensures Utf8.Encode(u) == Utf8.Encode(u[..i]) + [LF] + Utf8.Encode(u[i + 1..])
  {
    hide Utf8.Encode;
    assert u == u[..i] + "\n" + u[i + 1..];
    Utf8.EncodeAppend(u[..i], "\n");
    Utf8.EncodeAppend(u[..i] + "\n", u[i + 1..]);
    LfText();
  }

  lemma LfText()
    ensures Utf8.Encode("\n") == [LF]
  {
    assert "\n"[1..] == [];
  }

  lemma CrText(a: string)
    requires Utf8.Encode(a) == [13]
    ensures a == "\r"
  {
    Utf8.LastAscii(a);
    if |a| > 1 {
      EncodeNonEmpty(a[..|a| - 1]);
    }
  }

  lemma NotBlankFirst(u: string, i: nat)
    requires NoBlank(u, '\r', '\n') && i < |u| && u[i] == '\n'
    ensures Utf8.Encode(u[..i]) + [LF] != CRLF
  {
    hide Utf8.Encode;
    var e := Utf8.Encode(u[..i]);
    if e + [LF] == CRLF {
      assert e == (e + [LF])[..|e|] == [13];
      CrText(u[..i]);
    }
  }

  /** What reading on makes of a head that the bytes so far begin. */
  function Within(all: seq<byte>, rest: seq<byte>): Checked<Line> {
    if |all| <= MAX_HEADER then Ok(Line(all, rest)) else Err(HeaderTooLarge)
  }

  lemma RegroupLine(raw: seq<byte>, l: seq<byte>, tail: seq<byte>, rest: seq<byte>)
    ensures (l + tail) + CRLF + rest == l + (tail + CRLF + rest)
    ensures (raw + l) + tail + CRLF == raw + (l + tail) + CRLF
  {
  }

  /** A text without a blank line, then the blank line: one head, if it is not too large. */
  lemma {:induction false} TextReads(raw: seq<byte>, u: string, rest: seq<byte>)
    requires NoBlank(u, '\r', '\n') && (u == [] || Ends(u, '\n')) && |raw| <= MAX_HEADER
    ensures ReadHead(raw, Utf8.Encode(u) + CRLF + rest) == Within(raw + Utf8.Encode(u) + CRLF, rest)
    decreases |u|
  {
    hide ReadLine, NoBlank;
    if u == [] {
      EmptyLineReads(rest);
      assert [] + CRLF + rest == CRLF + rest && raw + [] + CRLF == raw + CRLF;
    } else {
      var i := FirstLineFeed(u);
      var a, b := u[..i], u[i + 1..];
      var l, tail := Utf8.Encode(a) + [LF], Utf8.Encode(b);
      LineSplits(u, i);
      RegroupLine(raw, l, tail, rest);
      NoLfByte(a);
      AnyLineReads(Utf8.Encode(a), tail + CRLF + rest);
      NotBlankFirst(u, i);
      NoBlankBehind(u, i, '\r', '\n');
      assert b == [] || Ends(b, '\n');
      if |raw + l| <= MAX_HEADER {
        TextReads(raw + l, b, rest);
      }
    }
  }

  // ---------- the lines of a text ----------

  lemma NoCrlfIsClean(l: string)
    requires NoCrlf(l)
    ensures Clean(l, "\r\n")
  {
    var s := l + "\r\n";
    assert At(s, "\r\n", |l|);
    forall j: nat | j < |l| ensures !At(s, "\r\n", j) {
      assert s[j] == l[j];
      if j + 1 < |l| {
        assert s[j + 1] == l[j + 1];
      } else {
        assert s[j + 1] == '\r';
      }
    }
    FindIs(s, "\r\n", |l|);
  }

  /** No CR LF is left at the end of joined lines. */
  lemma JoinKeepsEnd(ls: seq<string>)
    requires Parts(ls)
    ensures TrimEndCrlf(Join(ls, "\r\n")) == Join(ls, "\r\n")
  {
    hide Parts, NoCrlf;
    PartsSplit(ls);
    LastPart(ls);
    JoinEnds(ls, "\r\n");
    var j, l := Join(ls, "\r\n"), ls[|ls| - 1];
    if |ls| > 1 {
      BeforeEnd(j, l);
    }
    EndOfPart(l);
  }

  lemma LastPart(ls: seq<string>)
    requires Parts(ls)
    ensures ls != [] && ls[|ls| - 1] != [] && NoCrlf(ls[|ls| - 1])
  {
  }

  lemma BeforeEnd(j: string, l: string)
    requires l != [] && |j| >= 2 + |l| && j[|j| - 2 - |l|..] == "\r\n" + l
    ensures j[|j| - 1] == l[|l| - 1] && j[|j| - 2] == if |l| == 1 then '\n' else l[|l| - 2]
    ensures j[|j| - 2..] == [j[|j| - 2], j[|j| - 1]]
  {
    var e := j[|j| - 2 - |l|..];
    assert e[|e| - 1] == j[|j| - 1] && e[|e| - 2] == j[|j| - 2];
  }

  lemma EndOfPart(l: string)
    requires l != [] && NoCrlf(l)
    ensures |l| >= 2 ==> !(l[|l| - 2] == '\r' && l[|l| - 1] == '\n') && l[|l| - 2..] == [l[|l| - 2], l[|l| - 1]]
  {
  }

  /** The lines of a printed head are the lines that were printed. */
  lemma LinesOfText(ls: seq<string>)
    requires Parts(ls)
    ensures HeadLines(HeadTextOf(ls) + "\r\n") == ls
  {
    hide Parts, TrimEndCrlf;
    var j := Join(ls, "\r\n");
    PartsAreClean(ls);
    TrimOne(HeadTextOf(ls));
    TrimOne(j);
    JoinKeepsEnd(ls);
    SplitJoin(ls, "\r\n");
  }

  lemma PartsAreClean(ls: seq<string>)
    requires Parts(ls)
    ensures ls != [] && forall i :: 0 <= i < |ls| ==> Clean(ls[i], "\r\n")
  {
    hide NoCrlf, Clean;
    forall i | 0 <= i < |ls| ensures Clean(ls[i], "\r\n") {
      NoCrlfIsClean(ls[i]);
    }
  }

  // ---------- and back ----------

  predicate EndsCrlf(s: string) { |s| >= 2 && s[|s| - 2] == '\r' && s[|s| - 1] == '\n' }

  lemma NoneIsNoCrlf(s: string, n: nat)
    requires n <= |s| && forall j :: 0 <= j < n - 1 ==> !At(s, "\r\n", j)
    ensures NoCrlf(s[..n])
  {
    var l := s[..n];
    forall i | 0 <= i < |l| - 1 ensures !(l[i] == '\r' && l[i + 1] == '\n') {
      assert !At(s, "\r\n", i);
      assert s[i..i + 2] == [l[i], l[i + 1]];
    }
  }

  lemma {:induction false} SplitParts(s: string)
    requires s != [] && NoBlank(s, '\r', '\n') && !EndsCrlf(s)
    ensures var ls := SplitOn(s, "\r\n"); Parts(ls) && Join(ls, "\r\n") == s && EndsBare(ls) == Ends(s, '\n')
    decreases |s|
  {
    hide NoCrlf, NoBlank, Parts, Find;
    var r := Find(s, "\r\n");
    if r.None? {
      FindNone(s, "\r\n");
      NoneIsNoCrlf(s, |s|);
      assert s[..|s|] == s;
      assert Parts([s]) by { OnePart(s); }
    } else {
      var i := r.value;
      FindSome(s, "\r\n");
      NoneIsNoCrlf(s, i);
      SplitHere(s, i);
      var tail := SplitOn(s[i + 2..], "\r\n");
      SplitParts(s[i + 2..]);
      PartsBehind(s[..i], tail);
      assert s == s[..i] + "\r\n" + s[i + 2..];
    }
  }

  lemma PartsBehind(l: string, tail: seq<string>)
    requires Parts(tail) && l != [] && NoCrlf(l) && !Ends(l, '\n')
    ensures var ls := [l] + tail;
      Parts(ls) && EndsBare(ls) == EndsBare(tail) && Join(ls, "\r\n") == l + "\r\n" + Join(tail, "\r\n")
  {
    hide NoCrlf, Ends;
    var ls := [l] + tail;
    assert ls[1..] == tail && ls[|ls| - 1] == tail[|tail| - 1];
  }

  lemma PartsSplit(ls: seq<string>)
    requires Parts(ls)
    ensures ls != [] && ls[0] != [] && NoCrlf(ls[0])
    ensures |ls| > 1 ==> !Ends(ls[0], '\n') && Parts(ls[1..]) && EndsBare(ls[1..]) == EndsBare(ls)
  {
    hide NoCrlf;
  }

  lemma OnePart(l: string)
    requires l != [] && NoCrlf(l)
    ensures Parts([l])
  {
  }

  lemma SplitHere(s: string, i: nat)
    requires NoBlank(s, '\r', '\n') && !EndsCrlf(s) && At(s, "\r\n", i)
    ensures s[..i] != [] && !Ends(s[..i], '\n') && s[i..i + 2] == "\r\n"
    ensures var t := s[i + 2..]; t != [] && NoBlank(t, '\r', '\n') && !EndsCrlf(t) && t[|t| - 1] == s[|s| - 1]
  {
    assert s[i..i + 2][0] == s[i] && s[i..i + 2][1] == s[i + 1];
    var t := s[i + 2..];
    NoBlankBehind(s, i + 1, '\r', '\n');
    if |t| >= 2 {
      assert t[|t| - 2] == s[|s| - 2];
    }
  }

  /** Every text that ends in a line feed and holds no blank line is the text of its lines. */
  lemma TextOfLines(u: string)
    requires NoBlank(u, '\r', '\n') && Ends(u, '\n')
    ensures var ls := HeadLines(u + "\r\n"); Parts(ls) && HeadTextOf(ls) == u
  {
    hide NoBlank, Parts;
    TrimOne(u);
    if EndsCrlf(u) {
      var v := u[..|u| - 2];
      assert u == v + "\r\n";
      CutEnd(u, v);
      TrimOne(v);
      TrimNone(v);
      SplitParts(v);
    } else {
      assert TrimEndCrlf(u) == u by {
        if |u| >= 2 { assert u[|u| - 2..] == [u[|u| - 2], u[|u| - 1]]; }
      }
      SplitParts(u);
    }
  }

  lemma CutEnd(u: string, v: string)
    requires NoBlank(u, '\r', '\n') && u == v + "\r\n"
    ensures v != [] && !Ends(v, '\n') && NoBlank(v, '\r', '\n')
  {
    var n := |v|;
    assert u[n] == '\r' && u[n + 1] == '\n' && forall i :: 0 <= i < n ==> u[i] == v[i];
  }

  // ---------- reading a printed head ----------

  /** What the relay makes of a head with these lines. */
  function ReadBehind(ls: seq<string>, rest: seq<byte>): (r: Checked<Option<Message>>)
    requires ls != []
  {
    if |HeadWire(ls)| > MAX_HEADER then Err(HeaderTooLarge)
    else
      match StatusOf(ls)
      case None => Err(InvalidStatus)
      case Some(status) =>
        if IsSdp(ls, status) && Compressed(ls) then Err(CompressedSdp)
        else
          match ReadBody(ls, status, rest)
          case Err(e) => Err(e)
          case Ok(body) => Ok(Some(Message(HeadWire(ls), ls, status, body)))
  }

  lemma HttpStart(l: string)
    requires "HTTP/1." <= l
    ensures Utf8.Encode("HTTP/1.") <= Utf8.Encode(l)
  {
    assert l == "HTTP/1." + l[7..];
    Utf8.EncodeAppend("HTTP/1.", l[7..]);
  }

  lemma TextStart(ls: seq<string>)
    requires Parts(ls)
    ensures ls[0] <= HeadTextOf(ls)
  {
    hide Parts;
    assert ls != [] by { PartsAreClean(ls); }
    if |ls| > 1 {
      HeadTextStep(ls);
    }
  }

  lemma StartBeforeLf(u: string, i: nat)
    requires "HTTP/1." <= u && i < |u| && u[i] == '\n'
    ensures "HTTP/1." <= u[..i]
  {
    assert forall j :: 0 <= j < 7 ==> u[j] == "HTTP/1."[j];
  }

  lemma DecodedHead(ls: seq<string>)
    requires Parts(ls)
    ensures Utf8.Decode(HeadWire(ls)) == Some(HeadTextOf(ls) + "\r\n")
  {
    CrlfText();
    Utf8.EncodeAppend(HeadTextOf(ls), "\r\n");
    Utf8.EncodeDecodes(HeadTextOf(ls) + "\r\n");
  }

  lemma TextMessage(u: string, rest: seq<byte>)
    requires NoBlank(u, '\r', '\n') && Ends(u, '\n') && "HTTP/1." <= u
    ensures var raw := Utf8.Encode(u) + CRLF;
      ReadMessage(raw + rest) ==
        if |raw| > MAX_HEADER then Err(HeaderTooLarge)
        else match ReadResponse(raw, rest) case Err(e) => Err(e) case Ok(m) => Ok(Some(m))
  {
    hide ReadLine, ReadHead, ReadResponse, NoBlank;
    var i := FirstLineFeed(u);
    StartBeforeLf(u, i);
    var e, tail := Utf8.Encode(u[..i]), Utf8.Encode(u[i + 1..]);
    LineSplits(u, i);
    HttpStart(u[..i]);
    NoLfByte(u[..i]);
    hide Utf8.Encode;
    RegroupLine([], e + [LF], tail, rest);
    AnyLineReads(e, tail + CRLF + rest);
    if |e| < MAX_HEADER {
      NoBlankBehind(u, i, '\r', '\n');
      assert u[i + 1..] == [] || Ends(u[i + 1..], '\n');
      TextReads(e + [LF], u[i + 1..], rest);
    }
  }

  /** A printed head is read back as its own lines, with everything behind it still to come. */
  lemma HeadReads(ls: seq<string>, rest: seq<byte>)
    requires AcceptedHead(ls)
    ensures ReadMessage(HeadWire(ls) + rest) == ReadBehind(ls, rest)
  {
    hide ReadMessage, ReadBody, StatusOf, IsSdp, Compressed, HeadLines, NoCrlf, NoBlank, HeadTextOf;
    hide Utf8.Encode, Utf8.Decode;
    TextStart(ls);
    HeadTextNoBlank(ls);
    TextMessage(HeadTextOf(ls), rest);
    DecodedHead(ls);
    LinesOfText(ls);
  }

  // ---------- every head that is read is printed lines ----------

  lemma LineShape(s: seq<byte>)
    requires ReadLine(s).Ok? && ReadLine(s).value.bytes != []
    ensures var l := ReadLine(s).value.bytes; Ends(l, LF) && forall i :: 0 <= i < |l| - 1 ==> l[i] != LF
  {
    var i := Find(s, [LF]).value;
    FindSome(s, [LF]);
    FreeBefore(s, LF, i);
    assert s[i..i + 1][0] == s[i];
    var l := s[..i + 1];
    forall j | 0 <= j < |l| - 1 ensures l[j] != LF {
      assert l[j] == s[..i][j];
    }
  }

  /** A head ends in its only blank line. */
  predicate HeadBlock(b: seq<byte>) {
    && 2 <= |b| <= MAX_HEADER && b[|b| - 2..] == CRLF
    && Ends(b[..|b| - 2], LF) && NoBlank(b[..|b| - 2], 13, LF)
  }

  lemma {:induction false} HeadShape(raw: seq<byte>, s: seq<byte>)
    requires ReadHead(raw, s).Ok? && Ends(raw, LF) && NoBlank(raw, 13, LF)
    ensures raw <= ReadHead(raw, s).value.bytes && HeadBlock(ReadHead(raw, s).value.bytes)
    decreases |s|
  {
    hide ReadLine, NoBlank;
    LineShape(s);
    var l := ReadLine(s).value.bytes;
    if l == CRLF {
      assert (raw + l)[..|raw|] == raw && (raw + l)[|raw|..] == CRLF;
    } else {
      NoBlankMore(raw, l, 13, LF);
      HeadShape(raw + l, ReadLine(s).value.rest);
      assert raw <= raw + l;
    }
  }

  lemma BlankBytes(a: string, blank: string, b: string)
    requires blank == "\n\r\n"
    ensures !NoBlank(Utf8.Encode(a + blank + b), 13, LF)
  {
    Utf8.AsciiLength(blank);
    Utf8.EncodeAppend(a, blank);
    Utf8.EncodeAppend(a + blank, b);
    hide Utf8.Encode;
    var x, y, z := Utf8.Encode(a), Utf8.Encode(blank), Utf8.Encode(b);
    var e, n := x + y + z, |x|;
    assert e[n] == y[0] == LF && e[n + 1] == y[1] == 13 && e[n + 2] == y[2] == LF;
  }

  lemma BlankStart(b: string)
    ensures !NoBlank(Utf8.Encode("\r\n" + b), 13, LF)
  {
    CrlfText();
    Utf8.EncodeAppend("\r\n", b);
  }

  lemma NoBlankText(u: string)
    requires NoBlank(Utf8.Encode(u), 13, LF)
    ensures NoBlank(u, '\r', '\n')
  {
    hide Utf8.Encode;
    forall i | 0 <= i < |u| - 2 ensures !(u[i] == '\n' && u[i + 1] == '\r' && u[i + 2] == '\n') {
      BlankBytes(u[..i], "\n\r\n", u[i + 3..]);
      assert u == u[..i] + [u[i], u[i + 1], u[i + 2]] + u[i + 3..];
    }
    if |u| >= 2 {
      BlankStart(u[2..]);
      assert u == [u[0], u[1]] + u[2..];
    }
  }

  lemma LastChar(s: string, e: seq<byte>, c: byte)
    requires Utf8.Encode(s) == e + [c] && c < 0x80
    ensures s != [] && s[|s| - 1] as int == c && Utf8.Encode(s[..|s| - 1]) == e
  {
    Utf8.LastAscii(s);
    assert (e + [c])[..|e|] == e;
  }

  /** The text of a head is a text without a blank line, then the blank line. */
  lemma TextShape(text: string, ub: seq<byte>)
    requires Utf8.Encode(text) == ub + CRLF && Ends(ub, LF) && NoBlank(ub, 13, LF)
    ensures |text| >= 2 && text[|text| - 2..] == "\r\n"
    ensures var u := text[..|text| - 2]; Utf8.Encode(u) == ub && Ends(u, '\n') && NoBlank(u, '\r', '\n')
  {
    hide Utf8.Encode, NoBlank;
    assert ub + CRLF == (ub + [13]) + [LF];
    LastChar(text, ub + [13], LF);
    var t := text[..|text| - 1];
    LastChar(t, ub, 13);
    var u := t[..|t| - 1];
    assert u == text[..|text| - 2];
    assert ub == ub[..|ub| - 1] + [LF];
    LastChar(u, ub[..|ub| - 1], LF);
    NoBlankText(u);
  }

  lemma {:induction false} AsciiPrefix(p: string, u: string)
    requires Utf8.Ascii(p) && Utf8.Encode(p) <= Utf8.Encode(u)
    ensures p <= u
  {
    if p != [] {
      assert u != [];
      FirstAscii(p, u);
      AsciiPrefix(p[1..], u[1..]);
    }
  }

  lemma FirstAscii(p: string, u: string)
    requires p != [] && u != [] && p[0] < 128 as char && Utf8.Encode(p) <= Utf8.Encode(u)
    ensures p[0] == u[0] && Utf8.Encode(p[1..]) <= Utf8.Encode(u[1..])
  {
    assert Utf8.Encode(p) == [p[0] as int] + Utf8.Encode(p[1..]);
    assert Utf8.Encode(u)[0] == p[0] as int;
    assert Utf8.EncodeChar(u[0])[0] == p[0] as int;
    assert Utf8.Encode(u) == [u[0] as int] + Utf8.Encode(u[1..]);
    assert Utf8.Encode(p)[1..] == Utf8.Encode(p[1..]) && Utf8.Encode(u)[1..] == Utf8.Encode(u[1..]);
  }

  lemma FirstLineStart(ls: seq<string>, p: string)
    requires Parts(ls) && p <= HeadTextOf(ls) && '\r' !in p && '\n' !in p
    ensures p <= ls[0]
  {
    hide NoCrlf;
    var u, l := HeadTextOf(ls), ls[0];
    TextStart(ls);
    if |ls| > 1 {
      HeadTextStep(ls);
    }
    assert |u| == |l| ==> Ends(u, '\n') && Ends(l, '\n');
    assert |u| > |l| ==> u[|l|] == '\r';
    assert l == u[..|l|] && p == u[..|p|];
  }

  /** The exact heads: what the relay accepts is the printed form of its lines, within the limit. */
  lemma AcceptedIsPrinted(s: seq<byte>)
    requires ReadMessage(s).Ok? && ReadMessage(s).value.Some?
    ensures var m := ReadMessage(s).value.value;
      AcceptedHead(m.lines) && m.raw == HeadWire(m.lines) && |m.raw| <= MAX_HEADER
  {
    hide ReadLine, ReadHead, ReadBody, StatusOf, IsSdp, Compressed, HeadLines, NoBlank, Ends, HeadBlock, AcceptedHead;
    hide Utf8.Encode, Utf8.Decode, HeadWire;
    var first, after := ReadLine(s).value.bytes, ReadLine(s).value.rest;
    LineShape(s);
    FirstLineNoBlank(first);
    HeadShape(first, after);
    var m := ReadMessage(s).value.value;
    BlockIsPrinted(first, m.raw);
  }

  lemma BlockIsPrinted(first: seq<byte>, raw: seq<byte>)
    requires HeadBlock(raw) && Utf8.Decode(raw).Some? && Utf8.Encode("HTTP/1.") <= first <= raw
    ensures var lines := HeadLines(Utf8.Decode(raw).value);
      AcceptedHead(lines) && raw == HeadWire(lines) && |raw| <= MAX_HEADER
  {
    hide HeadLines, Parts, NoBlank, Ends, Utf8.Encode, Utf8.Decode, HeadTextOf;
    BlockLinesPrinted(raw);
    var u := HeadTextOf(HeadLines(Utf8.Decode(raw).value));
    StartOf("HTTP/1.", u, first, raw);
    PlainStart(HeadLines(Utf8.Decode(raw).value));
  }

  lemma BlockLinesPrinted(raw: seq<byte>)
    requires HeadBlock(raw) && Utf8.Decode(raw).Some?
    ensures var lines := HeadLines(Utf8.Decode(raw).value);
      Parts(lines) && raw == HeadWire(lines) && Ends(HeadTextOf(lines), '\n')
  {
    hide HeadLines, Parts, NoBlank, Ends, Utf8.Encode, Utf8.Decode, HeadTextOf;
    var ub := raw[..|raw| - 2];
    assert raw == ub + CRLF;
    Utf8.DecodeEncodes(raw);
    var text := Utf8.Decode(raw).value;
    TextShape(text, ub);
    var u := text[..|text| - 2];
    assert text == u + text[|text| - 2..];
    TextOfLines(u);
  }

  lemma PlainStart(ls: seq<string>)
    requires Parts(ls) && "HTTP/1." <= HeadTextOf(ls)
    ensures "HTTP/1." <= ls[0]
  {
    hide Parts, HeadTextOf;
    FirstLineStart(ls, "HTTP/1.");
  }

  lemma FirstLineNoBlank(first: seq<byte>)
    requires Ends(first, LF) && (forall i :: 0 <= i < |first| - 1 ==> first[i] != LF)
    requires Utf8.Encode("HTTP/1.") <= first
    ensures NoBlank(first, 13, LF)
  {
    Utf8.AsciiLength("HTTP/1.");
    assert NoBlank<byte>([], 13, LF);
    NoBlankMore([], first, 13, LF);
    assert [] + first == first;
  }

  lemma StartOf(start: string, u: string, first: seq<byte>, raw: seq<byte>)
    requires start == "HTTP/1." && Utf8.Encode(start) <= first <= raw && raw == Utf8.Encode(u) + CRLF && Ends(u, '\n')
    ensures start <= u
  {
    Utf8.AsciiLength(start);
    var e, x := Utf8.Encode(start), Utf8.Encode(u);
    assert 13 !in e;
    assert |x| < |raw| && raw[|x|] == 13;
    assert e <= x;
    AsciiPrefix(start, u);
  }
}
