/** What pong rewriting keeps, and why replaying the cache is as good as asking the backend. */
module PongProofs {
  import opened Net
  import opened Text
  import opened ProxyProtocol
  import opened Pong
  import RakNet
  import Utf8

  // ---------- the two displayed fields ----------

  /** A field's own clean text, or the other field's where that is empty. */
  function Displayed(own: string, other: string): string {
    if Sanitize(own) != [] then Sanitize(own) else Sanitize(other)
  }

  /** Normalising changes fields 1 and 7 to what they display and nothing else. */
  lemma MotdNormalized(p: seq<byte>)
    requires NormalizeMotd(p).Some?
    ensures var q := NormalizeMotd(p).value;
      && ParsePong(p).Some? && ParsePong(q).Some?
      && |FieldsOf(q)| == |FieldsOf(p)| >= 8
      && FieldsOf(q)[1] == Displayed(FieldsOf(p)[1], FieldsOf(p)[7])
      && FieldsOf(q)[7] == Displayed(FieldsOf(p)[7], FieldsOf(p)[1])
      && (forall i :: 0 <= i < |FieldsOf(q)| && i != 1 && i != 7 ==> FieldsOf(q)[i] == FieldsOf(p)[i])
      && q[..33] == p[..33] && q[ParsePong(q).value.end..] == p[ParsePong(p).value.end..]
  {
    hide ParsePong, Rebuild, Sanitize;
    var parts := FieldsOf(p);
    SplitFree(ParsePong(p).value.motd, ';');
    SanitizeWithin(parts[1]);
    SanitizeWithin(parts[7]);
    var (a, b) := MotdPair(parts[1], parts[7]);
    var parts' := parts[1 := a][7 := b];
    RebuiltParses(p, Join(parts', ";"));
    FieldsRebuild(ParsePong(p).value.motd, parts');
  }

  /** Both displayed fields are filled, or neither. */
  predicate BothOrNeither(p: seq<byte>)
    requires ParsePong(p).Some? && |FieldsOf(p)| >= 8
  {
    FieldsOf(p)[1] == [] <==> FieldsOf(p)[7] == []
  }

  /** The rewritten string still fits its length field. */
  predicate Fits(p: seq<byte>)
    requires ParsePong(p).Some? && |FieldsOf(p)| >= 8
  {
    var parts := FieldsOf(p);
    var (a, b) := MotdPair(parts[1], parts[7]);
    |Utf8.Encode(Join(parts[1 := a][7 := b], ";"))| <= 65535
  }

  /** After normalisation the displayed fields agree, except where a result too long to write left them apart. */
  lemma NormalizedAgreesIff(p: seq<byte>)
    requires ParsePong(p).Some? && |FieldsOf(p)| >= 8
    ensures var q := OrElse(NormalizeMotd(p), p);
      && ParsePong(q).Some? && |FieldsOf(q)| == |FieldsOf(p)|
      && (BothOrNeither(q) <==> Fits(p) || BothOrNeither(p))
  {
    hide ParsePong, Sanitize;
    if NormalizeMotd(p).Some? {
      MotdNormalized(p);
    }
  }

  // ---------- a text too long to be copied ----------

  lemma LettersStay(n: nat)
    requires n > 0
    ensures Sanitize(Letters(n)) == Letters(n)
  {
    var s := Letters(n);
    assert !IsWhitespace('a') && !IsControl('a') && IsWord(s);
    assert TrimStart(s) == s && TrimEnd(s) == s;
    assert Unquote(s) == s && BlankControls(s) == s;
    WordsStep(s, []);
    assert s + [] == s;
  }

  lemma NothingStays()
    ensures Sanitize("") == ""
  {
    assert Trim("") == "" && Unquote("") == "" && BlankControls("") == "";
  }

  /** Eight fields, empty but for the first displayed one. */
  function LongFields(n: nat): seq<string> { ["", Letters(n), "", "", "", "", "", ""] }

  function TailText(b: string): string { ";" + (";" + (";" + (";" + (";" + (";" + b))))) }

  lemma EightFields(a: string, b: string)
    ensures Join(["", a, "", "", "", "", "", b], ";") == ";" + (a + TailText(b))
  {
    var s := ["", a, "", "", "", "", "", b];
    assert s[1..] == [a, "", "", "", "", "", b] && s[2..] == ["", "", "", "", "", b] && s[3..] == ["", "", "", "", b];
    assert s[4..] == ["", "", "", b] && s[5..] == ["", "", b] && s[6..] == ["", b] && s[7..] == [b];
    JoinStep(s[6..], ";");
    JoinStep(s[5..], ";");
    JoinStep(s[4..], ";");
    JoinStep(s[3..], ";");
    JoinStep(s[2..], ";");
    JoinStep(s[1..], ";");
    JoinStep(s, ";");
  }

  lemma JoinStep(parts: seq<string>, sep: string)
    requires |parts| > 1
    ensures Join(parts, sep) == parts[0] + sep + Join(parts[1..], sep)
  {
  }

  /** A pong with that string. */
  function LongPong(n: nat): seq<byte>
    requires n + 7 <= 65535
  {
    var bytes := Utf8.Encode(Join(LongFields(n), ";"));
    [PONG_ID] + seq(16, _ => 0) + RakNet.OFFLINE_MESSAGE_ID + ToBe16(|bytes| % 65536) + bytes
  }

  lemma LongText(n: nat, b: string)
    requires Utf8.Ascii(b)
    ensures |Utf8.Encode(Join(["", Letters(n), "", "", "", "", "", b], ";"))| == n + 7 + |b|
  {
    EightFields(Letters(n), b);
    var text := ";" + (Letters(n) + TailText(b));
    assert |text| == n + 7 + |b|;
    assert Utf8.Ascii(text);
    Utf8.AsciiLength(text);
  }

  lemma LongParses(n: nat)
    requires n + 7 <= 65535
    ensures |LongPong(n)| == n + 42 && ParsePong(LongPong(n)).Some? && FieldsOf(LongPong(n)) == LongFields(n)
  {
    hide ToBe16, FromBe16, Utf8.Encode;
    var motd := Join(LongFields(n), ";");
    var bytes, p := Utf8.Encode(motd), LongPong(n);
    LongText(n, "");
    Be16RoundTrip(|bytes|);
    assert |RakNet.OFFLINE_MESSAGE_ID| == 16;
    var front := [PONG_ID] + seq(16, _ => 0) + RakNet.OFFLINE_MESSAGE_ID;
    Pieces(front, ToBe16(|bytes|), bytes, []);
    assert p == front + ToBe16(|bytes|) + bytes + [];
    assert p[0] == PONG_ID && p[17..33] == front[17..33] == RakNet.OFFLINE_MESSAGE_ID by { assert p[..33] == front; }
    Utf8.EncodeDecodes(motd);
    assert ParsePong(p) == Some(ParsedPong(motd, 35 + |bytes|));
    LongSplits(n);
  }

  lemma LongSplits(n: nat)
    ensures Fields(Join(LongFields(n), ";")) == LongFields(n)
  {
    var parts := LongFields(n);
    forall i | 0 <= i < |parts| ensures Clean(parts[i], ";") {
      CleanOfOne(parts[i], ';');
    }
    SplitJoin(parts, ";");
  }

  /** Half the length field is too much: the copy does not fit, and the second field stays empty. */
  lemma LongTextStaysApart(n: nat)
    requires 32765 <= n <= 65528
    ensures var p := LongPong(n);
      ParsePong(p).Some? && |FieldsOf(p)| == 8 && !Fits(p) && NormalizeMotd(p) == None && !BothOrNeither(p)
  {
    hide ParsePong, Sanitize, Utf8.Encode, LongPong, Letters;
    var p := LongPong(n);
    LongParses(n);
    LettersStay(n);
    assert |Letters(n)| == n by { LettersLength(n); }
    NothingStays();
    var parts := LongFields(n);
    assert parts[1 := Letters(n)][7 := Letters(n)] == ["", Letters(n), "", "", "", "", "", Letters(n)];
    assert Utf8.Ascii(Letters(n)) by { LettersLength(n); }
    LongText(n, Letters(n));
  }

  lemma LettersLength(n: nat)
    ensures |Letters(n)| == n && Utf8.Ascii(Letters(n))
  {
  }

  // ---------- sanitizing again ----------

  predicate Quoted(s: string) { |s| >= 2 && s[0] == '"' && s[|s| - 1] == '"' }

  lemma {:induction false} JoinWordsShort(s: string)
    ensures |Join(Words(s), " ")| <= |s|
    ensures s != [] && !IsWhitespace(s[0]) && |Words(s)| > 1 ==> |Words(s)[0]| + 1 + |Join(Words(s)[1..], " ")| <= |s|
    decreases |s|
  {
    if s != [] {
      if IsWhitespace(s[0]) {
        JoinWordsShort(s[1..]);
      } else {
        var n := WordEnd(s);
        var rest := Words(s[n..]);
        assert ([s[..n]] + rest)[1..] == rest;
        if n < |s| {
          JoinWordsShort(s[n + 1..]);
          assert s[n..][0] == s[n] && s[n..][1..] == s[n + 1..];
        }
      }
    }
  }

  lemma {:induction false} JoinEdges(ws: seq<string>)
    requires ws != [] && forall i :: 0 <= i < |ws| ==> IsWord(ws[i])
    ensures var j := Join(ws, " "); j != [] && !IsWhitespace(j[0]) && !IsWhitespace(j[|j| - 1])
  {
    if |ws| > 1 {
      JoinEdges(ws[1..]);
    }
  }

  lemma SanitizedIsTrimmed(v: string)
    ensures Trim(Sanitize(v)) == Sanitize(v) && BlankControls(Sanitize(v)) == Sanitize(v)
  {
    var s := Sanitize(v);
    SanitizedIsOneLine(v);
    var ws := Words(BlankControls(Unquote(Trim(v))));
    WordsAreWords(BlankControls(Unquote(Trim(v))));
    if ws != [] {
      JoinEdges(ws);
    }
    assert TrimStart(s) == s && TrimEnd(s) == s;
    assert forall i :: 0 <= i < |s| ==> s[i] in s;
  }

  lemma {:induction false} WordsAfterBlanks(s: string)
    ensures Words(TrimStart(s)) == Words(s)
  {
    if s != [] && IsWhitespace(s[0]) {
      WordsAfterBlanks(s[1..]);
    }
  }

  lemma {:induction false} WordEndBefore(s: string, c: char)
    requires IsWhitespace(c)
    ensures WordEnd(s + [c]) == WordEnd(s)
  {
    if s != [] && !IsWhitespace(s[0]) {
      WordEndBefore(s[1..], c);
      assert (s + [c])[1..] == s[1..] + [c];
    }
  }

  lemma {:induction false} WordsBeforeBlank(s: string, c: char)
    requires IsWhitespace(c)
    ensures Words(s + [c]) == Words(s)
    decreases |s|
  {
    var t := s + [c];
    if s == [] {
      assert t[1..] == [];
    } else if IsWhitespace(s[0]) {
      assert t[1..] == s[1..] + [c];
      WordsBeforeBlank(s[1..], c);
    } else {
      var n := WordEnd(s);
      WordEndBefore(s, c);
      assert t[..n] == s[..n] && t[n..] == s[n..] + [c];
      WordsBeforeBlank(s[n..], c);
    }
  }

  lemma {:induction false} WordsBeforeBlanks(s: string)
    ensures Words(TrimEnd(s)) == Words(s)
    decreases |s|
  {
    if s != [] && IsWhitespace(s[|s| - 1]) {
      var front := s[..|s| - 1];
      WordsBeforeBlanks(front);
      assert s == front + [s[|s| - 1]];
      WordsBeforeBlank(front, s[|s| - 1]);
    }
  }

  lemma {:induction false} TrimStartKeepsEnd(s: string)
    requires s != [] && !IsWhitespace(s[|s| - 1])
    ensures var t := TrimStart(s); t != [] && |t| <= |s| && t[|t| - 1] == s[|s| - 1] && !IsWhitespace(t[0])
  {
    if IsWhitespace(s[0]) {
      TrimStartKeepsEnd(s[1..]);
    }
  }

  lemma {:induction false} TrimEndKeepsStart(s: string)
    requires s != [] && !IsWhitespace(s[0])
    ensures var t := TrimEnd(s); t != [] && t[0] == s[0] && !IsWhitespace(t[|t| - 1])
  {
    if IsWhitespace(s[|s| - 1]) {
      TrimEndKeepsStart(s[..|s| - 1]);
    }
  }

  lemma {:induction false} TrimStartsClean(s: string)
    ensures TrimStart(s) == [] || !IsWhitespace(TrimStart(s)[0])
  {
    if s != [] && IsWhitespace(s[0]) {
      TrimStartsClean(s[1..]);
    }
  }

  /** Joining the words of a trimmed text keeps its first and its last character. */
  lemma {:induction false} JoinKeepsEdges(t: string)
    requires t != [] && !IsWhitespace(t[0]) && !IsWhitespace(t[|t| - 1])
    ensures var j := Join(Words(t), " ");
      j != [] && j[0] == t[0] && j[|j| - 1] == t[|t| - 1] && (|j| >= 2 <==> |t| >= 2)
    decreases |t|
  {
    var n := WordEnd(t);
    var rest := t[n..];
    if n == |t| {
      assert t[..n] == t && rest == [];
    } else {
      var r := TrimStart(rest);
      TrimStartKeepsEnd(rest);
      WordsAfterBlanks(rest);
      JoinKeepsEdges(r);
      var ws := Words(t);
      assert ws == [t[..n]] + Words(r) && ws[1..] == Words(r);
      assert Words(r) != [];
      assert Join(ws, " ") == t[..n] + " " + Join(Words(r), " ");
    }
  }

  /** The clean text is in quotes exactly when what is cleaned is, blanks around it aside. */
  lemma QuotedJoin(s: string)
    ensures Quoted(Join(Words(s), " ")) <==> Quoted(Trim(s))
  {
    var u := TrimStart(s);
    WordsAfterBlanks(s);
    WordsBeforeBlanks(u);
    TrimStartsClean(s);
    if u != [] {
      TrimEndKeepsStart(u);
      JoinKeepsEdges(Trim(s));
    }
  }

  /** The text inside a field's outer quotes, controls blanked and blanks around it cut. */
  function Inner(v: string): string { Trim(BlankControls(Unquote(Trim(v)))) }

  /** Sanitizing is idempotent exactly on fields whose inner text is not again in quotes. */
  lemma SanitizeTwiceIff(v: string)
    ensures Sanitize(Sanitize(v)) == Sanitize(v) <==> !Quoted(Inner(v))
  {
    var s := Sanitize(v);
    SanitizedIsTrimmed(v);
    SanitizedIsOneLine(v);
    QuotedJoin(BlankControls(Unquote(Trim(v))));
    if Quoted(s) {
      JoinWordsShort(BlankControls(Unquote(s)));
    }
  }

  lemma NestedQuotesChangeTwice()
    ensures Sanitize("\"\"a\"\"") == "\"a\"" && Sanitize("\"a\"") == "a"
  {
    var x, y := "\"\"a\"\"", "\"a\"";
    assert Trim(x) == x && Unquote(x) == y;
    assert Trim(y) == y && Unquote(y) == "a";
    assert BlankControls(y) == y && BlankControls("a") == "a";
    OneWord(y);
    OneWord("a");
  }

  lemma OneWord(w: string)
    requires IsWord(w)
    ensures Join(Words(w), " ") == w
  {
    WordsOfJoin([w]);
    assert Join([w], " ") == w;
  }

  // ---------- timestamps ----------

  lemma StampKeeps(p: seq<byte>, ts: seq<byte>)
    requires |p| >= STRING_OFFSET && p[0] == PONG_ID && |ts| == 8
    ensures var q := Stamp(p, ts).value;
      && |q| == |p| && ParsePong(q) == ParsePong(p)
      && forall i :: 9 <= i <= |p| ==> q[i..] == p[i..]
  {
    var q := Stamp(p, ts).value;
    forall i | 9 <= i <= |p| ensures q[i..] == p[i..] {
      assert q[i..] == p[9..][i - 9..];
    }
    assert q[9..] == p[9..];
    assert q[17..33] == q[9..][8..24] && p[17..33] == p[9..][8..24];
    assert q[33] == q[9..][24] && q[34] == q[9..][25];
    assert p[33] == p[9..][24] && p[34] == p[9..][25];
    var end := STRING_OFFSET + FromBe16(p[33], p[34]);
    if end <= |p| {
      assert q[STRING_OFFSET..end] == q[9..][STRING_OFFSET - 9..end - 9];
      assert p[STRING_OFFSET..end] == p[9..][STRING_OFFSET - 9..end - 9];
    }
  }

  function StampSome(p: seq<byte>, ts: seq<byte>): seq<byte>
    requires |p| >= STRING_OFFSET && p[0] == PONG_ID && |ts| == 8
  {
    Stamp(p, ts).value
  }

  lemma RebuildStamps(p: seq<byte>, end: nat, motd: string, ts: seq<byte>)
    requires |p| >= STRING_OFFSET && p[0] == PONG_ID && |ts| == 8 && STRING_OFFSET <= end <= |p|
    ensures |StampSome(p, ts)| == |p|
    ensures match Rebuild(p, end, motd)
      case None => Rebuild(StampSome(p, ts), end, motd) == None
      case Some(r) =>
        && |r| >= STRING_OFFSET && r[0] == PONG_ID
        && Rebuild(StampSome(p, ts), end, motd) == Some(StampSome(r, ts))
  {
    var q := StampSome(p, ts);
    var bytes := Utf8.Encode(motd);
    if |bytes| <= 65535 {
      var r := Rebuild(p, end, motd).value;
      var tail := ToBe16(|bytes|) + bytes + p[end..];
      assert q[end..] == p[end..];
      assert p[..33] == [p[0]] + p[1..9] + p[9..33] && q[..33] == [p[0]] + ts + p[9..33];
      assert r == p[..33] + tail;
      assert r[9..] == p[9..33] + tail;
      assert q[..33] + ToBe16(|bytes|) + bytes + q[end..] == q[..33] + tail;
      assert StampSome(r, ts) == [r[0]] + ts + r[9..];
      assert [p[0]] + ts + (p[9..33] + tail) == q[..33] + tail;
    }
  }

  /** A pong-shaped buffer: long enough and with the pong opcode. */
  predicate PongLike(p: seq<byte>) { |p| >= STRING_OFFSET && p[0] == PONG_ID }

  lemma PortsStamp(p: seq<byte>, port: u16, ts: seq<byte>)
    requires PongLike(p) && |ts| == 8
    ensures var q := OrElse(RewritePorts(p, port), p);
      PongLike(q) && OrElse(RewritePorts(StampSome(p, ts), port), StampSome(p, ts)) == StampSome(q, ts)
  {
    hide ParsePong, Rebuild, Stamp;
    StampKeeps(p, ts);
    if ParsePong(p).Some? && |FieldsOf(p)| >= 11 {
      RebuildStamps(p, ParsePong(p).value.end, Join(PortFields(FieldsOf(p), port), ";"), ts);
    }
  }

  lemma MotdStamp(p: seq<byte>, ts: seq<byte>)
    requires PongLike(p) && |ts| == 8
    ensures var q := OrElse(NormalizeMotd(p), p);
      PongLike(q) && OrElse(NormalizeMotd(StampSome(p, ts)), StampSome(p, ts)) == StampSome(q, ts)
  {
    hide ParsePong, Rebuild, Stamp, MotdPair;
    StampKeeps(p, ts);
    if ParsePong(p).Some? && |FieldsOf(p)| >= 8 {
      var parts := FieldsOf(p);
      var (a, b) := MotdPair(parts[1], parts[7]);
      RebuildStamps(p, ParsePong(p).value.end, Join(parts[1 := a][7 := b], ";"), ts);
    }
  }

  /** Rewriting commutes with stamping. */
  lemma ProcessStamps(p: seq<byte>, port: u16, rewritePorts: bool, ts: seq<byte>)
    requires PongLike(p) && |ts| == 8
    ensures PongLike(Process(p, port, rewritePorts))
    ensures Process(StampSome(p, ts), port, rewritePorts) == StampSome(Process(p, port, rewritePorts), ts)
  {
    hide RewritePorts, NormalizeMotd, Stamp;
    var q := p;
    if rewritePorts {
      PortsStamp(p, port, ts);
      q := OrElse(RewritePorts(p, port), p);
    }
    MotdStamp(q, ts);
  }

  /**
   Cache agreement: a reply served from the cache is byte for byte what the pipeline makes of the
   same backend pong carrying the ping's timestamp.
   */
  lemma CacheAgreement(p: seq<byte>, port: u16, rewritePorts: bool, ts: seq<byte>)
    requires Cached(p, port, rewritePorts).Some? && |ts| == 8
    ensures PongLike(p)
    ensures Served(Cached(p, port, rewritePorts).value, ts) == Process(StampSome(p, ts), port, rewritePorts)
    ensures ParsePong(Served(Cached(p, port, rewritePorts).value, ts)) == ParsePong(Cached(p, port, rewritePorts).value)
  {
    var q := Process(p, port, rewritePorts);
    if !PongLike(p) {
      NotAPong(p, port, rewritePorts);
    }
    ProcessStamps(p, port, rewritePorts, ts);
    StampKeeps(q, ts);
  }

  lemma NotAPong(p: seq<byte>, port: u16, rewritePorts: bool)
    requires !PongLike(p)
    ensures Process(p, port, rewritePorts) == p && ParsePong(p) == None
  {
  }
}
