/** Printed HTTP/1 messages, and what the observer reads in their heads. */
module ObserverPrint {
  import opened Net
  import opened Text
  import opened Chunking
  import opened Observer
  import L = SdpLines
  import P = AnswersPrint
  import Utf8

  datatype Field = Field(name: string, value: string)

  /** A request line with its target's path and query apart, or a status line with its phrase in words. */
  datatype Opening =
    | Asks(verb: string, path: string, query: Option<string>, version: string)
    | Replies(version: string, status: nat, phrase: seq<string>)

  function Target(path: string, query: Option<string>): string {
    if query.Some? then path + "?" + query.value else path
  }

  function OpeningWords(o: Opening): seq<string> {
    match o
    case Asks(verb, path, query, version) => [verb, Target(path, query), version]
    case Replies(version, status, phrase) => [version, Show(status, Decimal)] + phrase
  }

  function FieldLine(f: Field): string { f.name + ":" + (" " + f.value) }

  function FieldLines(fields: seq<Field>): (r: seq<string>)
    ensures |r| == |fields| && forall i :: 0 <= i < |r| ==> r[i] == FieldLine(fields[i])
  {
    if fields == [] then [] else [FieldLine(fields[0])] + FieldLines(fields[1..])
  }

  function HeadLines(o: Opening, fields: seq<Field>): seq<string> {
    [Join(OpeningWords(o), " ")] + FieldLines(fields)
  }

  predicate PlainField(f: Field) {
    && ':' !in f.name && L.OneLine(f.name) && L.OneLine(f.value) && Trim(f.value) == f.value
  }

  predicate PlainFields(fields: seq<Field>) { forall i :: 0 <= i < |fields| ==> PlainField(fields[i]) }

  predicate PlainOpening(o: Opening) {
    && (forall i :: 0 <= i < |OpeningWords(o)| ==> IsWord(OpeningWords(o)[i]))
    && "HTTP/1." <= o.version
    && (o.Asks? ==> '?' !in o.path)
    && (o.Replies? ==> o.status < U16_BOUND)
  }

  // ---------- lines on the wire ----------

  function EncodeLines(ls: seq<string>): seq<byte> {
    if ls == [] then [] else Utf8.Encode(ls[0]) + CRLF + EncodeLines(ls[1..])
  }

  /** A head block: every line ended by CRLF, then the empty line. */
  function HeadBytes(ls: seq<string>): seq<byte> { EncodeLines(ls) + CRLF }

  /** Lines that a CRLF block can hold: no LF inside, none empty. */
  predicate BlockLines(ls: seq<string>) {
    forall i :: 0 <= i < |ls| ==> L.OneLine(ls[i]) && ls[i] != []
  }

  lemma {:induction false} EncodeUnlines(ls: seq<string>)
    ensures EncodeLines(ls) == Utf8.Encode(L.Unlines(ls))
  {
    if ls != [] {
      EncodeUnlines(ls[1..]);
      P.CrlfText();
      Utf8.EncodeAppend(ls[0], "\r\n");
      Utf8.EncodeAppend(ls[0] + "\r\n", L.Unlines(ls[1..]));
    }
  }

  lemma {:induction false} UnlinesIsJoin(ls: seq<string>)
    requires ls != []
    ensures L.Unlines(ls) == Join(ls, "\r\n") + "\r\n"
  {
    if |ls| == 1 {
      assert L.Unlines(ls[1..]) == [];
      assert ls[0] + L.CRLF + [] == ls[0] + "\r\n";
    } else {
      UnlinesIsJoin(ls[1..]);
      var tail := Join(ls[1..], "\r\n");
      assert ls[0] + L.CRLF + (tail + "\r\n") == (ls[0] + "\r\n" + tail) + "\r\n";
    }
  }

  // ---------- where the head ends ----------

  /** In printed lines no two line feeds are adjacent or two apart. */
  lemma {:induction false} LineFeedsApart(ls: seq<string>, k: nat)
    requires BlockLines(ls) && k + 1 < |EncodeLines(ls)| && EncodeLines(ls)[k] == 10
    ensures k + 2 < |EncodeLines(ls)| && EncodeLines(ls)[k + 1] != 10 && EncodeLines(ls)[k + 2] != 10
    decreases |ls|
  {
    var e, tail := Utf8.Encode(ls[0]), EncodeLines(ls[1..]);
    var all := EncodeLines(ls);
    assert all == e + [13, 10] + tail;
    P.NoLfByte(ls[0]);
    assert forall i :: 0 <= i < |e| ==> all[i] == e[i];
    assert k >= |e| + 1;
    if k == |e| + 1 {
      var next := Utf8.Encode(ls[1]);
      P.NoLfByte(ls[1]);
      P.EncodeNonEmpty(ls[1]);
      assert tail == next + [13, 10] + EncodeLines(ls[2..]) by { assert ls[1..][1..] == ls[2..]; }
      FirstTwo(next, EncodeLines(ls[2..]));
      assert all[k + 1] == tail[0] && all[k + 2] == tail[1];
    } else {
      var j := k - |e| - 2;
      assert all[k] == tail[j];
      LineFeedsApart(ls[1..], j);
      assert all[k + 1] == tail[j + 1] && all[k + 2] == tail[j + 2];
    }
  }

  lemma FirstTwo(e: seq<byte>, more: seq<byte>)
    requires e != [] && 10 !in e
    ensures var s := e + [13, 10] + more; |s| >= 3 && s[0] != 10 && s[1] != 10
  {
    var s := e + [13, 10] + more;
    assert s[0] == e[0];
    assert s[1] == if |e| > 1 then e[1] else 13;
  }

  lemma BlankLineAt(block: seq<byte>, rest: seq<byte>, p: nat)
    requires p + 2 == |block| && block[p..] == [13, 10]
    ensures At(block + [13, 10] + rest, CRLF2, p)
  {
    var buf := block + [13, 10] + rest;
    assert buf[p] == block[p..][0] && buf[p + 1] == block[p..][1];
    assert buf[p..p + 4] == CRLF2;
  }

  lemma {:induction false} EndsInCrlf(ls: seq<string>)
    requires ls != []
    ensures |EncodeLines(ls)| >= 2 && EncodeLines(ls)[|EncodeLines(ls)| - 2..] == [13, 10]
    decreases |ls|
  {
    var e, tail := Utf8.Encode(ls[0]), EncodeLines(ls[1..]);
    var all := EncodeLines(ls);
    assert all == e + [13, 10] + tail;
    if |ls| > 1 {
      EndsInCrlf(ls[1..]);
      assert all[|all| - 2..] == tail[|tail| - 2..];
    }
  }

  lemma NoEarlierBlankLine(ls: seq<string>, rest: seq<byte>, j: nat)
    requires BlockLines(ls) && j + 2 < |EncodeLines(ls)|
    ensures var buf := EncodeLines(ls) + [13, 10] + rest; !At(buf, CRLF2, j) && !At(buf, LF2, j)
  {
    var block := EncodeLines(ls);
    var buf := block + [13, 10] + rest;
    assert buf[j] == block[j] && buf[j + 1] == block[j + 1] && buf[j + 2] == block[j + 2];
    assert buf[j..j + 2][0] == buf[j] && buf[j..j + 2][1] == buf[j + 1];
    if block[j] == 10 {
      LineFeedsApart(ls, j);
    }
    if block[j + 1] == 10 {
      LineFeedsApart(ls, j + 1);
      assert buf[j + 3] == block[j + 3];
      assert |buf| >= j + 4;
      assert buf[j..j + 4][3] == buf[j + 3];
    } else {
      assert |buf| >= j + 4;
      assert buf[j..j + 4][1] == buf[j + 1];
    }
  }

  /** The blank line of a printed head is where the printer put it. */
  lemma PrintedDelimiter(ls: seq<string>, rest: seq<byte>)
    requires BlockLines(ls) && ls != []
    ensures FindDelimiter(HeadBytes(ls) + rest) == Some(Delimiter(|EncodeLines(ls)| - 2, 4))
  {
    hide EncodeLines, BlockLines;
    var block := EncodeLines(ls);
    var buf := block + [13, 10] + rest;
    assert HeadBytes(ls) + rest == buf;
    EndsInCrlf(ls);
    var p := |block| - 2;
    BlankLineAt(block, rest, p);
    forall j: nat | j < p ensures !At(buf, CRLF2, j) && !At(buf, LF2, j) {
      NoEarlierBlankLine(ls, rest, j);
    }
    FindIs(buf, CRLF2, p);
    if Find(buf, LF2).Some? {
      FindSome(buf, LF2);
    }
  }

  // ---------- the text of the head ----------

  lemma HeadDecodes(ls: seq<string>)
    requires ls != []
    ensures var block := EncodeLines(ls);
      |block| >= 2 && Utf8.Decode(block[..|block| - 2]) == Some(Join(ls, "\r\n"))
  {
    var text := Join(ls, "\r\n");
    EncodeUnlines(ls);
    UnlinesIsJoin(ls);
    P.CrlfText();
    Utf8.EncodeAppend(text, "\r\n");
    var block := EncodeLines(ls);
    assert block[..|block| - 2] == Utf8.Encode(text);
    Utf8.EncodeDecodes(text);
  }

  lemma {:induction false} LinesOfJoin(ls: seq<string>)
    requires ls != [] && L.AllOneLine(ls) && ls[|ls| - 1] != ""
    ensures Lines(Join(ls, "\r\n")) == ls
    decreases |ls|
  {
    if |ls| == 1 {
      CleanOfOne(ls[0], '\n');
      CleanHasNone(ls[0], ['\n']);
    } else {
      var text, rest := Join(ls, "\r\n"), Join(ls[1..], "\r\n");
      var i := |ls[0]| + 1;
      assert text == (ls[0] + ['\r']) + ['\n'] + rest;
      CleanOfOne(ls[0] + ['\r'], '\n');
      FindStable(ls[0] + ['\r'] + ['\n'], ['\n'], rest);
      assert text[..i] == ls[0] + ['\r'] && text[i + 1..] == rest;
      assert StripCr(ls[0] + ['\r']) == ls[0];
      LinesOfJoin(ls[1..]);
      assert [ls[0]] + ls[1..] == ls;
    }
  }

  // ---------- fields ----------

  /** The value of the first field with a name. */
  function ValueOf(fields: seq<Field>, name: string): Option<string> {
    if fields == [] then None
    else if EqIgnoreCase(fields[0].name, name) then Some(fields[0].value)
    else ValueOf(fields[1..], name)
  }

  lemma TrimSpace(v: string)
    requires Trim(v) == v
    ensures Trim(" " + v) == v
  {
    assert (" " + v)[1..] == v;
  }

  lemma {:induction false} FieldsRead(fields: seq<Field>, name: string)
    requires PlainFields(fields)
    ensures Lookup(Headers(FieldLines(fields)), name) == ValueOf(fields, name)
  {
    hide SplitOnce, EqIgnoreCase, Trim;
    if fields != [] {
      var lines := FieldLines(fields);
      assert PlainField(fields[0]) && lines[0] == FieldLine(fields[0]);
      SplitAt(fields[0].name, ':', " " + fields[0].value);
      TrimSpace(fields[0].value);
      FieldsRead(fields[1..], name);
      var h := (fields[0].name, " " + fields[0].value);
      assert Headers(lines) == [h] + Headers(FieldLines(fields[1..]));
      assert Headers(lines)[1..] == Headers(FieldLines(fields[1..]));
    }
  }
}
