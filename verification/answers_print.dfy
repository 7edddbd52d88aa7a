/** Printing a response head and reading it back. */
module AnswersPrint {
  import opened Net
  import opened Text
  import opened Chunking
  import opened Answers
  import L = SdpLines
  import Utf8

  // ---------- lines on the wire ----------

  lemma CrlfText()
    ensures Utf8.Encode("\r\n") == CRLF
  {
    Utf8.AsciiLength("\r\n");
  }

  lemma {:induction false} NoLfByte(s: string)
    requires L.OneLine(s)
    ensures LF !in Utf8.Encode(s)
  {
    if s != [] {
      assert s == [s[0]] + s[1..];
      assert L.OneLine(s[1..]);
      NoLfByte(s[1..]);
      assert s[0] in s;
      LfOnlyFromLf(s[0]);
    }
  }

  lemma LfOnlyFromLf(c: char)
    requires c != '\n'
    ensures LF !in Utf8.EncodeChar(c)
  {
    assert c as int != 10;
  }

  lemma EncodeNonEmpty(s: string)
    requires s != []
    ensures Utf8.Encode(s) != []
  {
  }

  lemma RawLineReads(e: seq<byte>, more: seq<byte>)
    requires LF !in e && |e| + 1 <= MAX_HEADER
    ensures ReadLine(e + [LF] + more) == Ok(Line(e + [LF], more))
  {
    var s := e + [LF] + more;
    CleanOfOne(e, LF);
    FindStable(e + [LF], [LF], more);
    assert s[..|e| + 1] == e + [LF] && s[|e| + 1..] == more;
  }

  lemma EmptyStream()
    ensures ReadMessage([]) == Ok(None)
  {
    assert Find([], [LF]).None?;
  }

  lemma EmptyLineReads(more: seq<byte>)
    ensures ReadLine(CRLF + more) == Ok(Line(CRLF, more))
  {
    RawLineReads([13], more);
    assert [13] + [LF] == CRLF;
  }

  lemma TrimOne(s: string)
    ensures TrimEndCrlf(s + "\r\n") == TrimEndCrlf(s)
  {
    var t := s + "\r\n";
    assert t[|t| - 2..] == "\r\n" && t[..|t| - 2] == s;
  }

  lemma TrimNone(s: string)
    requires s != [] && s[|s| - 1] != '\n'
    ensures TrimEndCrlf(s) == s
  {
    if |s| >= 2 {
      assert s[|s| - 2..][1] == s[|s| - 1];
    }
  }
}
