/** The observer reports the same messages however the stream is cut. */
module ObserverProofs {
  import opened Net
  import opened Text
  import opened Chunking
  import opened Observer

  // ---------- decisions are stable under appended bytes ----------

  lemma FindNoneBefore(all: seq<byte>, pat: seq<byte>, n: nat)
    requires forall j :: 0 <= j < n ==> !At(all, pat, j)
    ensures Find(all, pat).Some? ==> n <= Find(all, pat).value
  {
    if Find(all, pat).Some? {
      FindSome(all, pat);
    }
  }

  lemma FindNothingUpTo(buf: seq<byte>, pat: seq<byte>, more: seq<byte>, n: nat)
    requires pat != [] && (Find(buf, pat).Some? ==> n <= Find(buf, pat).value)
    requires forall j :: 0 <= j < n && |buf| < j + |pat| ==> !At(buf + more, pat, j)
    ensures Find(buf + more, pat).Some? ==> n <= Find(buf + more, pat).value
  {
    if Find(buf, pat).Some? { FindSome(buf, pat); } else { FindNone(buf, pat); }
    forall j: nat | j < n ensures !At(buf + more, pat, j) {
      if j + |pat| <= |buf| {
        assert !At(buf, pat, j);
        assert (buf + more)[j..j + |pat|] == buf[j..j + |pat|];
      }
    }
    FindNoneBefore(buf + more, pat, n);
  }

  lemma Crlf2Bytes(all: seq<byte>, j: nat)
    requires At(all, CRLF2, j)
    ensures all[j] == 13 && all[j + 1] == 10 && all[j + 2] == 13 && all[j + 3] == 10
  {
    assert all[j..j + 4][0] == all[j] && all[j..j + 4][1] == all[j + 1];
    assert all[j..j + 4][2] == all[j + 2] && all[j..j + 4][3] == all[j + 3];
  }

  lemma Lf2Bytes(all: seq<byte>, j: nat)
    requires At(all, LF2, j)
    ensures all[j] == 10 && all[j + 1] == 10
  {
    assert all[j..j + 2][0] == all[j] && all[j..j + 2][1] == all[j + 1];
  }

  /** A longer buffer cannot reveal an earlier blank line. */
  lemma DelimiterStable(buf: seq<byte>, more: seq<byte>)
    requires FindDelimiter(buf).Some?
    ensures FindDelimiter(buf + more) == FindDelimiter(buf)
  {
    var all := buf + more;
    var d := FindDelimiter(buf).value;
    if d.size == 4 {
      FindStable(buf, CRLF2, more);
      FindNothingUpTo(buf, LF2, more, d.end);
    } else {
      FindStable(buf, LF2, more);
      FindSome(buf, LF2);
      Lf2Bytes(buf, d.end);
      forall j: nat | j < d.end + 1 && |buf| < j + 4 ensures !At(all, CRLF2, j) {
        if At(all, CRLF2, j) {
          Crlf2Bytes(all, j);
        }
      }
      FindNothingUpTo(buf, CRLF2, more, d.end + 1);
    }
  }

  lemma {:induction false} TrailerStable(buf: seq<byte>, pos: nat, more: seq<byte>)
    requires pos <= |buf| && TrailerEnd(buf, pos).Some?
    ensures TrailerEnd(buf + more, pos) == TrailerEnd(buf, pos)
    decreases |buf| - pos
  {
    FindStable(buf[pos..], CRLF, more);
    assert (buf + more)[pos..] == buf[pos..] + more;
    var e := Find(buf[pos..], CRLF).value;
    if e != 0 {
      TrailerStable(buf, pos + e + 2, more);
    }
  }

  lemma ChunkAtStable(buf: seq<byte>, pos: nat, sofar: nat, more: seq<byte>)
    requires pos <= |buf| && sofar <= LIMIT && !ChunkAt(buf, pos, sofar).NeedMore?
    ensures ChunkAt(buf + more, pos, sofar) == ChunkAt(buf, pos, sofar)
  {
    hide ChunkSizeOf, TrailerEnd, Find;
    var all := buf + more;
    FindStable(buf[pos..], CRLF, more);
    assert all[pos..] == buf[pos..] + more;
    var e := Find(buf[pos..], CRLF).value;
    assert all[pos..pos + e] == buf[pos..pos + e];
    var size := ChunkSizeOf(buf[pos..pos + e]);
    var data := pos + e + 2;
    if size.Some? && size.value == 0 {
      TrailerStable(buf, data, more);
    } else if size.Some? && size.value <= LIMIT - sofar {
      assert all[data + size.value..data + size.value + 2] == buf[data + size.value..data + size.value + 2];
    }
  }

  /** Once the chunk parser has an answer, more bytes do not change it. */
  lemma {:induction false} ChunksStable(buf: seq<byte>, pos: nat, body: seq<byte>, more: seq<byte>)
    requires pos <= |buf| && |body| <= LIMIT && Chunks(buf, pos, body) != Ok(None)
    ensures Chunks(buf + more, pos, body) == Chunks(buf, pos, body)
    decreases |buf| - pos
  {
    hide ChunkAt;
    ChunkAtStable(buf, pos, |body|, more);
    match ChunkAt(buf, pos, |body|)
    case Data(from, size) =>
      assert (buf + more)[from..from + size] == buf[from..from + size];
      ChunksStable(buf, from + size + 2, body + buf[from..from + size], more);
    case _ =>
  }

  lemma BodyStable(buf: seq<byte>, start: nat, framing: Framing, more: seq<byte>)
    requires start <= |buf| && BodyAt(buf, start, framing, false) != Ok(None)
    ensures BodyAt(buf + more, start, framing, false) == BodyAt(buf, start, framing, false)
  {
    if framing.Chunked? {
      ChunksStable(buf, start, [], more);
    } else if framing.Length? {
      assert (buf + more)[start..start + framing.size] == buf[start..start + framing.size];
    }
  }

  /** Past the blank line every answer of the framer, success or error, is final. */
  lemma FrameStable(buf: seq<byte>, response: bool, more: seq<byte>)
    requires FindDelimiter(buf).Some? && Frame(buf, response, false) != Ok(None)
    ensures Frame(buf + more, response, false) == Frame(buf, response, false)
  {
    hide ParseHead, BodyAt, FindDelimiter;
    DelimiterStable(buf, more);
    var d := FindDelimiter(buf).value;
    assert (buf + more)[..d.end] == buf[..d.end];
    if d.end <= HEADER_LIMIT && ParseHead(buf[..d.end], response).Ok? {
      BodyStable(buf, d.end + d.size, ParseHead(buf[..d.end], response).value.framing, more);
    }
  }

  // ---------- complete messages ----------

  /** The bytes of exactly one message with its own end. */
  predicate Complete(m: seq<byte>, response: bool) {
    var r := Frame(m, response, false);
    r.Ok? && r.value.Some? && r.value.value.size == |m|
  }

  /** The blank line ends within one byte of the header limit. */
  predicate HeadFits(m: seq<byte>) {
    var d := FindDelimiter(m);
    d.Some? ==> d.value.end + d.value.size <= HEADER_LIMIT + 1
  }

  /** No prefix decides anything yet. */
  ghost predicate Quiet(buf: seq<byte>, response: bool) {
    forall n :: 0 <= n <= |buf| ==> Frame(buf[..n], response, false) == Ok(None)
  }

  lemma CompleteHasDelimiter(m: seq<byte>, response: bool)
    requires Complete(m, response)
    ensures FindDelimiter(m).Some?
  {
  }

  lemma PrefixOfComplete(m: seq<byte>, response: bool, n: nat)
    requires Complete(m, response) && HeadFits(m) && n < |m|
    ensures Frame(m[..n], response, false) == Ok(None)
  {
    var p := m[..n];
    assert p + m[n..] == m;
    if FindDelimiter(p).Some? {
      if Frame(p, response, false) != Ok(None) {
        FrameStable(p, response, m[n..]);
      }
    } else {
      NoDelimiterIsShort(m, n);
    }
  }

  lemma AtPrefix(m: seq<byte>, pat: seq<byte>, i: nat, n: nat)
    requires At(m, pat, i) && i + |pat| <= n <= |m|
    ensures At(m[..n], pat, i)
  {
    assert m[..n][i..i + |pat|] == m[i..i + |pat|];
  }

  lemma NoDelimiterIsShort(m: seq<byte>, n: nat)
    requires n <= |m| && FindDelimiter(m).Some? && FindDelimiter(m[..n]).None?
    ensures n < FindDelimiter(m).value.end + FindDelimiter(m).value.size
  {
    var d := FindDelimiter(m).value;
    if d.end + d.size <= n {
      var pat := if d.size == 4 then CRLF2 else LF2;
      FindSome(m, pat);
      AtPrefix(m, pat, d.end, n);
      FindNone(m[..n], pat);
    }
  }

  /** Exactly the messages whose head fits stay quiet until their last byte. */
  lemma QuietUntilCompleteIffHeadFits(m: seq<byte>, response: bool)
    requires Complete(m, response)
    ensures HeadFits(m) <==> forall n: nat :: n < |m| ==> Frame(m[..n], response, false) == Ok(None)
  {
    hide ParseHead, BodyAt, FindDelimiter;
    if HeadFits(m) {
      forall n: nat | n < |m| ensures Frame(m[..n], response, false) == Ok(None) {
        PrefixOfComplete(m, response, n);
      }
    } else {
      CompleteHasDelimiter(m, response);
      var d := FindDelimiter(m).value;
      var n := d.end + d.size - 1;
      var p := m[..n];
      assert p + m[n..] == m;
      if FindDelimiter(p).Some? {
        DelimiterStable(p, m[n..]);
      }
      assert Frame(p, response, false) == Err(HeaderLimit);
    }
  }
}
