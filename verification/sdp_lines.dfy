/** Inserting a line into CRLF-terminated text by substring search, and what that does to its lines. */
module SdpLines {
  import opened Net
  import opened Text

  const CRLF: string := "\r\n"
  const EOC: string := "a=end-of-candidates"
  const EOC_LINE: string := "a=end-of-candidates\r\n"
  const MEDIA: string := "m="

  /** Lines as text, each with its line end. */
  function Unlines(ls: seq<string>): string {
    if ls == [] then [] else ls[0] + CRLF + Unlines(ls[1..])
  }

  predicate OneLine(l: string) { '\n' !in l }

  predicate AllOneLine(ls: seq<string>) { forall i :: 0 <= i < |ls| ==> OneLine(ls[i]) }

  lemma {:induction false} WordsOneLine(ws: seq<string>)
    requires forall i :: 0 <= i < |ws| ==> IsWord(ws[i])
    ensures OneLine(Join(ws, " ")) && (ws != [] ==> Join(ws, " ") != "")
  {
    if ws != [] {
      WordsOneLine(ws[1..]);
      assert IsWord(ws[0]);
      assert IsWhitespace('\n');
      if |ws| > 1 {
        assert Join(ws, " ") == ws[0] + (" " + Join(ws[1..], " "));
      }
    }
  }

  lemma {:induction false} UnlinesAppend(a: seq<string>, b: seq<string>)
    ensures Unlines(a + b) == Unlines(a) + Unlines(b)
  {
    if a == [] {
      assert a + b == b;
    } else {
      UnlinesAppend(a[1..], b);
      assert (a + b)[1..] == a[1..] + b;
      Associate(a[0] + CRLF, Unlines(a[1..]), Unlines(b));
    }
  }

  lemma {:induction false} LinesOfUnlines(ls: seq<string>)
    requires AllOneLine(ls)
    ensures Lines(Unlines(ls)) == ls
  {
    if ls != [] {
      var text, rest := Unlines(ls), Unlines(ls[1..]);
      var i := |ls[0]| + 1;
      assert text == (ls[0] + ['\r']) + ['\n'] + rest;
      CleanOfOne(ls[0] + ['\r'], '\n');
      FindStable(ls[0] + ['\r'] + ['\n'], ['\n'], rest);
      assert text[..i] == ls[0] + ['\r'] && text[i + 1..] == rest;
      assert StripCr(ls[0] + ['\r']) == ls[0];
      LinesOfUnlines(ls[1..]);
      assert [ls[0]] + ls[1..] == ls;
    }
  }

  lemma {:induction false} LinesAreOneLine(s: string)
    ensures AllOneLine(Lines(s))
    decreases |s|
  {
    if s != [] {
      var r := Find(s, ['\n']);
      if r.Some? {
        FindSome(s, ['\n']);
        FreeBefore(s, '\n', r.value);
        LinesAreOneLine(s[r.value + 1..]);
      } else {
        FindNone(s, ['\n']);
        FreeBefore(s, '\n', |s|);
      }
    }
  }

  // ---------- occurrences inside lines ----------

  predicate EndsWith(s: string, suffix: string) {
    |suffix| <= |s| && s[|s| - |suffix|..] == suffix
  }

  /** The end-of-candidates line text occurs in a first line only as that line's end. */
  lemma EocInLine(l: string, rest: string, p: nat)
    requires OneLine(l) && p <= |l| + 1 && At(l + CRLF + rest, EOC_LINE, p)
    ensures EndsWith(l, EOC) && p == |l| - |EOC|
  {
    var s := l + CRLF + rest;
    var q := p + |EOC| + 1;
    assert s[p..p + 21][20] == s[q] == '\n';
    assert forall k :: 0 <= k < |l| ==> s[k] == l[k];
    assert s[|l|] == '\r' && s[|l| + 1] == '\n';
    forall k | p <= k < q ensures s[k] != '\n' {
      assert s[k] == EOC_LINE[k - p];
    }
    assert q == |l| + 1;
    assert l[p..] == s[p..p + 19];
    assert s[p..p + 21][..19] == EOC;
  }

  lemma EocAtLineEnd(l: string, rest: string)
    requires EndsWith(l, EOC)
    ensures At(l + CRLF + rest, EOC_LINE, |l| - |EOC|)
  {
    var s, p := l + CRLF + rest, |l| - |EOC|;
    assert s[p..p + 21] == l[p..] + CRLF;
    assert EOC + CRLF == EOC_LINE;
  }

  lemma AtShift(front: string, s: string, pat: string, p: nat)
    requires |front| <= p
    ensures At(front + s, pat, p) <==> At(s, pat, p - |front|)
  {
    if p + |pat| <= |front + s| {
      assert (front + s)[p..p + |pat|] == s[p - |front|..p - |front| + |pat|];
    }
  }

  lemma FindEocHere(l: string, rest: string)
    requires OneLine(l) && EndsWith(l, EOC)
    ensures Find(l + CRLF + rest, EOC_LINE) == Some(|l| - |EOC|)
  {
    var s, p := l + CRLF + rest, |l| - |EOC|;
    EocAtLineEnd(l, rest);
    forall j: nat | j < p ensures !At(s, EOC_LINE, j) {
      if At(s, EOC_LINE, j) {
        EocInLine(l, rest, j);
      }
    }
    FindIs(s, EOC_LINE, p);
  }

  lemma FindEocLater(l: string, rest: string)
    requires OneLine(l) && !EndsWith(l, EOC)
    ensures Find(l + CRLF + rest, EOC_LINE) ==
      match Find(rest, EOC_LINE) case None => None case Some(p) => Some(|l| + 2 + p)
  {
    var front := l + CRLF;
    var s := front + rest;
    forall j: nat | j < |front| ensures !At(s, EOC_LINE, j) {
      if At(s, EOC_LINE, j) {
        EocInLine(l, rest, j);
      }
    }
    forall j: nat | |front| <= j ensures At(s, EOC_LINE, j) <==> At(rest, EOC_LINE, j - |front|) {
      AtShift(front, rest, EOC_LINE, j);
    }
    if Find(rest, EOC_LINE).Some? {
      var p := Find(rest, EOC_LINE).value;
      FindSome(rest, EOC_LINE);
      assert At(s, EOC_LINE, |front| + p);
      forall j: nat | j < |front| + p ensures !At(s, EOC_LINE, j) {
        if |front| <= j {
          assert !At(rest, EOC_LINE, j - |front|);
        }
      }
      FindIs(s, EOC_LINE, |front| + p);
    } else {
      FindNone(rest, EOC_LINE);
      if Find(s, EOC_LINE).Some? {
        FindSome(s, EOC_LINE);
      }
    }
  }

  // ---------- inserting before the end-of-candidates line ----------

  /** Insert before the first end-of-candidates text, or at the end. */
  function InsertAfter(s: string, added: string): string {
    match Find(s, EOC_LINE)
    case None => s + added
    case Some(p) => s[..p] + added + s[p..]
  }

  /** The same on lines: a line that only ends in the text is cut in two. */
  function InsertFirst(ls: seq<string>, added: string): seq<string> {
    if ls == [] then [added]
    else if EndsWith(ls[0], EOC) then [ls[0][..|ls[0]| - |EOC|] + added, EOC] + ls[1..]
    else [ls[0]] + InsertFirst(ls[1..], added)
  }

  lemma {:induction false} InsertAfterOnLines(ls: seq<string>, added: string)
    requires AllOneLine(ls)
    ensures InsertAfter(Unlines(ls), added + CRLF) == Unlines(InsertFirst(ls, added))
  {
    if ls == [] {
      assert Unlines([added]) == added + CRLF + Unlines([]);
    } else {
      var l, rest := ls[0], Unlines(ls[1..]);
      if EndsWith(l, EOC) {
        FindEocHere(l, rest);
        CutsLine(l, ls[1..], added);
      } else {
        FindEocLater(l, rest);
        InsertAfterOnLines(ls[1..], added);
        KeepLine(l, ls[1..], added);
      }
    }
  }

  lemma CutsLine(l: string, rest: seq<string>, added: string)
    requires EndsWith(l, EOC)
    ensures var s := l + CRLF + Unlines(rest); var p := |l| - |EOC|;
      s[..p] + (added + CRLF) + s[p..] == Unlines([l[..p] + added, EOC] + rest)
  {
    var s, p := l + CRLF + Unlines(rest), |l| - |EOC|;
    assert s[..p] == l[..p];
    assert s[p..] == EOC + CRLF + Unlines(rest);
    var two := [l[..p] + added, EOC];
    UnlinesAppend(two, rest);
    assert Unlines(two) == l[..p] + added + CRLF + (EOC + CRLF + Unlines([]));
  }

  lemma KeepLine(l: string, rest: seq<string>, added: string)
    requires InsertAfter(Unlines(rest), added + CRLF) == Unlines(InsertFirst(rest, added))
    requires Find(l + CRLF + Unlines(rest), EOC_LINE) ==
      match Find(Unlines(rest), EOC_LINE) case None => None case Some(p) => Some(|l| + 2 + p)
    ensures InsertAfter(l + CRLF + Unlines(rest), added + CRLF) == Unlines([l] + InsertFirst(rest, added))
  {
    hide InsertFirst, Find;
    var t, head, more := Unlines(rest), l + CRLF, added + CRLF;
    InsertBehindHead(head, t, more);
    assert ([l] + InsertFirst(rest, added))[1..] == InsertFirst(rest, added);
  }

  lemma InsertBehindHead(head: string, t: string, more: string)
    requires Find(head + t, EOC_LINE) == match Find(t, EOC_LINE) case None => None case Some(p) => Some(|head| + p)
    ensures InsertAfter(head + t, more) == head + InsertAfter(t, more)
  {
    hide Find;
    if Find(t, EOC_LINE).Some? {
      var p := Find(t, EOC_LINE).value;
      assert (head + t)[..|head| + p] == head + t[..p];
      assert (head + t)[|head| + p..] == t[p..];
    }
  }

  // ---------- inserting after the last media marker ----------

  /** Search for the last "m=", then insert before the end-of-candidates text behind it. */
  function InsertInto(out: string, added: string): string {
    var r := match RFind(out, MEDIA) case None => 0 case Some(i) => i;
    out[..r] + InsertAfter(out[r..], added)
  }

  predicate HasMedia(l: string) { RFind(l, MEDIA).Some? }

  /** The last line of a section that contains the media marker anywhere. */
  function LastMedia(sec: seq<string>): (j: nat)
    requires sec != []
    ensures j < |sec|
    ensures forall i :: j < i < |sec| ==> !HasMedia(sec[i])
  {
    var n := |sec| - 1;
    if n == 0 || HasMedia(sec[n]) then n else LastMedia(sec[..n])
  }

  function InsertLines(sec: seq<string>, added: string): seq<string>
    requires sec != []
  {
    sec[..LastMedia(sec)] + InsertFirst(sec[LastMedia(sec)..], added)
  }

  lemma MediaInLine(l: string, rest: string, p: nat)
    requires p <= |l| + 1 && At(l + CRLF + rest, MEDIA, p)
    ensures At(l, MEDIA, p)
  {
    var s := l + CRLF + rest;
    assert s[p..p + 2][0] == s[p] == 'm' && s[p..p + 2][1] == s[p + 1] == '=';
    assert s[|l|] == '\r' && s[|l| + 1] == '\n';
    assert p + 2 <= |l|;
    assert l[p..p + 2] == s[p..p + 2];
  }

  lemma {:induction false} NoMediaInText(ls: seq<string>, p: nat)
    requires forall i :: 0 <= i < |ls| ==> !HasMedia(ls[i])
    ensures !At(Unlines(ls), MEDIA, p)
  {
    if ls != [] {
      var l, rest := ls[0], Unlines(ls[1..]);
      if p <= |l| + 1 {
        RFindSpec(l, MEDIA);
        if At(l + CRLF + rest, MEDIA, p) {
          MediaInLine(l, rest, p);
        }
      } else {
        AtShift(l + CRLF, rest, MEDIA, p);
        NoMediaInText(ls[1..], p - |l| - 2);
      }
    }
  }

  lemma NoMediaBehind(l: string, t: nat, rest: seq<string>, q: nat)
    requires RFind(l, MEDIA) == Some(t) && t < q && forall i :: 0 <= i < |rest| ==> !HasMedia(rest[i])
    ensures !At(l + CRLF + Unlines(rest), MEDIA, q)
  {
    hide HasMedia;
    if q <= |l| + 1 {
      RFindSpec(l, MEDIA);
      if At(l + CRLF + Unlines(rest), MEDIA, q) {
        MediaInLine(l, Unlines(rest), q);
      }
    } else {
      AtShift(l + CRLF, Unlines(rest), MEDIA, q);
      NoMediaInText(rest, q - |l| - 2);
    }
  }

  lemma AtExtends(s: string, pat: string, i: nat, more: string)
    requires At(s, pat, i)
    ensures At(s + more, pat, i)
  {
    assert (s + more)[i..i + |pat|] == s[i..i + |pat|];
  }

  lemma LastMediaInText(l: string, t: nat, rest: seq<string>)
    requires RFind(l, MEDIA) == Some(t) && forall i :: 0 <= i < |rest| ==> !HasMedia(rest[i])
    ensures RFind(l + CRLF + Unlines(rest), MEDIA) == Some(t)
  {
    hide HasMedia, Unlines, RFind, At;
    var text := l + CRLF + Unlines(rest);
    AtExtends(l, MEDIA, t, CRLF);
    AtExtends(l + CRLF, MEDIA, t, Unlines(rest));
    forall q: nat | t < q ensures !At(text, MEDIA, q) {
      NoMediaBehind(l, t, rest, q);
    }
    RFindIs(text, MEDIA, t);
  }

  lemma InsertBehindFront(front: string, text: string, t: nat, added: string)
    requires RFind(text, MEDIA) == Some(t)
    ensures InsertInto(front + text, added) == front + (text[..t] + InsertAfter(text[t..], added))
  {
    hide InsertAfter;
    var all := front + text;
    RFindSpec(text, MEDIA);
    AtShift(front, text, MEDIA, |front| + t);
    forall p: nat | |front| + t < p ensures !At(all, MEDIA, p) {
      AtShift(front, text, MEDIA, p);
      assert p <= |all| ==> !At(text, MEDIA, p - |front|);
    }
    RFindIs(all, MEDIA, |front| + t);
    assert all[..|front| + t] == front + text[..t];
    assert all[|front| + t..] == text[t..];
    assert (front + text[..t]) + InsertAfter(text[t..], added) == front + (text[..t] + InsertAfter(text[t..], added));
  }

  lemma GlueCut(a: string, b: string, rest: seq<string>, added: string)
    ensures a + Unlines([b + added, EOC] + rest) == Unlines([(a + b) + added, EOC] + rest)
  {
    var x, y := [b + added, EOC], [(a + b) + added, EOC];
    UnlinesAppend(x, rest);
    UnlinesAppend(y, rest);
    assert Unlines(x) == b + added + CRLF + Unlines([EOC]);
    assert Unlines(y) == a + b + added + CRLF + Unlines([EOC]);
  }

  lemma GlueKeep(a: string, b: string, tail: seq<string>)
    ensures a + Unlines([b] + tail) == Unlines([a + b] + tail)
  {
    assert ([b] + tail)[1..] == tail && ([a + b] + tail)[1..] == tail;
    assert a + (b + CRLF + Unlines(tail)) == (a + b) + CRLF + Unlines(tail);
  }

  /** Inserting into the rest of a line is inserting into the whole line. */
  lemma GlueFirst(a: string, b: string, rest: seq<string>, added: string)
    requires EndsWith(a + b, EOC) ==> EndsWith(b, EOC)
    ensures a + Unlines(InsertFirst([b] + rest, added)) == Unlines(InsertFirst([a + b] + rest, added))
  {
    hide Unlines;
    assert ([b] + rest)[1..] == rest && ([a + b] + rest)[1..] == rest;
    if EndsWith(b, EOC) {
      var p := |b| - |EOC|;
      assert (a + b)[|a + b| - |EOC|..] == b[p..];
      assert (a + b)[..|a + b| - |EOC|] == a + b[..p];
      GlueCut(a, b[..p], rest, added);
    } else {
      GlueKeep(a, b, InsertFirst(rest, added));
    }
  }

  lemma SuffixChar(l: string, suffix: string, k: nat)
    requires EndsWith(l, suffix) && |l| - |suffix| <= k < |l|
    ensures l[k] in suffix
  {
    assert l[|l| - |suffix|..][k - (|l| - |suffix|)] == l[k];
  }

  lemma SuffixOfRest(l: string, suffix: string, t: nat)
    requires EndsWith(l, suffix) && t <= |l| - |suffix|
    ensures EndsWith(l[t..], suffix)
  {
    assert l[t..][|l[t..]| - |suffix|..] == l[|l| - |suffix|..];
  }

  lemma MarkerBeforeEoc(l: string, t: nat)
    requires At(l, MEDIA, t) && EndsWith(l, EOC)
    ensures EndsWith(l[t..], EOC)
  {
    hide EndsWith;
    assert l[t..t + 2][0] == l[t] == 'm';
    assert 'm' !in EOC;
    if t > |l| - |EOC| {
      SuffixChar(l, EOC, t);
    } else {
      SuffixOfRest(l, EOC, t);
    }
  }

  lemma CutText(l: string, t: nat, more: string)
    requires t <= |l|
    ensures (l + CRLF + more)[..t] == l[..t] && (l + CRLF + more)[t..] == l[t..] + CRLF + more
  {
  }

  lemma InsertIntoTail(before: string, l: string, t: nat, rest: seq<string>, added: string)
    requires RFind(l, MEDIA) == Some(t) && OneLine(l) && AllOneLine(rest)
    requires forall i :: 0 <= i < |rest| ==> !HasMedia(rest[i])
    ensures InsertInto(before + (l + CRLF + Unlines(rest)), added + CRLF) ==
      before + Unlines(InsertFirst([l] + rest, added))
  {
    hide InsertFirst, InsertAfter, InsertInto, HasMedia, EndsWith, RFind;
    LastMediaInText(l, t, rest);
    InsertBehindFront(before, l + CRLF + Unlines(rest), t, added + CRLF);
    CutText(l, t, Unlines(rest));
    var tail := [l[t..]] + rest;
    assert tail[1..] == rest;
    InsertAfterOnLines(tail, added);
    if EndsWith(l, EOC) {
      MarkerBeforeEoc(l, t);
    }
    assert l[..t] + l[t..] == l;
    GlueFirst(l[..t], l[t..], rest, added);
  }

  lemma UnlinesAt(sec: seq<string>, j: nat)
    requires j < |sec|
    ensures Unlines(sec) == Unlines(sec[..j]) + (sec[j] + CRLF + Unlines(sec[j + 1..]))
    ensures [sec[j]] + sec[j + 1..] == sec[j..]
  {
    var tail := sec[j..];
    assert sec == sec[..j] + tail;
    UnlinesAppend(sec[..j], tail);
    assert tail[1..] == sec[j + 1..] && tail[0] == sec[j];
    assert Unlines(tail) == tail[0] + CRLF + Unlines(tail[1..]);
  }

  /** Inserting by search into a text whose last section is `sec` inserts exactly one line into it. */
  lemma InsertIntoSection(front: string, sec: seq<string>, added: string)
    requires sec != [] && HasMedia(sec[0]) && AllOneLine(sec)
    ensures InsertInto(front + Unlines(sec), added + CRLF) == front + Unlines(InsertLines(sec, added))
  {
    hide InsertFirst, InsertInto, HasMedia, LastMedia, Unlines;
    var j := LastMedia(sec);
    LastMediaHas(sec);
    var l, rest, u := sec[j], sec[j + 1..], Unlines(sec[..j]);
    InsertIntoTail(front + u, l, MarkerOf(l), rest, added);
    UnlinesAt(sec, j);
    Associate(front, u, l + CRLF + Unlines(rest));
    UnlinesAppend(sec[..j], InsertFirst(sec[j..], added));
    Associate(front, u, Unlines(InsertFirst(sec[j..], added)));
  }

  lemma {:induction false} LastMediaHas(sec: seq<string>)
    requires sec != [] && HasMedia(sec[0])
    ensures HasMedia(sec[LastMedia(sec)])
  {
    var n := |sec| - 1;
    if n > 0 && !HasMedia(sec[n]) {
      LastMediaHas(sec[..n]);
    }
  }

  function MarkerOf(l: string): (t: nat)
    requires HasMedia(l)
    ensures t <= |l| && RFind(l, MEDIA) == Some(t) && At(l, MEDIA, t)
  {
    RFind(l, MEDIA).value
  }
}
