/** Advertising twice: exactly when it changes nothing more. */
module SdpTwice {
  import opened Net
  import opened Text
  import opened SdpLines
  import opened Sdp
  import opened SdpProofs
  import Utf8

  // ---------- where the added text goes ----------

  /** The first line that ends in the end-of-candidates text. */
  function CutIndex(ls: seq<string>): (r: Option<nat>)
    ensures r.Some? ==> r.value < |ls| && EndsWith(ls[r.value], EOC)
  {
    if ls == [] then None
    else if EndsWith(ls[0], EOC) then Some(0)
    else match CutIndex(ls[1..]) case None => None case Some(k) => Some(k + 1)
  }

  /** What stands before that text on its line. */
  function BeforeEoc(l: string): string
    requires EndsWith(l, EOC)
  {
    l[..|l| - |EOC|]
  }

  /** A sequence with one element replaced by others. */
  function Replaced<T>(s: seq<T>, k: nat, items: seq<T>): seq<T>
    requires k < |s|
  {
    s[..k] + items + s[k + 1..]
  }

  lemma ReplacedBehind<T>(front: seq<T>, s: seq<T>, k: nat, items: seq<T>)
    requires k < |s|
    ensures front + Replaced(s, k, items) == Replaced(front + s, |front| + k, items)
  {
    assert (front + s)[..|front| + k] == front + s[..k] && (front + s)[|front| + k + 1..] == s[k + 1..];
  }

  lemma {:induction false} InsertFirstForm(ls: seq<string>, added: string)
    ensures match CutIndex(ls)
      case None => InsertFirst(ls, added) == ls + [added]
      case Some(k) => InsertFirst(ls, added) == Replaced(ls, k, [BeforeEoc(ls[k]) + added, EOC])
  {
    hide EndsWith;
    if ls != [] {
      assert ls == [ls[0]] + ls[1..];
      if !EndsWith(ls[0], EOC) {
        InsertFirstForm(ls[1..], added);
        if CutIndex(ls[1..]).Some? {
          var k := CutIndex(ls[1..]).value;
          ReplacedBehind([ls[0]], ls[1..], k, [BeforeEoc(ls[1..][k]) + added, EOC]);
        }
      }
    }
  }

  /** The line of a section that the added text is put on, if it is put on one. */
  function CutLine(sec: seq<string>): (r: Option<nat>)
    requires sec != []
    ensures r.Some? ==> r.value < |sec| && EndsWith(sec[r.value], EOC)
  {
    var j := LastMedia(sec);
    match CutIndex(sec[j..]) case None => None case Some(k) => Some(j + k)
  }

  function Added(sec: seq<string>, t: IpText, ep: Endpoint): string
    requires Gains(sec, t, ep)
  {
    AddedLine(t, ep, Host(sec, t, ep).value)
  }

  lemma FlushForm(sec: seq<string>, t: IpText, ep: Endpoint)
    requires sec != [] && Gains(sec, t, ep)
    ensures match CutLine(sec)
      case None => Flush(sec, t, ep) == sec + [Added(sec, t, ep)]
      case Some(k) => Flush(sec, t, ep) == Replaced(sec, k, [BeforeEoc(sec[k]) + Added(sec, t, ep), EOC])
  {
    hide Host, Advertised, AddedLine, InsertFirst, EndsWith, Replaced, LastMedia;
    var j := LastMedia(sec);
    InsertFirstForm(sec[j..], Added(sec, t, ep));
    assert sec[..j] + sec[j..] == sec;
    if CutIndex(sec[j..]).Some? {
      var k := CutIndex(sec[j..]).value;
      ReplacedBehind(sec[..j], sec[j..], k, [BeforeEoc(sec[j..][k]) + Added(sec, t, ep), EOC]);
    }
  }

  // ---------- the condition ----------

  /** A section that gains a line, and on which the line that the added text ends up on advertises the endpoint. */
  predicate Settles(sec: seq<string>, t: IpText, ep: Endpoint)
    requires sec != []
  {
    Gains(sec, t, ep) && CutLine(sec).Some? ==>
      Advertises(BeforeEoc(sec[CutLine(sec).value]) + Added(sec, t, ep), t, ep)
  }

  predicate SettledSections(ls: seq<string>, t: IpText, ep: Endpoint)
    decreases |ls|
  {
    ls == [] || (var k := NextMedia(ls, 1); Settles(ls[..k], t, ep) && SettledSections(ls[k..], t, ep))
  }

  predicate SettledLines(ls: seq<string>, t: IpText, ep: Endpoint) {
    SettledSections(ls[NextMedia(ls, 0)..], t, ep)
  }

  // ---------- words before the cut ----------

  lemma {:induction false} FirstWord(w: string, x: string)
    requires x != [] && !IsWhitespace(x[0]) && forall i :: 0 <= i < |w| ==> !IsWhitespace(w[i])
    ensures WordEnd(w + x) == |w| + WordEnd(x)
  {
    if w == [] {
      assert w + x == x;
    } else {
      FirstWord(w[1..], x);
      assert (w + x)[1..] == w[1..] + x;
    }
  }

  lemma WordsSkip(s: string)
    requires s != [] && IsWhitespace(s[0])
    ensures Words(s) == Words(s[1..])
  {
  }

  /** Text put right before a word makes it longer and changes no other. */
  lemma WordsGlued(w: string, y: string)
    requires y != [] && !IsWhitespace(y[0]) && forall i :: 0 <= i < |w| ==> !IsWhitespace(w[i])
    ensures var m := WordEnd(y); m > 0 && Words(w + y) == [w + y[..m]] + Words(y)[1..] && Words(y) != []
  {
    var m := WordEnd(y);
    FirstWord(w, y);
    var b := w + y;
    assert b[0] == if w == [] then y[0] else w[0];
    assert b[..|w| + m] == w + y[..m] && b[|w| + m..] == y[m..];
    assert Words(y) == [y[..m]] + Words(y[m..]);
  }

  /** A text starts with a blank, is one piece of a word, or has a word and more behind it. */
  lemma FirstOf(prefix: string, x: string)
    requires prefix != [] && !IsWhitespace(prefix[0]) && WordEnd(prefix) < |prefix|
    ensures var m := WordEnd(prefix);
      m > 0 && Words(prefix + x) == [prefix[..m]] + Words(prefix[m..] + x)
  {
    var m := WordEnd(prefix);
    assert prefix + x == prefix[..m] + (prefix[m..] + x);
    WordsStep(prefix[..m], prefix[m..] + x);
  }

  /** Words that end before a cut are the same whatever is put behind it. */
  lemma {:induction false} SameFront(prefix: string, x: string, y: string) returns (n: nat)
    requires x != [] && y != [] && !IsWhitespace(x[0]) && !IsWhitespace(y[0])
    ensures n <= |Words(prefix + x)| && n <= |Words(prefix + y)| && Words(prefix + x)[..n] == Words(prefix + y)[..n]
    ensures |Words(prefix + y)| == n + |Words(y)| && Words(y) != []
    ensures Words(prefix + y)[n + 1..] == Words(y)[1..] && EndsWith(Words(prefix + y)[n], Words(y)[0])
    decreases |prefix|
  {
    hide Words;
    if prefix == [] {
      n := 0;
      assert prefix + y == y && "" + y == y;
      WordsGlued("", y);
    } else if IsWhitespace(prefix[0]) {
      assert (prefix + x)[1..] == prefix[1..] + x && (prefix + y)[1..] == prefix[1..] + y;
      WordsSkip(prefix + x);
      WordsSkip(prefix + y);
      n := SameFront(prefix[1..], x, y);
    } else if WordEnd(prefix) == |prefix| {
      n := 0;
      WordsGlued(prefix, y);
      FirstWordIs(y);
    } else {
      FirstOf(prefix, x);
      FirstOf(prefix, y);
      var m := WordEnd(prefix);
      var k := SameFront(prefix[m..], x, y);
      n := k + 1;
      assert Words(prefix + x)[..n] == [prefix[..m]] + Words(prefix[m..] + x)[..k];
      assert Words(prefix + y)[..n] == [prefix[..m]] + Words(prefix[m..] + y)[..k];
      assert Words(prefix + y)[n + 1..] == Words(prefix[m..] + y)[k + 1..];
    }
  }

  lemma FirstWordIs(y: string)
    requires y != [] && !IsWhitespace(y[0])
    ensures Words(y) != [] && Words(y)[0] == y[..WordEnd(y)]
  {
  }

  lemma EocIsOneWord()
    ensures Words(EOC) == [EOC] && !IsWhitespace(EOC[0]) && WordEnd(EOC) == |EOC|
  {
    assert IsWord(EOC);
    WordsStep(EOC, []);
    WordEndAt(EOC, []);
    assert EOC + [] == EOC;
  }

  /** No candidate line starts in the middle of a cut. */
  lemma CandidateStart(prefix: string)
    requires CANDIDATE <= prefix + EOC
    ensures CANDIDATE <= prefix
  {
    var l, m := prefix + EOC, |prefix|;
    assert forall i :: 0 <= i < 12 ==> l[i] == CANDIDATE[i];
    assert l[m] == EOC[0] && l[m + 1] == EOC[1] && l[m + 2] == EOC[2];
    assert EOC[0] == 'a' && EOC[1] == '=' && EOC[2] == 'e';
    assert m >= 12;
    assert prefix[..12] == l[..12];
  }

  /** The last word of a text that ends in a word is no shorter than it. */
  lemma {:induction false} LastWordEnds(prefix: string, e: string)
    requires IsWord(e) && Words(e) == [e] && WordEnd(e) == |e|
    ensures var p := Words(prefix + e); p != [] && |p[|p| - 1]| >= |e|
    decreases |prefix|
  {
    hide Words, IsWord;
    assert e != [] && !IsWhitespace(e[0]) by { WordStarts(e); }
    if prefix == [] {
      assert prefix + e == e;
    } else if IsWhitespace(prefix[0]) {
      assert (prefix + e)[1..] == prefix[1..] + e;
      WordsSkip(prefix + e);
      LastWordEnds(prefix[1..], e);
    } else if WordEnd(prefix) == |prefix| {
      WordsGlued(prefix, e);
    } else {
      FirstOf(prefix, e);
      LastWordEnds(prefix[WordEnd(prefix)..], e);
    }
  }

  lemma WordStarts(e: string)
    requires IsWord(e)
    ensures e != [] && !IsWhitespace(e[0])
  {
  }

  /** Words before a long last one stay when something else is put in its place. */
  lemma FirstEight(prefix: string, added: string, e: string)
    requires IsWord(e) && Words(e) == [e] && WordEnd(e) == |e| && added != [] && !IsWhitespace(added[0])
    requires |Words(prefix + e)| >= 8 && |Words(prefix + e)[7]| < |e|
    ensures |Words(prefix + added)| >= 8
    ensures forall i :: 0 <= i < 8 ==> Words(prefix + added)[i] == Words(prefix + e)[i]
  {
    hide Words;
    var n := SameFront(prefix, added, e);
    LastWordEnds(prefix, e);
    var a, p := Words(prefix + added), Words(prefix + e);
    assert n >= 8;
    assert forall i :: 0 <= i < n ==> a[..n][i] == p[..n][i];
  }

  lemma EocIsWord()
    ensures IsWord(EOC) && |EOC| == 19
  {
  }

  lemma HostWords(l: string, t: IpText, ep: Endpoint)
    requires HostOf(l, t, ep).Some?
    ensures CANDIDATE <= l && |Words(l)| >= 8 && |Words(l)[7]| == 4
  {
    hide Words;
  }

  lemma SameHost(l: string, m: string, t: IpText, ep: Endpoint)
    requires HostOf(l, t, ep).Some? && CANDIDATE <= m && |Words(l)| >= 8 && |Words(m)| >= 8
    requires forall i :: 0 <= i < 8 ==> Words(m)[i] == Words(l)[i]
    ensures HostOf(m, t, ep).Some?
  {
    hide Words;
    var p, q := Words(l), Words(m);
    assert q[1] == p[1] && q[2] == p[2] && q[4] == p[4] && q[6] == p[6] && q[7] == p[7];
  }

  /** A host candidate that is cut stays one: its eight words end before the cut. */
  lemma CutHostStays(l: string, added: string, t: IpText, ep: Endpoint)
    requires EndsWith(l, EOC) && HostOf(l, t, ep).Some? && added != [] && !IsWhitespace(added[0])
    ensures HostOf(BeforeEoc(l) + added, t, ep).Some?
  {
    hide Words, IsWord, HostOf;
    var prefix := BeforeEoc(l);
    assert l == prefix + EOC;
    HostWords(l, t, ep);
    EocIsOneWord();
    EocIsWord();
    FirstEight(prefix, added, EOC);
    CandidateStart(prefix);
    SameHost(l, prefix + added, t, ep);
  }

  // ---------- a flushed section ----------

  lemma NotMediaAfterCut(l: string, added: string)
    requires EndsWith(l, EOC) && added != [] && added[0] == 'a'
    ensures IsMedia(BeforeEoc(l) + added) <==> IsMedia(l)
  {
    var prefix := BeforeEoc(l);
    var m := prefix + added;
    assert l == prefix + EOC;
    assert EOC[0] == 'a' && MEDIA[0] == 'm' && MEDIA[1] == '=';
    if |prefix| >= 2 {
      assert m[..2] == prefix[..2] == l[..2];
    } else if |prefix| == 1 {
      assert m[1] == 'a' && l[1] == 'a';
    } else {
      assert m[0] == 'a' && l[0] == 'a';
    }
  }

  lemma AddedIsPlain(sec: seq<string>, t: IpText, ep: Endpoint)
    requires Gains(sec, t, ep) && PrintsWords(t)
    ensures var a := Added(sec, t, ep);
      a != [] && a[0] == 'a' && !IsWhitespace(a[0]) && !IsMedia(a) && OneLine(a) && Advertises(a, t, ep)
  {
    hide Host, Advertised, AddedLine, Advertises;
    var host := Host(sec, t, ep).value;
    HostIsWords(sec, t, ep);
    AddedStart(t, ep, host);
    AddedAdvertises(t, ep, host);
    AddedOneLine(t, ep, host);
    assert CANDIDATE[0] == 'a';
  }

  lemma AddedOneLine(t: IpText, ep: Endpoint, host: (string, string))
    requires PrintsWords(t) && IsWord(host.0) && IsWord(host.1)
    ensures OneLine(AddedLine(t, ep, host))
  {
    AddedIsWords(t, ep, host);
    WordsOneLine(AddedWords(t, ep, host));
  }

  lemma FlushedIsSection(sec: seq<string>, t: IpText, ep: Endpoint)
    requires PrintsWords(t) && Section(sec)
    ensures Section(Flush(sec, t, ep))
    ensures AllOneLine(sec) ==> AllOneLine(Flush(sec, t, ep))
  {
    hide Gains, Added, InsertLines, PrintsWords, IsMedia;
    if Gains(sec, t, ep) {
      FlushForm(sec, t, ep);
      AddedIsPlain(sec, t, ep);
      if CutLine(sec).Some? {
        var k := CutLine(sec).value;
        NotMediaAfterCut(sec[k], Added(sec, t, ep));
        EocIsNoMedia();
        EocIsOneLine();
      }
    }
  }

  lemma EocIsOneLine()
    ensures OneLine(EOC)
  {
  }

  lemma EocAdvertisesNothing(t: IpText, ep: Endpoint)
    ensures !Advertises(EOC, t, ep)
  {
    assert EOC[2] == 'e' && CANDIDATE[2] == 'c';
  }

  lemma CutAdvertised(sec: seq<string>, k: nat, line: string, t: IpText, ep: Endpoint)
    requires k < |sec| && !Advertised(sec, t, ep)
    ensures Advertised(Replaced(sec, k, [line, EOC]), t, ep) <==> Advertises(line, t, ep)
  {
    hide Advertises;
    var f := Replaced(sec, k, [line, EOC]);
    EocAdvertisesNothing(t, ep);
    assert f[k] == line && f[k + 1] == EOC;
    forall i | 0 <= i < |f| && i != k ensures !Advertises(f[i], t, ep) {
      if i < k {
        assert f[i] == sec[i];
      } else if i > k + 1 {
        assert f[i] == sec[i - 1];
      }
    }
  }

  lemma CutHost(sec: seq<string>, k: nat, added: string, t: IpText, ep: Endpoint)
    requires k < |sec| && EndsWith(sec[k], EOC) && Host(sec, t, ep).Some? && added != [] && !IsWhitespace(added[0])
    ensures Host(Replaced(sec, k, [BeforeEoc(sec[k]) + added, EOC]), t, ep).Some?
  {
    hide HostOf, Host;
    var f := Replaced(sec, k, [BeforeEoc(sec[k]) + added, EOC]);
    HostExists(sec, t, ep);
    HostExists(f, t, ep);
    var i :| 0 <= i < |sec| && HostOf(sec[i], t, ep).Some?;
    if i < k {
      assert f[i] == sec[i];
    } else if i > k {
      assert f[i + 1] == sec[i];
    } else {
      CutHostStays(sec[k], added, t, ep);
      assert f[k] == BeforeEoc(sec[k]) + added;
    }
  }

  /** After one pass a section gains again exactly when it did not settle. */
  lemma GainsAgainIff(sec: seq<string>, t: IpText, ep: Endpoint)
    requires PrintsWords(t) && Section(sec)
    ensures Gains(Flush(sec, t, ep), t, ep) <==> !Settles(sec, t, ep)
  {
    hide Host, Advertised, Advertises, AddedLine, InsertLines, PrintsWords, IsMedia;
    if Gains(sec, t, ep) {
      FlushForm(sec, t, ep);
      AddedIsPlain(sec, t, ep);
      var added, f := Added(sec, t, ep), Flush(sec, t, ep);
      if CutLine(sec).Some? {
        var k := CutLine(sec).value;
        CutAdvertised(sec, k, BeforeEoc(sec[k]) + added, t, ep);
        CutHost(sec, k, added, t, ep);
      } else {
        assert Advertised(f, t, ep) by { LastAdvertised(sec, added, t, ep); }
      }
    }
  }

  lemma LastAdvertised(sec: seq<string>, added: string, t: IpText, ep: Endpoint)
    requires Advertises(added, t, ep)
    ensures Advertised(sec + [added], t, ep)
  {
    assert (sec + [added])[|sec|] == added;
  }

  lemma FlushLength(sec: seq<string>, t: IpText, ep: Endpoint)
    requires sec != []
    ensures |Flush(sec, t, ep)| == |sec| + (if Gains(sec, t, ep) then 1 else 0)
  {
    hide Gains, Added, InsertLines;
    if Gains(sec, t, ep) {
      FlushForm(sec, t, ep);
    }
  }

  // ---------- all sections ----------

  lemma {:induction false} SectionsTwiceIff(ls: seq<string>, t: IpText, ep: Endpoint)
    requires PrintsWords(t) && (ls == [] || IsMedia(ls[0]))
    ensures var outs := OutSections(ls, t, ep);
      && (outs == [] || IsMedia(outs[0])) && |OutSections(outs, t, ep)| >= |outs|
      && (OutSections(outs, t, ep) == outs <==> SettledSections(ls, t, ep))
      && (|OutSections(outs, t, ep)| == |outs| ==> SettledSections(ls, t, ep))
    decreases |ls|
  {
    hide Gains, Flush, IsMedia, PrintsWords, Settles;
    if ls != [] {
      var k := NextMedia(ls, 1);
      var sec, rest := ls[..k], ls[k..];
      SectionsTwiceIff(rest, t, ep);
      assert Section(sec);
      var f, outs := Flush(sec, t, ep), OutSections(rest, t, ep);
      FlushedIsSection(sec, t, ep);
      SectionFirst(f, outs, t, ep);
      GainsAgainIff(sec, t, ep);
      FlushLength(f, t, ep);
      if !Gains(f, t, ep) {
        FlushIdle(f, t, ep);
      }
      Concatenated(Flush(f, t, ep), OutSections(outs, t, ep), f, outs);
    }
  }

  lemma FlushIdle(f: seq<string>, t: IpText, ep: Endpoint)
    requires f != [] && !Gains(f, t, ep)
    ensures Flush(f, t, ep) == f
  {
  }

  lemma Concatenated(a: seq<string>, b: seq<string>, c: seq<string>, d: seq<string>)
    requires |a| >= |c| && |b| >= |d|
    ensures |a + b| == |c + d| ==> |a| == |c| && |b| == |d|
    ensures a + b == c + d ==> a == c && b == d
  {
    if a + b == c + d {
      assert |a + b| == |c + d|;
      assert a == (a + b)[..|a|] && c == (c + d)[..|c|];
      assert b == (a + b)[|a|..] && d == (c + d)[|c|..];
    }
  }

  lemma {:induction false} SectionsAreLonger(ls: seq<string>, t: IpText, ep: Endpoint)
    ensures |OutSections(ls, t, ep)| >= |ls|
    decreases |ls|
  {
    hide Flush;
    if ls != [] {
      var k := NextMedia(ls, 1);
      SectionsAreLonger(ls[k..], t, ep);
      FlushLength(ls[..k], t, ep);
    }
  }

  lemma OutIsLonger(ls: seq<string>, t: IpText, ep: Endpoint)
    ensures |OutLines(ls, t, ep)| >= |ls|
  {
    SectionsAreLonger(ls[NextMedia(ls, 0)..], t, ep);
  }

  /** Advertising lines twice changes nothing more exactly when every gaining section settles. */
  lemma LinesTwiceIff(ls: seq<string>, t: IpText, ep: Endpoint)
    requires PrintsWords(t)
    ensures OutLines(OutLines(ls, t, ep), t, ep) == OutLines(ls, t, ep) <==> SettledLines(ls, t, ep)
  {
    hide OutSections, SettledSections, PrintsWords;
    var k := NextMedia(ls, 0);
    var outs := OutSections(ls[k..], t, ep);
    SectionsTwiceIff(ls[k..], t, ep);
    PreambleFirst(ls[..k], outs, t, ep);
    Concatenated(ls[..k], OutSections(outs, t, ep), ls[..k], outs);
  }

  lemma {:induction false} SectionsOneLine(ls: seq<string>, t: IpText, ep: Endpoint)
    requires PrintsWords(t) && (ls == [] || IsMedia(ls[0])) && AllOneLine(ls)
    ensures AllOneLine(OutSections(ls, t, ep))
    decreases |ls|
  {
    hide Gains, IsMedia, PrintsWords, OneLine, Flush;
    if ls != [] {
      var k := NextMedia(ls, 1);
      SectionsOneLine(ls[k..], t, ep);
      assert Section(ls[..k]);
      FlushedIsSection(ls[..k], t, ep);
    }
  }

  lemma OutIsOneLine(ls: seq<string>, t: IpText, ep: Endpoint)
    requires PrintsWords(t) && AllOneLine(ls)
    ensures AllOneLine(OutLines(ls, t, ep))
  {
    hide OutSections, PrintsWords, OneLine;
    SectionsOneLine(ls[NextMedia(ls, 0)..], t, ep);
  }

  /** Rewriting an answer twice gives the bytes of rewriting it once exactly when its lines settle. */
  lemma AdvertiseTwiceIff(body: seq<byte>, t: IpText, ep: Endpoint)
    requires PrintsWords(t) && Advertise(body, t, ep).Ok?
    ensures Advertise(Advertise(body, t, ep).value, t, ep) == Advertise(body, t, ep)
      <==> SettledLines(Lines(Utf8.Decode(body).value), t, ep)
  {
    hide OutLines, SettledLines, PrintsWords, Lines;
    var ls := Lines(Utf8.Decode(body).value);
    var outs := OutLines(ls, t, ep);
    var again := OutLines(outs, t, ep);
    Utf8.EncodeDecodes(Unlines(outs));
    Utf8.EncodeDecodes(Unlines(again));
    LinesAreOneLine(Utf8.Decode(body).value);
    OutIsOneLine(ls, t, ep);
    OutIsOneLine(outs, t, ep);
    LinesOfUnlines(outs);
    LinesOfUnlines(again);
    LinesTwiceIff(ls, t, ep);
  }

  // ---------- whole lines settle, and a cut line may not ----------

  lemma {:induction false} WholeFirstCut(ls: seq<string>)
    requires WholeFirst(ls) && CutIndex(ls).Some?
    ensures ls[CutIndex(ls).value] == EOC
  {
    if !EndsWith(ls[0], EOC) {
      WholeFirstCut(ls[1..]);
    }
  }

  lemma WholeSettles(sec: seq<string>, t: IpText, ep: Endpoint)
    requires PrintsWords(t) && sec != [] && (Gains(sec, t, ep) ==> Whole(sec))
    ensures Settles(sec, t, ep)
  {
    hide Host, Advertised, Advertises, AddedLine, PrintsWords;
    if Gains(sec, t, ep) && CutLine(sec).Some? {
      var j := LastMedia(sec);
      WholeFirstCut(sec[j..]);
      AddedIsPlain(sec, t, ep);
      assert BeforeEoc(EOC) + Added(sec, t, ep) == Added(sec, t, ep);
    }
  }

  /** Whole end-of-candidates lines are enough. */
  lemma {:induction false} WholeSectionsSettle(ls: seq<string>, t: IpText, ep: Endpoint)
    requires PrintsWords(t) && WholeSections(ls, t, ep)
    ensures SettledSections(ls, t, ep)
    decreases |ls|
  {
    hide Gains, Whole, Settles, PrintsWords;
    if ls != [] {
      var k := NextMedia(ls, 1);
      WholeSectionsSettle(ls[k..], t, ep);
      WholeSettles(ls[..k], t, ep);
    }
  }

  lemma WholeLinesSettle(ls: seq<string>, t: IpText, ep: Endpoint)
    requires PrintsWords(t) && WholeLines(ls, t, ep)
    ensures SettledLines(ls, t, ep)
  {
    WholeSectionsSettle(ls[NextMedia(ls, 0)..], t, ep);
  }
}
