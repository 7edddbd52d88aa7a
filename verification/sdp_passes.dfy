/** How many passes a description needs before advertising changes nothing more. */
module SdpPasses {
  import opened Net
  import opened Text
  import opened SdpLines
  import opened Sdp
  import opened SdpProofs
  import opened SdpTwice
  import Utf8

  // ---------- the added line's end ----------

  lemma EndsInWord(s: string, w: string, e: string)
    requires |s| > |w| && s[|s| - |w| - 1..] == " " + w && ' ' !in e
    ensures EndsWith(s, e) <==> EndsWith(w, e)
  {
    var n := |s| - |w| - 1;
    assert s[n..][1..] == w && s[n] == s[n..][0] == ' ';
    if |e| <= |w| {
      assert s[|s| - |e|..] == w[|w| - |e|..];
    } else if |e| <= |s| {
      assert s[|s| - |e|..][n - (|s| - |e|)] == s[n];
    }
  }

  /** The added line ends in the end-of-candidates text exactly when the host's port word does. */
  lemma AddedEnds(prefix: string, t: IpText, ep: Endpoint, host: (string, string))
    ensures EndsWith(prefix + AddedLine(t, ep, host), EOC) <==> EndsWith(host.1, EOC)
  {
    hide EndsWith;
    var ws, added := AddedWords(t, ep, host), AddedLine(t, ep, host);
    JoinEnds(ws, " ");
    var s := prefix + added;
    assert s[|s| - |host.1| - 1..] == added[|added| - |host.1| - 1..];
    EndsInWord(s, host.1, EOC);
  }

  // ---------- where the next text goes ----------

  lemma {:induction false} CutIndexIs(ls: seq<string>, m: nat)
    requires m < |ls| && EndsWith(ls[m], EOC) && forall i :: 0 <= i < m ==> !EndsWith(ls[i], EOC)
    ensures CutIndex(ls) == Some(m)
  {
    hide EndsWith;
    if m > 0 {
      assert forall i :: 0 <= i < m - 1 ==> ls[1..][i] == ls[i + 1];
      CutIndexIs(ls[1..], m - 1);
    }
  }

  lemma {:induction false} NoneBeforeCut(ls: seq<string>)
    requires CutIndex(ls).Some?
    ensures forall i :: 0 <= i < CutIndex(ls).value ==> !EndsWith(ls[i], EOC)
  {
    hide EndsWith;
    if !EndsWith(ls[0], EOC) {
      NoneBeforeCut(ls[1..]);
    }
  }

  lemma {:induction false} LastMediaHas(sec: seq<string>)
    requires sec != []
    ensures LastMedia(sec) > 0 ==> HasMedia(sec[LastMedia(sec)])
  {
    var n := |sec| - 1;
    if n > 0 && !HasMedia(sec[n]) {
      LastMediaHas(sec[..n]);
    }
  }

  lemma MediaBefore(prefix: string, added: string)
    requires HasMedia(prefix + EOC)
    ensures HasMedia(prefix + added)
  {
    var l, s := prefix + EOC, prefix + added;
    var i := RFind(l, MEDIA).value;
    assert l[i..i + 2][0] == l[i] == 'm' && l[i..i + 2][1] == l[i + 1] == '=';
    assert forall j :: 0 <= j < |EOC| ==> EOC[j] != 'm';
    assert forall j :: |prefix| <= j < |l| ==> l[j] == EOC[j - |prefix|];
    assert i < |prefix|;
    assert EOC[0] == 'a';
    assert i + 1 < |prefix|;
    assert At(s, MEDIA, i) by { assert s[i..i + 2] == l[i..i + 2]; }
    RFindSpec(s, MEDIA);
  }

  lemma EocHasNoMedia()
    ensures !HasMedia(EOC)
  {
    if HasMedia(EOC) {
      MarkerHasM(EOC);
    }
  }

  lemma MarkerHasM(s: string)
    requires HasMedia(s)
    ensures 'm' in s
  {
    var i := RFind(s, MEDIA).value;
    assert s[i..i + 2][0] == s[i];
  }

  lemma CutIsBehindMedia(sec: seq<string>, k: nat)
    requires sec != [] && CutLine(sec) == Some(k)
    ensures LastMedia(sec) <= k < |sec| && EndsWith(sec[k], EOC)
    ensures forall i :: LastMedia(sec) <= i < k ==> !EndsWith(sec[i], EOC)
  {
    hide LastMedia, EndsWith;
    var j := LastMedia(sec);
    NoneBeforeCut(sec[j..]);
    forall i | j <= i < k ensures !EndsWith(sec[i], EOC) {
      assert sec[i] == sec[j..][i - j];
    }
  }

  lemma MediaStaysBefore(sec: seq<string>, k: nat, added: string)
    requires sec != [] && CutLine(sec) == Some(k)
    ensures var f := Replaced(sec, k, [BeforeEoc(sec[k]) + added, EOC]);
      LastMedia(sec) <= LastMedia(f) <= k
  {
    hide HasMedia, EndsWith, LastMedia, CutLine;
    CutIsBehindMedia(sec, k);
    var line, j := BeforeEoc(sec[k]) + added, LastMedia(sec);
    var f := Replaced(sec, k, [line, EOC]);
    assert sec[k] == BeforeEoc(sec[k]) + EOC by { Rejoins(sec[k]); }
    LastMediaHas(sec);
    EocHasNoMedia();
    assert f[k] == line && f[k + 1] == EOC;
    if j > 0 {
      if j == k {
        MediaBefore(BeforeEoc(sec[k]), added);
      } else {
        assert f[j] == sec[j];
      }
    }
    forall i | k < i < |f| ensures !HasMedia(f[i]) {
      if i > k + 1 {
        assert f[i] == sec[i - 1];
      }
    }
    hide Replaced;
    LastMediaWithin(f, j, k);
  }

  lemma LastMediaWithin(f: seq<string>, low: nat, high: nat)
    requires low <= high < |f| && (low > 0 ==> HasMedia(f[low])) && forall i :: high < i < |f| ==> !HasMedia(f[i])
    ensures low <= LastMedia(f) <= high
  {
    hide HasMedia;
    LastMediaHas(f);
  }

  lemma Rejoins(l: string)
    requires EndsWith(l, EOC)
    ensures l == BeforeEoc(l) + EOC
  {
  }

  /** The second cut is on the same line, or on the whole line behind it. */
  lemma NextCut(sec: seq<string>, k: nat, added: string)
    requires sec != [] && CutLine(sec) == Some(k)
    ensures var line := BeforeEoc(sec[k]) + added;
      CutLine(Replaced(sec, k, [line, EOC])) == Some(if EndsWith(line, EOC) then k else k + 1)
  {
    hide EndsWith, LastMedia, BeforeEoc;
    CutIsBehindMedia(sec, k);
    var line, j := BeforeEoc(sec[k]) + added, LastMedia(sec);
    var f := Replaced(sec, k, [line, EOC]);
    MediaStaysBefore(sec, k, added);
    EocEnds();
    var j' := LastMedia(f);
    var m := if EndsWith(line, EOC) then k else k + 1;
    assert f[k] == line && f[k + 1] == EOC;
    forall i | j' <= i < m ensures !EndsWith(f[i], EOC) {
      if i < k {
        assert f[i] == sec[i];
      }
    }
    assert forall i :: 0 <= i < m - j' ==> f[j'..][i] == f[i + j'];
    CutIndexIs(f[j'..], m - j');
  }

  // ---------- the host candidate stays the same ----------

  lemma StartsWithWord(l: string)
    requires l != [] && !IsWhitespace(l[0])
    ensures Words(l) != [] && Words(l)[0] <= l
  {
    FirstWordIs(l);
  }

  lemma LongFirstWord(p: string, l: string)
    requires IsWord(p) && p <= l
    ensures l != [] && !IsWhitespace(l[0]) && Words(l) != [] && p <= Words(l)[0]
  {
    assert l[0] == p[0];
    FirstWordIs(l);
    var m := WordEnd(l);
    assert forall i :: 0 <= i < |p| ==> l[i] == p[i];
    assert m >= |p|;
    assert l[..m][..|p|] == l[..|p|];
  }

  lemma CandidateIsWord()
    ensures IsWord(CANDIDATE)
  {
  }

  /** Whether a line is a candidate line shows in its first word. */
  lemma CandidateByWord(l: string, m: string)
    requires CANDIDATE <= l && m != [] && m[0] == l[0] && Words(l) != [] && Words(m) != [] && Words(m)[0] == Words(l)[0]
    ensures CANDIDATE <= m
  {
    hide Words, IsWord;
    CandidateIsWord();
    LongFirstWord(CANDIDATE, l);
    StartsWithWord(m);
  }

  lemma HostByEight(l: string, m: string, t: IpText, ep: Endpoint)
    requires (CANDIDATE <= l <==> CANDIDATE <= m) && |Words(l)| >= 8 && |Words(m)| >= 8
    requires forall i :: 0 <= i < 8 ==> Words(m)[i] == Words(l)[i]
    ensures HostOf(m, t, ep) == HostOf(l, t, ep) && Advertises(m, t, ep) == Advertises(l, t, ep)
  {
    hide Words;
    var p, q := Words(l), Words(m);
    assert q[1] == p[1] && q[2] == p[2] && q[4] == p[4] && q[5] == p[5] && q[6] == p[6] && q[7] == p[7];
  }

  /** No word of the added line in these places makes a host candidate. */
  lemma AddedIsNoHost(w: seq<string>, q: seq<string>, n: nat, t: IpText, ep: Endpoint, host: (string, string))
    requires w == AddedWords(t, ep, host) && n < 8 && |q| == n + 12 && q[n + 1..] == w[1..] && EndsWith(q[n], w[0])
    ensures !(q[6] == "typ" && q[7] == "host")
  {
    var cand := w[0];
    assert cand[|cand| - 1] == '0';
    assert q[n] != [] && q[n][|q[n]| - 1] == q[n][|q[n]| - |cand|..][|cand| - 1] == '0';
    assert forall i :: 1 <= i < 12 ==> q[n + i] == q[n + 1..][i - 1] == w[1..][i - 1] == w[i];
    DigitsAreNotHost(ep.port);
    if n < 6 {
      assert q[6] == w[6 - n] && q[7] == w[7 - n];
    }
  }

  lemma DigitsAreNotHost(n: nat)
    ensures Show(n, Decimal) != "host"
  {
    ShowParses(n, Decimal);
    assert DigitValue('h') == 17;
    var d := Show(n, Decimal);
    assert DigitValue(d[0]) < 10;
  }

  /** Two lines with the same text before a cut, and at least eight words there. */
  lemma SameEight(prefix: string, x: string, y: string, n: nat, t: IpText, ep: Endpoint)
    requires n >= 8 && prefix != [] && n <= |Words(prefix + x)| && n <= |Words(prefix + y)|
    requires Words(prefix + x)[..n] == Words(prefix + y)[..n]
    ensures HostOf(prefix + y, t, ep) == HostOf(prefix + x, t, ep)
    ensures Advertises(prefix + y, t, ep) == Advertises(prefix + x, t, ep)
  {
    hide Words, HostOf, Advertises;
    var l, m := prefix + x, prefix + y;
    forall i | 0 <= i < 8 ensures Words(m)[i] == Words(l)[i] {
      assert Words(m)[i] == Words(m)[..n][i] && Words(l)[i] == Words(l)[..n][i];
    }
    assert l[0] == prefix[0] == m[0];
    if CANDIDATE <= l {
      CandidateByWord(l, m);
    }
    if CANDIDATE <= m {
      CandidateByWord(m, l);
    }
    HostByEight(l, m, t, ep);
  }

  lemma SomethingBefore(prefix: string, y: string, n: nat)
    requires |Words(prefix + y)| == n + |Words(y)| && n > 0
    ensures prefix != []
  {
    hide Words;
    assert prefix == [] ==> prefix + y == y;
  }

  /** What a cut line says about a host does not change with the cut. */
  lemma CutHostSame(prefix: string, t: IpText, ep: Endpoint, host: (string, string))
    requires PrintsWords(t) && IsWord(host.0) && IsWord(host.1)
    ensures HostOf(prefix + AddedLine(t, ep, host), t, ep) == HostOf(prefix + EOC, t, ep)
  {
    hide Words, IsWord, HostOf, AddedLine, AddedWords, PrintsWords, Advertises, EndsWith;
    var added := AddedLine(t, ep, host);
    AddedWordsAre(t, ep, host);
    EocIsOneWord();
    var n := SameFront(prefix, EOC, added);
    if n >= 8 {
      SomethingBefore(prefix, added, n);
      SameEight(prefix, EOC, added, n, t, ep);
    } else {
      CutIsNoHost(prefix + added, AddedWords(t, ep, host), n, t, ep, host);
      NoHostBefore(prefix, added, t, ep);
    }
  }

  lemma NoHostBefore(prefix: string, added: string, t: IpText, ep: Endpoint)
    requires added != [] && !IsWhitespace(added[0]) && HostOf(prefix + added, t, ep) == None
    ensures HostOf(prefix + EOC, t, ep) == None
  {
    hide HostOf, EndsWith;
    Cuts(prefix);
    if HostOf(prefix + EOC, t, ep).Some? {
      CutHostStays(prefix + EOC, added, t, ep);
    }
  }

  lemma Cuts(prefix: string)
    ensures EndsWith(prefix + EOC, EOC) && BeforeEoc(prefix + EOC) == prefix
  {
  }

  lemma AddedWordsAre(t: IpText, ep: Endpoint, host: (string, string))
    requires PrintsWords(t) && IsWord(host.0) && IsWord(host.1)
    ensures var added := AddedLine(t, ep, host);
      added != [] && !IsWhitespace(added[0]) && Words(added) == AddedWords(t, ep, host) && |Words(added)| == 12
  {
    hide AddedLine, Words;
    AddedIsWords(t, ep, host);
    AddedStart(t, ep, host);
    assert AddedLine(t, ep, host)[0] == CANDIDATE[0] == 'a';
  }

  lemma CutIsNoHost(line: string, w: seq<string>, n: nat, t: IpText, ep: Endpoint, host: (string, string))
    requires w == AddedWords(t, ep, host) && n < 8 && |Words(line)| == n + 12
    requires Words(line)[n + 1..] == w[1..] && EndsWith(Words(line)[n], w[0])
    ensures HostOf(line, t, ep) == None
  {
    hide Words, AddedWords, EndsWith;
    AddedIsNoHost(w, Words(line), n, t, ep, host);
  }

  /** What a line cut again says does not change either: eleven of its words stand before the second cut. */
  lemma CutTwiceSame(prefix: string, t: IpText, ep: Endpoint, host: (string, string))
    requires PrintsWords(t) && IsWord(host.0) && IsWord(host.1) && EndsWith(prefix + AddedLine(t, ep, host), EOC)
    ensures var added := AddedLine(t, ep, host); var line := prefix + added;
      Advertises(BeforeEoc(line) + added, t, ep) == Advertises(line, t, ep)
  {
    hide Words, IsWord, AddedLine, AddedWords, PrintsWords, Advertises, EndsWith;
    var added := AddedLine(t, ep, host);
    var line := prefix + added;
    AddedWordsAre(t, ep, host);
    EocIsOneWord();
    var k := SameFront(prefix, EOC, added);
    Rejoins(line);
    var before := BeforeEoc(line);
    var n := SameFront(before, added, EOC);
    assert n >= 11;
    SomethingBefore(before, EOC, n);
    SameEight(before, EOC, added, n, t, ep);
  }

  // ---------- the host of a section ----------

  lemma {:induction false} HostAppend(a: seq<string>, b: seq<string>, t: IpText, ep: Endpoint)
    ensures Host(a + b, t, ep) == if Host(a, t, ep).Some? then Host(a, t, ep) else Host(b, t, ep)
  {
    hide HostOf;
    if b == [] {
      assert a + b == a;
    } else {
      var n := |b| - 1;
      HostAppend(a, b[..n], t, ep);
      assert (a + b)[..|a| + n] == a + b[..n] && (a + b)[|a| + n] == b[n];
    }
  }

  lemma HostOne(l: string, t: IpText, ep: Endpoint)
    ensures Host([l], t, ep) == HostOf(l, t, ep)
  {
    assert [l][..0] == [];
  }

  lemma EocIsNoHost(t: IpText, ep: Endpoint)
    ensures HostOf(EOC, t, ep) == None
  {
    assert EOC[2] == 'e' && CANDIDATE[2] == 'c';
  }

  lemma HostReplaced(sec: seq<string>, k: nat, line: string, t: IpText, ep: Endpoint)
    requires k < |sec| && HostOf(line, t, ep) == HostOf(sec[k], t, ep)
    ensures Host(Replaced(sec, k, [line, EOC]), t, ep) == Host(sec, t, ep)
  {
    hide HostOf, Host;
    var a, b := sec[..k], sec[k + 1..];
    EocIsNoHost(t, ep);
    HostOne(line, t, ep);
    HostOne(EOC, t, ep);
    HostOne(sec[k], t, ep);
    HostAppend([line], [EOC], t, ep);
    assert [line] + [EOC] == [line, EOC];
    HostAppend(a, [line, EOC], t, ep);
    HostAppend(a + [line, EOC], b, t, ep);
    HostAppend(a, [sec[k]], t, ep);
    HostAppend(a + [sec[k]], b, t, ep);
    assert sec == a + [sec[k]] + b;
  }

  // ---------- one more pass over a section ----------

  /** A section that no number of passes settles: the added text ends in the text it is put before. */
  predicate Endless(sec: seq<string>, t: IpText, ep: Endpoint)
    requires sec != []
  {
    !Settles(sec, t, ep) && EndsWith(Host(sec, t, ep).value.1, EOC)
  }

  /** After one pass an unsettled section settles with the next, or is as unsettled as before. */
  lemma UnsettledNext(sec: seq<string>, t: IpText, ep: Endpoint)
    requires PrintsWords(t) && Section(sec) && !Settles(sec, t, ep)
    ensures var f := Flush(sec, t, ep);
      f != [] && Host(f, t, ep) == Host(sec, t, ep) && (Settles(f, t, ep) <==> !EndsWith(Host(sec, t, ep).value.1, EOC))
  {
    hide Host, Advertised, Advertises, AddedLine, InsertLines, PrintsWords, IsMedia, EndsWith, CutLine, HostOf, IsWord;
    var host, k := Host(sec, t, ep).value, CutLine(sec).value;
    var added := AddedLine(t, ep, host);
    var prefix := BeforeEoc(sec[k]);
    var line := prefix + added;
    FlushForm(sec, t, ep);
    var f := Flush(sec, t, ep);
    HostIsWords(sec, t, ep);
    Rejoins(sec[k]);
    CutHostSame(prefix, t, ep, host);
    HostReplaced(sec, k, line, t, ep);
    GainsAgainIff(sec, t, ep);
    NextCut(sec, k, added);
    AddedEnds(prefix, t, ep, host);
    if EndsWith(line, EOC) {
      CutTwiceSame(prefix, t, ep, host);
      assert f[k] == line;
    } else {
      assert f[k + 1] == EOC;
      assert BeforeEoc(EOC) + added == added;
      AddedAdvertises(t, ep, host);
    }
  }

  /** Exactly the endless sections are still unsettled after one pass, and they are endless again. */
  lemma FlushSettlesIff(sec: seq<string>, t: IpText, ep: Endpoint)
    requires PrintsWords(t) && Section(sec)
    ensures var f := Flush(sec, t, ep);
      Section(f) && (Settles(f, t, ep) <==> !Endless(sec, t, ep)) && (Endless(f, t, ep) <==> Endless(sec, t, ep))
  {
    hide Host, Flush, Gains, PrintsWords, IsMedia, EndsWith, CutLine, Added, Advertises;
    FlushedIsSection(sec, t, ep);
    if Settles(sec, t, ep) {
      GainsAgainIff(sec, t, ep);
    } else {
      UnsettledNext(sec, t, ep);
    }
  }

  // ---------- whole descriptions ----------

  predicate EndlessSections(ls: seq<string>, t: IpText, ep: Endpoint)
    decreases |ls|
  {
    ls != [] && (var k := NextMedia(ls, 1); Endless(ls[..k], t, ep) || EndlessSections(ls[k..], t, ep))
  }

  predicate EndlessLines(ls: seq<string>, t: IpText, ep: Endpoint) {
    EndlessSections(ls[NextMedia(ls, 0)..], t, ep)
  }

  lemma SettledFirst(sec: seq<string>, rest: seq<string>, t: IpText, ep: Endpoint)
    requires Section(sec) && (rest == [] || IsMedia(rest[0]))
    ensures SettledSections(sec + rest, t, ep) <==> Settles(sec, t, ep) && SettledSections(rest, t, ep)
    ensures EndlessSections(sec + rest, t, ep) <==> Endless(sec, t, ep) || EndlessSections(rest, t, ep)
  {
    hide Settles, Endless, IsMedia;
    var all := sec + rest;
    assert forall i :: 1 <= i < |sec| ==> !IsMedia(all[i]);
    assert rest != [] ==> all[|sec|] == rest[0];
    assert NextMedia(all, 1) == |sec|;
    assert all[..|sec|] == sec && all[|sec|..] == rest;
  }

  lemma {:induction false} SectionsNext(ls: seq<string>, t: IpText, ep: Endpoint)
    requires PrintsWords(t) && (ls == [] || IsMedia(ls[0]))
    ensures var outs := OutSections(ls, t, ep);
      && (outs == [] || IsMedia(outs[0]))
      && (SettledSections(outs, t, ep) <==> !EndlessSections(ls, t, ep))
      && (EndlessSections(outs, t, ep) <==> EndlessSections(ls, t, ep))
    decreases |ls|
  {
    hide Flush, IsMedia, PrintsWords, Settles, Endless;
    if ls != [] {
      var k := NextMedia(ls, 1);
      var sec, rest := ls[..k], ls[k..];
      SectionsNext(rest, t, ep);
      assert Section(sec);
      FlushSettlesIff(sec, t, ep);
      SettledFirst(Flush(sec, t, ep), OutSections(rest, t, ep), t, ep);
    }
  }

  lemma LinesNext(ls: seq<string>, t: IpText, ep: Endpoint)
    requires PrintsWords(t)
    ensures var outs := OutLines(ls, t, ep);
      && (SettledLines(outs, t, ep) <==> !EndlessLines(ls, t, ep))
      && (EndlessLines(outs, t, ep) <==> EndlessLines(ls, t, ep))
  {
    hide OutSections, SettledSections, EndlessSections, PrintsWords, IsMedia;
    var k := NextMedia(ls, 0);
    var pre, outs := ls[..k], OutSections(ls[k..], t, ep);
    SectionsNext(ls[k..], t, ep);
    var all := pre + outs;
    assert forall i :: 0 <= i < k ==> all[i] == pre[i];
    assert outs != [] ==> all[k] == outs[0];
    assert NextMedia(all, 0) == k;
    assert all[k..] == outs;
  }

  /** The lines after a number of passes. */
  function Passes(ls: seq<string>, n: nat, t: IpText, ep: Endpoint): seq<string> {
    if n == 0 then ls else OutLines(Passes(ls, n - 1, t, ep), t, ep)
  }

  lemma {:induction false} EndlessStays(ls: seq<string>, n: nat, t: IpText, ep: Endpoint)
    requires PrintsWords(t) && EndlessLines(ls, t, ep)
    ensures EndlessLines(Passes(ls, n, t, ep), t, ep)
  {
    hide EndlessLines, OutLines, PrintsWords, SettledLines;
    if n > 0 {
      EndlessStays(ls, n - 1, t, ep);
      LinesNext(Passes(ls, n - 1, t, ep), t, ep);
    }
  }

  /**
   A description needs one pass, or two, or gains a line with every pass: the third pass changes
   nothing exactly when no section is endless, and an endless one is changed by all of them.
   */
  lemma PassesNeeded(ls: seq<string>, t: IpText, ep: Endpoint)
    requires PrintsWords(t)
    ensures Passes(ls, 2, t, ep) == Passes(ls, 1, t, ep) <==> SettledLines(ls, t, ep)
    ensures Passes(ls, 3, t, ep) == Passes(ls, 2, t, ep) <==> !EndlessLines(ls, t, ep)
    ensures EndlessLines(ls, t, ep) ==> forall n: nat :: |Passes(ls, n + 1, t, ep)| > |Passes(ls, n, t, ep)|
  {
    hide EndlessLines, OutLines, PrintsWords, SettledLines;
    assert Passes(ls, 1, t, ep) == OutLines(Passes(ls, 0, t, ep), t, ep);
    assert Passes(ls, 2, t, ep) == OutLines(Passes(ls, 1, t, ep), t, ep);
    assert Passes(ls, 3, t, ep) == OutLines(Passes(ls, 2, t, ep), t, ep);
    LinesTwiceIff(ls, t, ep);
    LinesTwiceIff(OutLines(ls, t, ep), t, ep);
    LinesNext(ls, t, ep);
    if EndlessLines(ls, t, ep) {
      forall n: nat ensures |Passes(ls, n + 1, t, ep)| > |Passes(ls, n, t, ep)| {
        EndlessStays(ls, n, t, ep);
        EndlessGrows(Passes(ls, n, t, ep), t, ep);
      }
    }
  }

  lemma {:induction false} EndlessSectionsGrow(ls: seq<string>, t: IpText, ep: Endpoint)
    requires EndlessSections(ls, t, ep)
    ensures |OutSections(ls, t, ep)| > |ls|
    decreases |ls|
  {
    hide Flush, Gains;
    var k := NextMedia(ls, 1);
    FlushLength(ls[..k], t, ep);
    if Endless(ls[..k], t, ep) {
      SectionsAreLonger(ls[k..], t, ep);
    } else {
      EndlessSectionsGrow(ls[k..], t, ep);
    }
  }

  lemma EndlessGrows(ls: seq<string>, t: IpText, ep: Endpoint)
    requires EndlessLines(ls, t, ep)
    ensures |OutLines(ls, t, ep)| > |ls|
  {
    EndlessSectionsGrow(ls[NextMedia(ls, 0)..], t, ep);
  }

  /** Rewriting an answer three times gives the bytes of rewriting it twice exactly when no section is endless. */
  lemma AdvertiseThriceIff(body: seq<byte>, t: IpText, ep: Endpoint)
    requires PrintsWords(t) && Advertise(body, t, ep).Ok?
    ensures var once := Advertise(body, t, ep).value; var twice := Advertise(once, t, ep);
      twice.Ok? && (Advertise(twice.value, t, ep) == twice <==> !EndlessLines(Lines(Utf8.Decode(body).value), t, ep))
  {
    hide OutLines, SettledLines, EndlessLines, PrintsWords, Lines;
    var ls := Lines(Utf8.Decode(body).value);
    var outs := OutLines(ls, t, ep);
    Utf8.EncodeDecodes(Unlines(outs));
    LinesAreOneLine(Utf8.Decode(body).value);
    OutIsOneLine(ls, t, ep);
    LinesOfUnlines(outs);
    AdvertiseTwiceIff(Advertise(body, t, ep).value, t, ep);
    LinesNext(ls, t, ep);
  }

  // ---------- a cut line, with any word for a port ----------

  lemma ExampleCut(ls: seq<string>, ws: seq<string>, port: string)
    requires ls == ["m=application", Join(ws, " "), "xa=end-of-candidates"]
    requires ws == ["a=candidate:1", "1", "udp", "1", "10.0.0.1", port, "typ", "host"]
    ensures CutLine(ls) == Some(2)
  {
    NoEocEnd(ls, ws, port);
    assert ls[2][1..] == EOC;
    var j := LastMedia(ls);
    assert j == 0 || j == 1 || j == 2;
    assert CutIndex(ls[2..]) == Some(0) by { assert ls[2..][0] == ls[2]; }
    assert CutIndex(ls[1..]) == Some(1) by { assert ls[1..][0] == ls[1] && ls[1..][1..] == ls[2..]; }
    assert CutIndex(ls[0..]) == Some(2) by { assert ls[0..][0] == ls[0] && ls[0..][1..] == ls[1..]; }
  }

  lemma ExampleShape(ls: seq<string>, ws: seq<string>)
    requires ls == ["m=application", Join(ws, " "), "xa=end-of-candidates"] && CANDIDATE <= Join(ws, " ")
    ensures NextMedia(ls, 0) == 0 && NextMedia(ls, 1) == 3
  {
    assert ls[0][0] == 'm' && ls[2][0] == 'x' && ls[1][0] == 'a' by { assert ls[1][..12][0] == ls[1][0]; }
    assert IsMedia(ls[0]) && !IsMedia(ls[1]) && !IsMedia(ls[2]);
  }

  lemma HostOfThree(ls: seq<string>, t: IpText, ep: Endpoint)
    requires |ls| == 3 && HostOf(ls[0], t, ep) == None && HostOf(ls[1], t, ep).Some?
    ensures Host(ls, t, ep) == HostOf(ls[1], t, ep)
  {
    hide HostOf, Host;
    HostOne(ls[0], t, ep);
    HostOne(ls[1], t, ep);
    HostAppend([ls[0]], [ls[1]], t, ep);
    HostAppend([ls[0]] + [ls[1]], [ls[2]], t, ep);
    assert ls == [ls[0]] + [ls[1]] + [ls[2]];
  }

  lemma OneSection(ls: seq<string>, t: IpText, ep: Endpoint)
    requires NextMedia(ls, 0) == 0 && ls != [] && NextMedia(ls, 1) == |ls|
    ensures SettledLines(ls, t, ep) <==> Settles(ls, t, ep)
    ensures EndlessLines(ls, t, ep) <==> Endless(ls, t, ep)
  {
    hide Settles, Endless;
    assert ls[0..] == ls && ls[..|ls|] == ls && ls[|ls|..] == [];
    assert SettledSections([], t, ep) && !EndlessSections([], t, ep);
  }

  /**
   The description whose last line only ends in the text: the second pass changes it again. The
   third changes nothing more, unless the port word ends in the text: then every pass gains a line.
   */
  lemma CutExamplePasses(port: string, t: IpText, ep: Endpoint)
    requires IsWord(port) && PrintsWords(t)
    requires t.parse("10.0.0.1") == Some(V4([10, 0, 0, 1])) && ep.ip.V4? && t.show(ep.ip) != "10.0.0.1"
    ensures var ls := CutExample(port);
      && Passes(ls, 2, t, ep) != Passes(ls, 1, t, ep)
      && (!EndsWith(port, EOC) ==> Passes(ls, 3, t, ep) == Passes(ls, 2, t, ep))
      && (EndsWith(port, EOC) ==> forall n: nat :: |Passes(ls, n + 1, t, ep)| > |Passes(ls, n, t, ep)|)
  {
    hide Passes, PrintsWords, Words, Host, HostOf, AddedLine, CutLine, EndsWith, Advertises, SettledLines, EndlessLines;
    hide IsWord;
    var ls := CutExample(port);
    var ws := ["a=candidate:1", "1", "udp", "1", "10.0.0.1", port, "typ", "host"];
    ExampleWords(ws, port);
    ExampleShape(ls, ws);
    ExampleGains(ls, ws, port, t, ep);
    ExampleCut(ls, ws, port);
    HostOfThree(ls, t, ep);
    OneSection(ls, t, ep);
    assert BeforeEoc(ls[2]) == "x";
    ForeignStart("x" + Added(ls, t, ep), t, ep);
    PassesNeeded(ls, t, ep);
  }

  lemma ForeignStart(line: string, t: IpText, ep: Endpoint)
    requires line != [] && line[0] == 'x'
    ensures !Advertises(line, t, ep)
  {
    assert CANDIDATE[0] == 'a';
  }
}
