/** What advertising does to a description: nothing but adding candidate lines, and only once. */
module SdpProofs {
  import opened Net
  import opened Text
  import opened SdpLines
  import opened Sdp

  // ---------- the added line ----------

  lemma AddedIsWords(t: IpText, ep: Endpoint, host: (string, string))
    requires PrintsWords(t) && IsWord(host.0) && IsWord(host.1)
    ensures forall i :: 0 <= i < 12 ==> IsWord(AddedWords(t, ep, host)[i])
    ensures Words(AddedLine(t, ep, host)) == AddedWords(t, ep, host)
  {
    DigitsAreWord(ep.port);
    WordsOfJoin(AddedWords(t, ep, host));
  }

  lemma DigitsAreWord(n: nat)
    ensures IsWord(Show(n, Decimal))
  {
    ShowParses(n, Decimal);
    forall i | 0 <= i < |Show(n, Decimal)| ensures !IsWhitespace(Show(n, Decimal)[i]) {
      assert DigitValue(Show(n, Decimal)[i]) < 10;
    }
  }

  lemma AddedStart(t: IpText, ep: Endpoint, host: (string, string))
    ensures CANDIDATE <= AddedLine(t, ep, host) && |AddedLine(t, ep, host)| > |EOC|
    ensures !IsMedia(AddedLine(t, ep, host))
  {
    var w := AddedWords(t, ep, host);
    var l := AddedLine(t, ep, host);
    assert l == w[0] + " " + Join(w[1..], " ");
    assert l[..20] == "a=candidate:80000000";
    assert l[..20][..12] == l[..12];
    assert l[..20][0] == l[0];
  }

  lemma AddedAdvertises(t: IpText, ep: Endpoint, host: (string, string))
    requires PrintsWords(t) && IsWord(host.0) && IsWord(host.1)
    ensures Advertises(AddedLine(t, ep, host), t, ep)
  {
    hide AddedLine, Words;
    AddedStart(t, ep, host);
    AddedIsWords(t, ep, host);
    assert EqIgnoreCase("UDP", "udp");
  }

  lemma {:induction false} HostIsWords(sec: seq<string>, t: IpText, ep: Endpoint)
    requires Host(sec, t, ep).Some?
    ensures IsWord(Host(sec, t, ep).value.0) && IsWord(Host(sec, t, ep).value.1)
  {
    var n := |sec| - 1;
    if Host(sec[..n], t, ep).Some? {
      HostIsWords(sec[..n], t, ep);
    } else {
      WordsAreWords(sec[n]);
    }
  }

  // ---------- whole-line insertion ----------

  /** The first line that ends in the end-of-candidates text is nothing but that text. */
  predicate WholeFirst(ls: seq<string>) {
    ls == [] || (if EndsWith(ls[0], EOC) then ls[0] == EOC else WholeFirst(ls[1..]))
  }

  predicate Whole(sec: seq<string>)
    requires sec != []
  {
    WholeFirst(sec[LastMedia(sec)..])
  }

  /** Every section that gains a candidate has its end-of-candidates text only as a whole line. */
  predicate WholeSections(ls: seq<string>, t: IpText, ep: Endpoint)
    decreases |ls|
  {
    ls == [] ||
    (var k := NextMedia(ls, 1);
     (Gains(ls[..k], t, ep) ==> Whole(ls[..k])) && WholeSections(ls[k..], t, ep))
  }

  predicate WholeLines(ls: seq<string>, t: IpText, ep: Endpoint) {
    WholeSections(ls[NextMedia(ls, 0)..], t, ep)
  }

  lemma InsertedBehind<T>(s: seq<T>, k: nat, items: seq<T>)
    requires s != [] && k < |s|
    ensures [s[0]] + (s[1..][..k] + items + s[1..][k..]) == s[..k + 1] + items + s[k + 1..]
  {
    assert s[..k + 1] == [s[0]] + s[1..][..k] && s[k + 1..] == s[1..][k..];
  }

  lemma {:induction false} InsertFirstWhole(ls: seq<string>, added: string) returns (k: nat)
    requires WholeFirst(ls)
    ensures k <= |ls| && InsertFirst(ls, added) == ls[..k] + [added] + ls[k..]
    ensures k == 0 && ls != [] ==> ls[0] == EOC
  {
    hide EndsWith;
    if ls == [] {
      k := 0;
    } else if EndsWith(ls[0], EOC) {
      k := 0;
      assert ls == [EOC] + ls[1..];
      assert ls[0][..0] + added == added;
    } else {
      k := InsertFirstWhole(ls[1..], added);
      InsertedBehind(ls, k, [added]);
      k := k + 1;
    }
  }

  /** A section that gains a candidate gains exactly one line, behind its media line. */
  lemma GainedSection(sec: seq<string>, t: IpText, ep: Endpoint) returns (k: nat)
    requires Section(sec) && Gains(sec, t, ep) && Whole(sec)
    ensures 1 <= k <= |sec|
    ensures Flush(sec, t, ep) == sec[..k] + [AddedLine(t, ep, Host(sec, t, ep).value)] + sec[k..]
  {
    hide Host, Advertised, AddedLine;
    var added := AddedLine(t, ep, Host(sec, t, ep).value);
    var j := LastMedia(sec);
    var m := InsertFirstWhole(sec[j..], added);
    k := j + m;
    assert sec[..k] == sec[..j] + sec[j..][..m] && sec[k..] == sec[j..][m..];
    EocIsNoMedia();
  }

  lemma EocIsNoMedia()
    ensures !IsMedia(EOC)
  {
    assert EOC[0] == 'a';
  }

  // ---------- deleting the added lines restores the input ----------

  ghost predicate IsAdded(l: string, t: IpText, ep: Endpoint) {
    exists host :: l == AddedLine(t, ep, host)
  }

  /** Deleting some added candidate lines from `outs` leaves exactly `ins`. */
  ghost predicate Restores(ins: seq<string>, outs: seq<string>, t: IpText, ep: Endpoint)
    decreases |outs|
  {
    if outs == [] then ins == []
    else
      || (ins != [] && outs[0] == ins[0] && Restores(ins[1..], outs[1..], t, ep))
      || (IsAdded(outs[0], t, ep) && Restores(ins, outs[1..], t, ep))
  }

  lemma {:induction false} RestoresSame(ls: seq<string>, t: IpText, ep: Endpoint)
    ensures Restores(ls, ls, t, ep)
  {
    if ls != [] {
      RestoresSame(ls[1..], t, ep);
    }
  }

  lemma {:induction false} RestoresAppend(a: seq<string>, x: seq<string>, b: seq<string>, y: seq<string>, t: IpText,
                                          ep: Endpoint)
    requires Restores(a, x, t, ep) && Restores(b, y, t, ep)
    ensures Restores(a + b, x + y, t, ep)
    decreases |x|
  {
    hide IsAdded;
    if x == [] {
      assert a + b == b && x + y == y;
    } else {
      assert (x + y)[0] == x[0] && (x + y)[1..] == x[1..] + y;
      if a != [] && x[0] == a[0] && Restores(a[1..], x[1..], t, ep) {
        RestoresAppend(a[1..], x[1..], b, y, t, ep);
        assert (a + b)[1..] == a[1..] + b;
      } else {
        RestoresAppend(a, x[1..], b, y, t, ep);
      }
    }
  }

  lemma RestoresInsertion(sec: seq<string>, k: nat, host: (string, string), t: IpText, ep: Endpoint)
    requires k <= |sec|
    ensures Restores(sec, sec[..k] + [AddedLine(t, ep, host)] + sec[k..], t, ep)
  {
    var added := AddedLine(t, ep, host);
    assert IsAdded(added, t, ep);
    RestoresSame(sec[..k], t, ep);
    RestoresSame(sec[k..], t, ep);
    assert ([added] + sec[k..])[1..] == sec[k..];
    RestoresAppend(sec[..k], sec[..k], sec[k..], [added] + sec[k..], t, ep);
    assert sec[..k] + sec[k..] == sec;
    assert sec[..k] + ([added] + sec[k..]) == sec[..k] + [added] + sec[k..];
  }

  lemma FlushRestores(sec: seq<string>, t: IpText, ep: Endpoint)
    requires Section(sec) && (Gains(sec, t, ep) ==> Whole(sec))
    ensures Restores(sec, Flush(sec, t, ep), t, ep)
  {
    hide Host, Advertised, Whole, Restores, AddedLine, InsertLines;
    if Gains(sec, t, ep) {
      var at := GainedSection(sec, t, ep);
      RestoresInsertion(sec, at, Host(sec, t, ep).value, t, ep);
    } else {
      RestoresSame(sec, t, ep);
    }
  }

  lemma {:induction false} WholeSectionsRestore(ls: seq<string>, t: IpText, ep: Endpoint)
    requires WholeSections(ls, t, ep) && (ls == [] || IsMedia(ls[0]))
    ensures Restores(ls, OutSections(ls, t, ep), t, ep)
    decreases |ls|
  {
    hide Gains, Whole, IsMedia, Restores, Flush;
    if ls == [] {
      RestoresSame([], t, ep);
    } else {
      var k := NextMedia(ls, 1);
      WholeSectionsRestore(ls[k..], t, ep);
      FlushRestores(ls[..k], t, ep);
      RestoresAppend(ls[..k], Flush(ls[..k], t, ep), ls[k..], OutSections(ls[k..], t, ep), t, ep);
      assert ls[..k] + ls[k..] == ls;
    }
  }

  // ---------- a cut line is never restored ----------

  function Ends(ls: seq<string>): nat { multiset(ls)[EOC] }

  lemma EndsAppend(a: seq<string>, b: seq<string>)
    ensures Ends(a + b) == Ends(a) + Ends(b)
  {
  }

  lemma EndsOne(l: string)
    ensures Ends([l]) == if l == EOC then 1 else 0
  {
  }

  lemma {:induction false} RestoresKeepsEnds(ins: seq<string>, outs: seq<string>, t: IpText, ep: Endpoint)
    requires Restores(ins, outs, t, ep)
    ensures Ends(outs) == Ends(ins)
    decreases |outs|
  {
    hide Ends, IsAdded;
    if outs == [] {
    } else {
      assert outs == [outs[0]] + outs[1..];
      EndsAppend([outs[0]], outs[1..]);
      if ins != [] && outs[0] == ins[0] && Restores(ins[1..], outs[1..], t, ep) {
        assert ins == [ins[0]] + ins[1..];
        EndsAppend([ins[0]], ins[1..]);
        RestoresKeepsEnds(ins[1..], outs[1..], t, ep);
      } else {
        AddedIsNotEnd(outs[0], t, ep);
        EndsOne(outs[0]);
        RestoresKeepsEnds(ins, outs[1..], t, ep);
      }
    }
  }

  lemma AddedIsNotEnd(l: string, t: IpText, ep: Endpoint)
    requires IsAdded(l, t, ep)
    ensures l != EOC
  {
    var host :| l == AddedLine(t, ep, host);
    AddedStart(t, ep, host);
  }

  lemma {:induction false} InsertFirstEnds(ls: seq<string>, added: string)
    requires |added| > |EOC|
    ensures Ends(InsertFirst(ls, added)) == Ends(ls) + (if WholeFirst(ls) then 0 else 1)
  {
    hide Ends, EndsWith;
    if ls == [] {
      EndsOne(added);
      EndsNone();
    } else {
      assert ls == [ls[0]] + ls[1..];
      EndsAppend([ls[0]], ls[1..]);
      EndsOne(ls[0]);
      if EndsWith(ls[0], EOC) {
        EndLength(ls[0]);
        var x := ls[0][..|ls[0]| - |EOC|] + added;
        assert [x, EOC] + ls[1..] == [x] + ([EOC] + ls[1..]);
        EndsAppend([x], [EOC] + ls[1..]);
        EndsAppend([EOC], ls[1..]);
        EndsOne(x);
        EndsOne(EOC);
      } else {
        EocEnds();
        InsertFirstEnds(ls[1..], added);
        EndsAppend([ls[0]], InsertFirst(ls[1..], added));
      }
    }
  }

  lemma EndsNone()
    ensures Ends([]) == 0
  {
  }

  lemma EndLength(l: string)
    requires EndsWith(l, EOC)
    ensures |l| >= |EOC|
  {
  }

  lemma EocEnds()
    ensures EndsWith(EOC, EOC)
  {
  }

  lemma FlushEnds(sec: seq<string>, t: IpText, ep: Endpoint)
    requires sec != []
    ensures Ends(Flush(sec, t, ep)) == Ends(sec) + (if Gains(sec, t, ep) && !Whole(sec) then 1 else 0)
  {
    hide Ends, Host, Advertised, AddedLine, InsertFirst, WholeFirst;
    if Gains(sec, t, ep) {
      var added, j := AddedLine(t, ep, Host(sec, t, ep).value), LastMedia(sec);
      AddedStart(t, ep, Host(sec, t, ep).value);
      InsertFirstEnds(sec[j..], added);
      EndsAppend(sec[..j], InsertFirst(sec[j..], added));
      EndsAppend(sec[..j], sec[j..]);
      assert sec[..j] + sec[j..] == sec;
    }
  }

  lemma {:induction false} CutSectionsAddEnds(ls: seq<string>, t: IpText, ep: Endpoint)
    ensures Ends(OutSections(ls, t, ep)) >= Ends(ls)
    ensures !WholeSections(ls, t, ep) ==> Ends(OutSections(ls, t, ep)) > Ends(ls)
    decreases |ls|
  {
    hide Ends, Gains, Whole, Flush;
    if ls != [] {
      var k := NextMedia(ls, 1);
      CutSectionsAddEnds(ls[k..], t, ep);
      FlushEnds(ls[..k], t, ep);
      EndsAppend(Flush(ls[..k], t, ep), OutSections(ls[k..], t, ep));
      EndsAppend(ls[..k], ls[k..]);
      assert ls[..k] + ls[k..] == ls;
    }
  }

  /**
   Deleting added candidate lines from the output restores the input lines if and only if every
   gaining section ends its candidates with a whole line.
   */
  lemma RestoresIffWholeLines(ls: seq<string>, t: IpText, ep: Endpoint)
    ensures Restores(ls, OutLines(ls, t, ep), t, ep) <==> WholeLines(ls, t, ep)
  {
    hide Restores, Ends, WholeSections, OutSections;
    var k := NextMedia(ls, 0);
    assert ls[..k] + ls[k..] == ls;
    if WholeLines(ls, t, ep) {
      WholeSectionsRestore(ls[k..], t, ep);
      RestoresSame(ls[..k], t, ep);
      RestoresAppend(ls[..k], ls[..k], ls[k..], OutSections(ls[k..], t, ep), t, ep);
    } else {
      CutSectionsAddEnds(ls[k..], t, ep);
      EndsAppend(ls[..k], ls[k..]);
      EndsAppend(ls[..k], OutSections(ls[k..], t, ep));
      if Restores(ls, OutLines(ls, t, ep), t, ep) {
        RestoresKeepsEnds(ls, OutLines(ls, t, ep), t, ep);
      }
    }
  }

  // ---------- exactly one candidate, exactly when needed ----------

  lemma {:induction false} HostExists(sec: seq<string>, t: IpText, ep: Endpoint)
    ensures Host(sec, t, ep).Some? <==> exists i :: 0 <= i < |sec| && HostOf(sec[i], t, ep).Some?
  {
    if sec != [] {
      var n := |sec| - 1;
      HostExists(sec[..n], t, ep);
      assert forall i :: 0 <= i < n ==> sec[..n][i] == sec[i];
    }
  }

  /**
   A section gains one line exactly when it has a usable host candidate and none equal to the
   endpoint; otherwise it is left alone. A gaining whole section advertises the endpoint afterwards.
   */
  lemma SectionGain(sec: seq<string>, t: IpText, ep: Endpoint)
    requires Section(sec) && PrintsWords(t)
    ensures |Flush(sec, t, ep)| == |sec| + 1 <==>
      (exists i :: 0 <= i < |sec| && HostOf(sec[i], t, ep).Some?) &&
        (forall i :: 0 <= i < |sec| ==> !Advertises(sec[i], t, ep))
    ensures |Flush(sec, t, ep)| != |sec| + 1 ==> Flush(sec, t, ep) == sec
    ensures Gains(sec, t, ep) && Whole(sec) ==> Advertised(Flush(sec, t, ep), t, ep)
  {
    hide Host, HostOf, Advertises, Whole, AddedLine, InsertFirst;
    HostExists(sec, t, ep);
    if Gains(sec, t, ep) {
      InsertFirstLength(sec[LastMedia(sec)..], AddedLine(t, ep, Host(sec, t, ep).value));
      if Whole(sec) {
        var k := GainedSection(sec, t, ep);
        HostIsWords(sec, t, ep);
        AddedAdvertises(t, ep, Host(sec, t, ep).value);
        assert Advertises(Flush(sec, t, ep)[k], t, ep);
      }
    }
  }

  lemma {:induction false} InsertFirstLength(ls: seq<string>, added: string)
    ensures |InsertFirst(ls, added)| == |ls| + 1
  {
    if ls != [] && !EndsWith(ls[0], EOC) {
      InsertFirstLength(ls[1..], added);
    }
  }

  // ---------- the condition can fail ----------

  /** A description whose last line only ends in the end-of-candidates text. */
  function CutExample(port: string): seq<string> {
    ["m=application", Join(["a=candidate:1", "1", "udp", "1", "10.0.0.1", port, "typ", "host"], " "),
      "xa=end-of-candidates"]
  }

  lemma CutExampleNotRestored(port: string, t: IpText, ep: Endpoint)
    requires IsWord(port)
    requires t.parse("10.0.0.1") == Some(V4([10, 0, 0, 1])) && ep.ip.V4? && t.show(ep.ip) != "10.0.0.1"
    ensures !Restores(CutExample(port), OutLines(CutExample(port), t, ep), t, ep)
  {
    hide Restores, OutLines;
    var ls := CutExample(port);
    var ws := ["a=candidate:1", "1", "udp", "1", "10.0.0.1", port, "typ", "host"];
    ExampleWords(ws, port);
    ExampleSection(ls, ws, port, t, ep);
    RestoresIffWholeLines(ls, t, ep);
  }

  lemma ExampleWords(ws: seq<string>, port: string)
    requires IsWord(port)
    requires ws == ["a=candidate:1", "1", "udp", "1", "10.0.0.1", port, "typ", "host"]
    ensures Words(Join(ws, " ")) == ws && CANDIDATE <= Join(ws, " ")
  {
    hide Words, Join;
    assert IsWord(ws[0]) && IsWord(ws[1]) && IsWord(ws[2]) && IsWord(ws[3]);
    assert IsWord(ws[4]) && IsWord(ws[5]) && IsWord(ws[6]) && IsWord(ws[7]);
    WordsOfJoin(ws);
    JoinFirst(ws);
  }

  lemma JoinFirst(ws: seq<string>)
    requires |ws| > 1 && CANDIDATE <= ws[0]
    ensures CANDIDATE <= Join(ws, " ")
  {
    assert Join(ws, " ") == ws[0] + " " + Join(ws[1..], " ");
  }

  lemma ExampleSection(ls: seq<string>, ws: seq<string>, port: string, t: IpText, ep: Endpoint)
    requires ls == ["m=application", Join(ws, " "), "xa=end-of-candidates"]
    requires ws == ["a=candidate:1", "1", "udp", "1", "10.0.0.1", port, "typ", "host"]
    requires Words(Join(ws, " ")) == ws && CANDIDATE <= Join(ws, " ")
    requires t.parse("10.0.0.1") == Some(V4([10, 0, 0, 1])) && ep.ip.V4? && t.show(ep.ip) != "10.0.0.1"
    ensures !WholeLines(ls, t, ep)
  {
    hide Words;
    assert ls[0][0] == 'm' && ls[2][0] == 'x' && ls[1][0] == 'a' by { assert ls[1][..12][0] == ls[1][0]; }
    assert IsMedia(ls[0]) && !IsMedia(ls[1]) && !IsMedia(ls[2]);
    assert NextMedia(ls, 0) == 0 && NextMedia(ls, 1) == 3;
    assert ls[0..] == ls && ls[..3] == ls;
    ExampleGains(ls, ws, port, t, ep);
    assert !Whole(ls) by {
      NoEocEnd(ls, ws, port);
      assert ls[2][1..] == EOC && ls[2] != EOC;
      assert ls[2..][0] == ls[2] && !WholeFirst(ls[2..]);
      assert ls[1..][0] == ls[1] && ls[1..][1..] == ls[2..] && !WholeFirst(ls[1..]);
      assert ls[0..][0] == ls[0] && ls[0..][1..] == ls[1..] && !WholeFirst(ls[0..]);
      var j := LastMedia(ls);
      assert j == 0 || j == 1 || j == 2;
    }
  }

  lemma NoEocEnd(ls: seq<string>, ws: seq<string>, port: string)
    requires ls == ["m=application", Join(ws, " "), "xa=end-of-candidates"]
    requires ws == ["a=candidate:1", "1", "udp", "1", "10.0.0.1", port, "typ", "host"]
    ensures !EndsWith(ls[0], EOC) && !EndsWith(ls[1], EOC)
  {
    assert |ls[0]| < |EOC|;
    var l := ls[1];
    JoinEnds(ws, " ");
    assert l[|l| - 5..][4] == l[|l| - 1] == 't';
    assert EOC[|EOC| - 1] == 's';
  }

  lemma ExampleGains(ls: seq<string>, ws: seq<string>, port: string, t: IpText, ep: Endpoint)
    requires ls == ["m=application", Join(ws, " "), "xa=end-of-candidates"]
    requires ws == ["a=candidate:1", "1", "udp", "1", "10.0.0.1", port, "typ", "host"]
    requires Words(ls[1]) == ws && CANDIDATE <= ls[1]
    requires t.parse("10.0.0.1") == Some(V4([10, 0, 0, 1])) && ep.ip.V4? && t.show(ep.ip) != "10.0.0.1"
    ensures Gains(ls, t, ep) && HostOf(ls[1], t, ep) == Some(("10.0.0.1", port))
    ensures HostOf(ls[0], t, ep) == None && HostOf(ls[2], t, ep) == None
  {
    hide Words;
    assert EqIgnoreCase("udp", "udp");
    assert CandidateWords(ls[1]) == Some(ws);
    assert ls[0][0] == 'm' && ls[2][0] == 'x';
    assert CandidateWords(ls[0]) == None && CandidateWords(ls[2]) == None;
    assert ls[1] == Join(ws, " ");
    assert HostOf(ls[1], t, ep) == Some((ws[4], ws[5]));
    HostExists(ls, t, ep);
  }
}
