/** Advertising the proxy's public endpoint in SDP answers. */
module Sdp {
  import opened Net
  import opened Text
  import opened SdpLines
  import Utf8

  /** Printing and parsing of addresses, kept abstract. */
  datatype IpText = IpText(show: IpAddr -> string, parse: string -> Option<IpAddr>)

  /** Printed addresses are non-empty and free of white space. */
  ghost predicate PrintsWords(t: IpText) { forall ip :: IsWord(t.show(ip)) }

  datatype Endpoint = Endpoint(ip: IpAddr, port: u16)

  predicate Unspecified(ip: IpAddr) { forall i :: 0 <= i < |ip.octets| ==> ip.octets[i] == 0 }

  predicate Multicast(ip: IpAddr) {
    match ip case V4(o) => 224 <= o[0] < 240 case V6(o) => o[0] == 255
  }

  datatype SdpError = InvalidEndpoint | InvalidUtf8

  type Checked<T> = Result<T, SdpError>

  const CANDIDATE: string := "a=candidate:"

  // ---------- one line ----------

  /** The words of a component-1 UDP candidate line. */
  function CandidateWords(l: string): (r: Option<seq<string>>)
    ensures r.Some? ==> |r.value| >= 8
  {
    if !(CANDIDATE <= l) then None
    else
      var p := Words(l);
      if |p| >= 8 && p[1] == "1" && EqIgnoreCase(p[2], "udp") then Some(p) else None
  }

  predicate Advertises(l: string, t: IpText, ep: Endpoint) {
    var p := CandidateWords(l);
    p.Some? && p.value[4] == t.show(ep.ip) && p.value[5] == Show(ep.port, Decimal)
  }

  /** Address and port of a host candidate of the endpoint's family. */
  function HostOf(l: string, t: IpText, ep: Endpoint): Option<(string, string)> {
    match CandidateWords(l)
    case None => None
    case Some(p) =>
      if p[6] == "typ" && p[7] == "host" && t.parse(p[4]).Some? && (t.parse(p[4]).value.V4? == ep.ip.V4?)
      then Some((p[4], p[5])) else None
  }

  function AddedWords(t: IpText, ep: Endpoint, host: (string, string)): seq<string> {
    ["a=candidate:80000000", "1", "UDP", "1694498815", t.show(ep.ip), Show(ep.port, Decimal),
     "typ", "srflx", "raddr", host.0, "rport", host.1]
  }

  function AddedLine(t: IpText, ep: Endpoint, host: (string, string)): string {
    Join(AddedWords(t, ep, host), " ")
  }

  // ---------- one media section ----------

  predicate IsMedia(l: string) { MEDIA <= l }

  /** The first host candidate of a section. */
  function Host(sec: seq<string>, t: IpText, ep: Endpoint): Option<(string, string)> {
    if sec == [] then None
    else
      var n := |sec| - 1;
      var earlier := Host(sec[..n], t, ep);
      if earlier.Some? then earlier else HostOf(sec[n], t, ep)
  }

  predicate Advertised(sec: seq<string>, t: IpText, ep: Endpoint) {
    exists i :: 0 <= i < |sec| && Advertises(sec[i], t, ep)
  }

  predicate Gains(sec: seq<string>, t: IpText, ep: Endpoint) {
    Host(sec, t, ep).Some? && !Advertised(sec, t, ep)
  }

  function Flush(sec: seq<string>, t: IpText, ep: Endpoint): seq<string>
    requires sec != []
  {
    if Gains(sec, t, ep) then InsertLines(sec, AddedLine(t, ep, Host(sec, t, ep).value)) else sec
  }

  // ---------- all sections ----------

  /** The first media line at or after a position. */
  function NextMedia(ls: seq<string>, i: nat): (k: nat)
    requires i <= |ls|
    ensures i <= k <= |ls| && (k < |ls| ==> IsMedia(ls[k])) && forall j :: i <= j < k ==> !IsMedia(ls[j])
    decreases |ls| - i
  {
    if i == |ls| || IsMedia(ls[i]) then i else NextMedia(ls, i + 1)
  }

  function OutSections(ls: seq<string>, t: IpText, ep: Endpoint): seq<string>
    decreases |ls|
  {
    if ls == [] then []
    else
      var k := NextMedia(ls, 1);
      Flush(ls[..k], t, ep) + OutSections(ls[k..], t, ep)
  }

  /** The lines of the rewritten description: session lines, then every section with its gain. */
  function OutLines(ls: seq<string>, t: IpText, ep: Endpoint): seq<string> {
    var k := NextMedia(ls, 0);
    ls[..k] + OutSections(ls[k..], t, ep)
  }

  function Advertise(body: seq<byte>, t: IpText, ep: Endpoint): Checked<seq<byte>> {
    if ep.port == 0 || Unspecified(ep.ip) || Multicast(ep.ip) then Err(InvalidEndpoint)
    else
      match Utf8.Decode(body)
      case None => Err(InvalidUtf8)
      case Some(text) => Ok(Utf8.Encode(Unlines(OutLines(Lines(text), t, ep))))
  }

  // ---------- the code's scan over an output string ----------

  method Append(output: string, host: Option<(string, string)>, found: bool, t: IpText, ep: Endpoint)
    returns (r: string)
    ensures r == if !found && host.Some? then InsertInto(output, AddedLine(t, ep, host.value) + CRLF) else output
  {
    r := output;
    if !found {
      if host.Some? {
        var added := AddedLine(t, ep, host.value) + CRLF;
        var last := RFind(r, MEDIA);
        var mediaStart := if last.Some? then last.value else 0;
        var pos := Find(r[mediaStart..], EOC_LINE);
        if pos.Some? {
          var at := mediaStart + pos.value;
          assert r[..mediaStart] + (r[mediaStart..][..pos.value] + added + r[mediaStart..][pos.value..])
                 == r[..at] + added + r[at..];
          r := r[..at] + added + r[at..];
        } else {
          assert r[..mediaStart] + (r[mediaStart..] + added) == r + added;
          r := r + added;
        }
      }
    }
  }

  lemma MediaLineHas(l: string)
    requires IsMedia(l)
    ensures HasMedia(l)
  {
    RFindSpec(l, MEDIA);
    assert At(l, MEDIA, 0);
  }

  lemma AppendFlushes(done: string, sec: seq<string>, t: IpText, ep: Endpoint)
    requires sec != [] && IsMedia(sec[0]) && AllOneLine(sec)
    ensures (if Gains(sec, t, ep) then InsertInto(done + Unlines(sec), AddedLine(t, ep, Host(sec, t, ep).value) + CRLF)
             else done + Unlines(sec)) == done + Unlines(Flush(sec, t, ep))
  {
    hide InsertInto, InsertLines, Host, AddedLine, Advertised;
    if Gains(sec, t, ep) {
      MediaLineHas(sec[0]);
      InsertIntoSection(done, sec, AddedLine(t, ep, Host(sec, t, ep).value));
    }
  }

  predicate Section(sec: seq<string>) {
    sec != [] && IsMedia(sec[0]) && forall i :: 1 <= i < |sec| ==> !IsMedia(sec[i])
  }

  lemma SectionFirst(sec: seq<string>, rest: seq<string>, t: IpText, ep: Endpoint)
    requires sec != [] && (forall i :: 1 <= i < |sec| ==> !IsMedia(sec[i])) && (rest == [] || IsMedia(rest[0]))
    ensures OutSections(sec + rest, t, ep) == Flush(sec, t, ep) + OutSections(rest, t, ep)
  {
    var all := sec + rest;
    var k := NextMedia(all, 1);
    assert forall i :: 1 <= i < |sec| ==> !IsMedia(all[i]);
    assert rest != [] ==> all[|sec|] == rest[0];
    assert k == |sec|;
    assert all[..k] == sec && all[k..] == rest;
  }

  /** How the lines seen so far split into finished output and the section being read. */
  datatype Reading = Reading(done: seq<string>, sec: seq<string>, media: bool)

  ghost predicate ReadingOk(r: Reading, rest: seq<string>, all: seq<string>, t: IpText, ep: Endpoint) {
    && AllOneLine(r.sec)
    && (r.media ==> Section(r.sec))
    && (!r.media ==> r.done == [] && forall i :: 0 <= i < |r.sec| ==> !IsMedia(r.sec[i]))
    && OutLines(all, t, ep) == r.done + (if r.media then OutSections(r.sec + rest, t, ep)
      else OutLines(r.sec + rest, t, ep))
  }

  /** The line scanner's state, as the code keeps it. */
  datatype Scan = Scan(output: string, media: bool, host: Option<(string, string)>, found: bool)

  ghost predicate Tracks(s: Scan, r: Reading, t: IpText, ep: Endpoint) {
    && s.media == r.media
    && s.output == Unlines(r.done) + Unlines(r.sec)
    && s.host == (if r.media then Host(r.sec, t, ep) else None)
    && s.found == (r.media && Advertised(r.sec, t, ep))
  }

  function NextSection(r: Reading, l: string, t: IpText, ep: Endpoint): Reading
    requires r.media ==> Section(r.sec)
  {
    if !IsMedia(l) then r.(sec := r.sec + [l])
    else Reading(r.done + (if r.media then Flush(r.sec, t, ep) else r.sec), [l], true)
  }

  lemma PreambleFirst(pre: seq<string>, rest: seq<string>, t: IpText, ep: Endpoint)
    requires (forall i :: 0 <= i < |pre| ==> !IsMedia(pre[i])) && (rest == [] || IsMedia(rest[0]))
    ensures OutLines(pre + rest, t, ep) == pre + OutSections(rest, t, ep)
  {
    hide IsMedia, OutSections;
    var both := pre + rest;
    assert forall i :: 0 <= i < |pre| ==> both[i] == pre[i];
    assert rest != [] ==> both[|pre|] == rest[0];
    assert NextMedia(both, 0) == |pre|;
    assert both[..|pre|] == pre && both[|pre|..] == rest;
  }

  lemma ReadingStep(r: Reading, l: string, rest: seq<string>, all: seq<string>, t: IpText, ep: Endpoint)
    requires ReadingOk(r, [l] + rest, all, t, ep) && OneLine(l)
    ensures ReadingOk(NextSection(r, l, t, ep), rest, all, t, ep)
  {
    hide Flush, IsMedia, OneLine, OutLines, OutSections;
    if IsMedia(l) {
      var tail := OutSections([l] + rest, t, ep);
      if r.media {
        SectionFirst(r.sec, [l] + rest, t, ep);
        assert r.done + (Flush(r.sec, t, ep) + tail) == (r.done + Flush(r.sec, t, ep)) + tail;
      } else {
        PreambleFirst(r.sec, [l] + rest, t, ep);
        assert [] + (r.sec + tail) == ([] + r.sec) + tail;
      }
    } else {
      assert (r.sec + [l]) + rest == r.sec + ([l] + rest);
    }
  }

  ghost function Entered(r: Reading, t: IpText, ep: Endpoint): Reading
    requires r.media ==> Section(r.sec)
  {
    Reading(r.done + (if r.media then Flush(r.sec, t, ep) else r.sec), [], true)
  }

  /** A media line closes the section before it. */
  method EnterSection(s: Scan, t: IpText, ep: Endpoint, ghost r: Reading) returns (s1: Scan)
    requires Tracks(s, r, t, ep) && AllOneLine(r.sec) && (r.media ==> Section(r.sec))
    ensures Tracks(s1, Entered(r, t, ep), t, ep)
  {
    hide AddedLine, InsertInto, Advertised, Host, Flush;
    var output := s.output;
    UnlinesAppend(r.done, if r.media then Flush(r.sec, t, ep) else r.sec);
    if s.media {
      AppendFlushes(Unlines(r.done), r.sec, t, ep);
      output := Append(output, s.host, s.found, t, ep);
    }
    s1 := Scan(output, true, None, false);
    NothingYet(t, ep);
    assert output + [] == output;
  }

  lemma NothingYet(t: IpText, ep: Endpoint)
    ensures !Advertised([], t, ep) && Host([], t, ep) == None && Unlines([]) == []
  {
  }

  /** One line of the scan. */
  method ScanLine(s: Scan, l: string, t: IpText, ep: Endpoint, ghost r: Reading) returns (s1: Scan)
    requires Tracks(s, r, t, ep) && AllOneLine(r.sec) && (r.media ==> Section(r.sec))
    ensures Tracks(s1, NextSection(r, l, t, ep), t, ep)
  {
    hide Tracks, HostOf, Advertises, Flush, Section;
    s1 := s;
    ghost var r1 := r;
    if MEDIA <= l {
      s1 := EnterSection(s, t, ep, r);
      r1 := Entered(r, t, ep);
      assert [] + [l] == [l];
    }
    TrackLine(s1, r1, l, t, ep);
    var found, host := s1.found, s1.host;
    if s1.media && CANDIDATE <= l {
      found := found || Advertises(l, t, ep);
      if host.None? {
        host := HostOf(l, t, ep);
      }
    }
    s1 := s1.(output := s1.output + l + CRLF, found := found, host := host);
  }

  lemma TrackLine(s: Scan, r: Reading, l: string, t: IpText, ep: Endpoint)
    requires Tracks(s, r, t, ep)
    ensures var seen := s.media && CANDIDATE <= l;
      var s1 := s.(found := s.found || (seen && Advertises(l, t, ep)),
                   host := if s.host.Some? || !seen then s.host else HostOf(l, t, ep),
                   output := s.output + l + CRLF);
      Tracks(s1, r.(sec := r.sec + [l]), t, ep)
  {
    hide Advertised, Host, Unlines;
    HostGrows(r.sec, l, t, ep);
    TextGrows(r.done, r.sec, l);
  }

  lemma HostGrows(sec: seq<string>, l: string, t: IpText, ep: Endpoint)
    ensures Advertised(sec + [l], t, ep) <==> Advertised(sec, t, ep) || Advertises(l, t, ep)
    ensures Host(sec + [l], t, ep) == if Host(sec, t, ep).Some? then Host(sec, t, ep) else HostOf(l, t, ep)
    ensures !(CANDIDATE <= l) ==> !Advertises(l, t, ep) && HostOf(l, t, ep) == None
  {
    var more := sec + [l];
    assert more[..|sec|] == sec;
    if Advertised(sec, t, ep) {
      var i :| 0 <= i < |sec| && Advertises(sec[i], t, ep);
      assert Advertises(more[i], t, ep);
    }
    if Advertises(l, t, ep) {
      assert Advertises(more[|sec|], t, ep);
    }
  }

  lemma TextGrows(done: seq<string>, sec: seq<string>, l: string)
    ensures Unlines(done) + Unlines(sec + [l]) == Unlines(done) + Unlines(sec) + l + CRLF
  {
    UnlinesAppend(sec, [l]);
    assert Unlines([l]) == l + CRLF + [];
  }

  /** Rewriting an answer: the line scan produces exactly the lines of the specification. */
  method AdvertiseCandidates(body: seq<byte>, t: IpText, ep: Endpoint) returns (result: Checked<seq<byte>>)
    ensures result == Advertise(body, t, ep)
  {
    if ep.port == 0 || Unspecified(ep.ip) || Multicast(ep.ip) {
      return Err(InvalidEndpoint);
    }
    var text := Utf8.Decode(body);
    if text.None? {
      return Err(InvalidUtf8);
    }
    var lines := Lines(text.value);
    LinesAreOneLine(text.value);
    var output := ScanAll(lines, t, ep);
    result := Ok(Utf8.Encode(output));
  }

  method ScanAll(lines: seq<string>, t: IpText, ep: Endpoint) returns (output: string)
    requires AllOneLine(lines)
    ensures output == Unlines(OutLines(lines, t, ep))
  {
    hide Tracks, ReadingOk, OutLines, NextSection;
    var s := Scan("", false, None, false);
    ghost var r := Reading([], [], false);
    ReadingStarts(lines, t, ep);
    for k := 0 to |lines|
      invariant ReadingOk(r, lines[k..], lines, t, ep) && Tracks(s, r, t, ep)
    {
      assert lines[k..] == [lines[k]] + lines[k + 1..];
      ReadingStep(r, lines[k], lines[k + 1..], lines, t, ep);
      ReadingFacts(r, lines[k..], lines, t, ep);
      s := ScanLine(s, lines[k], t, ep, r);
      r := NextSection(r, lines[k], t, ep);
    }
    assert lines[|lines|..] == [];
    output := s.output;
    ReadingEnds(s, r, lines, t, ep);
    if s.media {
      output := Append(output, s.host, s.found, t, ep);
    }
  }

  lemma ReadingStarts(lines: seq<string>, t: IpText, ep: Endpoint)
    ensures lines[0..] == lines
    ensures ReadingOk(Reading([], [], false), lines[0..], lines, t, ep)
    ensures Tracks(Scan("", false, None, false), Reading([], [], false), t, ep)
  {
    assert [] + lines == lines && [] + OutLines(lines, t, ep) == OutLines(lines, t, ep);
  }

  lemma ReadingFacts(r: Reading, rest: seq<string>, all: seq<string>, t: IpText, ep: Endpoint)
    requires ReadingOk(r, rest, all, t, ep)
    ensures AllOneLine(r.sec) && (r.media ==> Section(r.sec))
  {
  }

  lemma ReadingEnds(s: Scan, r: Reading, all: seq<string>, t: IpText, ep: Endpoint)
    requires ReadingOk(r, [], all, t, ep) && Tracks(s, r, t, ep)
    ensures Unlines(OutLines(all, t, ep)) ==
      if s.media && !s.found && s.host.Some? then InsertInto(s.output, AddedLine(t, ep, s.host.value) + CRLF)
        else s.output
  {
    hide AddedLine, InsertInto, Flush, Advertised, Host, OutLines, OutSections, Unlines;
    assert r.sec + [] == r.sec;
    NoSections(t, ep);
    if r.media {
      AppendFlushes(Unlines(r.done), r.sec, t, ep);
      SectionFirst(r.sec, [], t, ep);
      assert Flush(r.sec, t, ep) + [] == Flush(r.sec, t, ep);
      UnlinesAppend(r.done, Flush(r.sec, t, ep));
    } else {
      PreambleFirst(r.sec, [], t, ep);
      UnlinesAppend(r.done, r.sec);
    }
  }

  lemma NoSections(t: IpText, ep: Endpoint)
    ensures OutSections([], t, ep) == []
  {
  }
}
