/** The pipeline that rewrites RakNet unconnected pongs, and the cache that replays them. */
module Pong {
  import opened Net
  import opened Text
  import opened ProxyProtocol
  import RakNet
  import Utf8

  const PONG_ID: byte := 0x1c
  const STRING_OFFSET: nat := 35

  datatype ParsedPong = ParsedPong(motd: string, end: nat)

  /** The advertisement string of a pong and where it ends. */
  function ParsePong(p: seq<byte>): (r: Option<ParsedPong>)
    ensures r.Some? ==> STRING_OFFSET <= r.value.end <= |p|
  {
    if |p| < STRING_OFFSET || p[0] != PONG_ID then None
    else if p[17..33] != RakNet.OFFLINE_MESSAGE_ID then None
    else
      var end := STRING_OFFSET + FromBe16(p[33], p[34]);
      if |p| < end then None
      else match Utf8.Decode(p[STRING_OFFSET..end])
        case None => None
        case Some(motd) => Some(ParsedPong(motd, end))
  }

  /** Put a ping's timestamp into a pong. */
  function Stamp(p: seq<byte>, timestamp: seq<byte>): Option<seq<byte>> {
    if |p| < STRING_OFFSET || p[0] != PONG_ID || |timestamp| != 8 then None
    else Some([p[0]] + timestamp + p[9..])
  }

  function Fields(motd: string): (r: seq<string>)
    ensures r != []
  {
    SplitOn(motd, ";")
  }

  /** The pong with another string; None when the string is too long for its length field. */
  function Rebuild(p: seq<byte>, end: nat, motd: string): Option<seq<byte>>
    requires STRING_OFFSET <= end <= |p|
  {
    var bytes := Utf8.Encode(motd);
    if |bytes| > 65535 then None else Some(p[..33] + ToBe16(|bytes|) + bytes + p[end..])
  }

  function PortFields(parts: seq<string>, port: u16): seq<string>
    requires |parts| >= 11
  {
    var text := Show(port, Decimal);
    var parts' := parts[10 := text];
    if |parts| > 11 then parts'[11 := text] else parts'
  }

  /** Advertise the listener's port; None when nothing needs to change or cannot. */
  function RewritePorts(p: seq<byte>, port: u16): Option<seq<byte>> {
    match ParsePong(p)
    case None => None
    case Some(ParsedPong(motd, end)) =>
      var parts := Fields(motd);
      if |parts| < 11 then None
      else
        var text := Show(port, Decimal);
        if parts[10] == text && (|parts| > 11 ==> parts[11] == text) then None
        else Rebuild(p, end, Join(PortFields(parts, port), ";"))
  }

  function Unquote(s: string): string {
    if |s| >= 2 && s[0] == '"' && s[|s| - 1] == '"' then s[1..|s| - 1] else s
  }

  function BlankControls(s: string): string {
    seq(|s|, i requires 0 <= i < |s| => if IsControl(s[i]) then ' ' else s[i])
  }

  /** One line of text for the server list. */
  function Sanitize(value: string): string {
    Join(Words(BlankControls(Unquote(Trim(value)))), " ")
  }

  function MotdPair(primary: string, secondary: string): (string, string) {
    var a, b := Sanitize(primary), Sanitize(secondary);
    if a == [] && b != [] then (b, b) else if b == [] && a != [] then (a, a) else (a, b)
  }

  /** Clean the two displayed fields and fill an empty one from the other. */
  function NormalizeMotd(p: seq<byte>): Option<seq<byte>> {
    match ParsePong(p)
    case None => None
    case Some(ParsedPong(motd, end)) =>
      var parts := Fields(motd);
      if |parts| < 8 then None
      else
        var (a, b) := MotdPair(parts[1], parts[7]);
        if a == parts[1] && b == parts[7] then None
        else Rebuild(p, end, Join(parts[1 := a][7 := b], ";"))
  }

  function OrElse(r: Option<seq<byte>>, p: seq<byte>): seq<byte> {
    match r case Some(q) => q case None => p
  }

  /** What the receive task makes of a backend pong before sending and caching it. */
  function Process(p: seq<byte>, port: u16, rewritePorts: bool): seq<byte> {
    var q := if rewritePorts then OrElse(RewritePorts(p, port), p) else p;
    OrElse(NormalizeMotd(q), q)
  }

  /** The cache entry a backend pong leaves, if any. */
  function Cached(p: seq<byte>, port: u16, rewritePorts: bool): Option<seq<byte>> {
    var q := Process(p, port, rewritePorts);
    if ParsePong(q).Some? then Some(q) else None
  }

  /** The reply to a ping served from a cache entry. */
  function Served(entry: seq<byte>, timestamp: seq<byte>): seq<byte> {
    match Stamp(entry, timestamp)
    case Some(q) => q
    case None => if |entry| >= 9 && |timestamp| == 8 then [entry[0]] + timestamp + entry[9..] else entry
  }

  // ---------- rebuilding ----------

  lemma Pieces(front: seq<byte>, size: seq<byte>, bytes: seq<byte>, tail: seq<byte>)
    requires |front| == 33 && |size| == 2
    ensures var q := front + size + bytes + tail;
      && q[..33] == front && q[33] == size[0] && q[34] == size[1]
      && q[STRING_OFFSET..STRING_OFFSET + |bytes|] == bytes && q[STRING_OFFSET + |bytes|..] == tail
  {
  }

  lemma RebuiltParses(p: seq<byte>, motd: string)
    requires ParsePong(p).Some? && Rebuild(p, ParsePong(p).value.end, motd).Some?
    ensures var q := Rebuild(p, ParsePong(p).value.end, motd).value;
      && ParsePong(q) == Some(ParsedPong(motd, STRING_OFFSET + |Utf8.Encode(motd)|))
      && q[..33] == p[..33] && q[STRING_OFFSET + |Utf8.Encode(motd)|..] == p[ParsePong(p).value.end..]
  {
    hide ToBe16, FromBe16;
    var end := ParsePong(p).value.end;
    var bytes := Utf8.Encode(motd);
    var q := Rebuild(p, end, motd).value;
    Be16RoundTrip(|bytes|);
    Pieces(p[..33], ToBe16(|bytes|), bytes, p[end..]);
    assert q[0] == q[..33][0] && p[0] == p[..33][0];
    assert q[17..33] == q[..33][17..] && p[17..33] == p[..33][17..];
    Utf8.EncodeDecodes(motd);
  }

  /** The fields of a pong that is one. */
  function FieldsOf(p: seq<byte>): seq<string>
    requires ParsePong(p).Some?
  {
    Fields(ParsePong(p).value.motd)
  }

  lemma FieldsRebuild(motd: string, parts: seq<string>)
    requires |parts| == |Fields(motd)| && forall i :: 0 <= i < |parts| ==> ';' !in parts[i]
    ensures Fields(Join(parts, ";")) == parts
  {
    forall i | 0 <= i < |parts| ensures Clean(parts[i], ";") {
      CleanOfOne(parts[i], ';');
    }
    SplitJoin(parts, ";");
  }

  lemma DigitsHaveNoSemicolon(n: nat)
    ensures ';' !in Show(n, Decimal)
  {
    ShowParses(n, Decimal);
    assert forall i :: 0 <= i < |Show(n, Decimal)| ==> DigitValue(Show(n, Decimal)[i]) < 10;
  }

  /** A port rewrite changes fields 10 and 11 to the listener's port and nothing else. */
  lemma PortsRewritten(p: seq<byte>, port: u16)
    requires RewritePorts(p, port).Some?
    ensures var q := RewritePorts(p, port).value;
      && ParsePong(p).Some? && ParsePong(q).Some?
      && |FieldsOf(q)| == |FieldsOf(p)| >= 11
      && (forall i :: 0 <= i < |FieldsOf(q)| ==>
            FieldsOf(q)[i] == if i == 10 || i == 11 then Show(port, Decimal) else FieldsOf(p)[i])
      && q[..33] == p[..33] && q[ParsePong(q).value.end..] == p[ParsePong(p).value.end..]
  {
    hide ParsePong, Rebuild;
    var parts := FieldsOf(p);
    var parts' := PortFields(parts, port);
    RebuiltParses(p, Join(parts', ";"));
    SplitFree(ParsePong(p).value.motd, ';');
    DigitsHaveNoSemicolon(port);
    FieldsRebuild(ParsePong(p).value.motd, parts');
  }

  /** A rewritten pong needs no second rewrite. */
  lemma PortsFixedPoint(p: seq<byte>, port: u16)
    requires RewritePorts(p, port).Some?
    ensures RewritePorts(RewritePorts(p, port).value, port) == None
  {
    PortsRewritten(p, port);
  }

  // ---------- sanitizing ----------

  lemma {:induction false} WordsWithin(s: string, bad: char)
    requires bad !in s
    ensures forall i :: 0 <= i < |Words(s)| ==> bad !in Words(s)[i]
    decreases |s|
  {
    if s != [] {
      if IsWhitespace(s[0]) {
        WordsWithin(s[1..], bad);
      } else {
        WordsWithin(s[WordEnd(s)..], bad);
      }
    }
  }

  lemma {:induction false} JoinWithin(ws: seq<string>, bad: char)
    requires bad != ' ' && forall i :: 0 <= i < |ws| ==> bad !in ws[i]
    ensures bad !in Join(ws, " ")
  {
    if |ws| > 1 {
      JoinWithin(ws[1..], bad);
    }
  }

  lemma {:induction false} TrimWithin(s: string, bad: char)
    requires bad !in s
    ensures bad !in Trim(s)
  {
    StartWithin(s, bad);
    EndWithin(TrimStart(s), bad);
  }

  lemma {:induction false} StartWithin(s: string, bad: char)
    requires bad !in s
    ensures bad !in TrimStart(s)
  {
    if s != [] && IsWhitespace(s[0]) {
      StartWithin(s[1..], bad);
    }
  }

  lemma {:induction false} EndWithin(s: string, bad: char)
    requires bad !in s
    ensures bad !in TrimEnd(s)
  {
    if s != [] && IsWhitespace(s[|s| - 1]) {
      EndWithin(s[..|s| - 1], bad);
    }
  }

  lemma SanitizeWithin(v: string)
    requires ';' !in v
    ensures ';' !in Sanitize(v)
  {
    TrimWithin(v, ';');
    var u := Unquote(Trim(v));
    assert ';' !in u;
    assert ';' !in BlankControls(u);
    WordsWithin(BlankControls(u), ';');
    JoinWithin(Words(BlankControls(u)), ';');
  }

  lemma {:induction false} JoinClean(ws: seq<string>)
    requires forall i :: 0 <= i < |ws| ==> IsWord(ws[i]) && forall j :: 0 <= j < |ws[i]| ==> !IsControl(ws[i][j])
    ensures forall c :: c in Join(ws, " ") ==> !IsControl(c) && (IsWhitespace(c) ==> c == ' ')
  {
    assert !IsControl(' ');
    if |ws| > 1 {
      JoinClean(ws[1..]);
    }
  }

  lemma {:induction false} WordsClean(s: string)
    requires forall i :: 0 <= i < |s| ==> !IsControl(s[i])
    ensures forall i :: 0 <= i < |Words(s)| ==> forall j :: 0 <= j < |Words(s)[i]| ==> !IsControl(Words(s)[i][j])
    decreases |s|
  {
    if s != [] {
      if IsWhitespace(s[0]) {
        WordsClean(s[1..]);
      } else {
        WordsClean(s[WordEnd(s)..]);
      }
    }
  }

  /** A sanitized field has no control characters and no white space but single blanks between words. */
  lemma SanitizedIsOneLine(v: string)
    ensures forall c :: c in Sanitize(v) ==> !IsControl(c) && (IsWhitespace(c) ==> c == ' ')
    ensures Words(Sanitize(v)) == Words(BlankControls(Unquote(Trim(v))))
    ensures Join(Words(Sanitize(v)), " ") == Sanitize(v)
  {
    var s := BlankControls(Unquote(Trim(v)));
    WordsAreWords(s);
    WordsClean(s);
    JoinClean(Words(s));
    WordsOfJoin(Words(s));
  }
}
