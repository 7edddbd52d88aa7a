/** Chains of version-2 PROXY protocol headers in front of a payload. */
module ProxyProtocol {
  import opened Net

  const SIGNATURE: seq<byte> := [13, 10, 13, 10, 0, 13, 10, 81, 85, 73, 84, 10]
  const VERSION_COMMAND_PROXY: byte := 0x21
  const FAMILY_INET_STREAM: byte := 0x11
  const FAMILY_INET_DGRAM: byte := 0x12
  const FAMILY_INET6_STREAM: byte := 0x21
  const FAMILY_INET6_DGRAM: byte := 0x22

  datatype Header = Header(src: IpAddr, srcPort: u16, dst: IpAddr, dstPort: u16)

  datatype ChainError = UnsupportedCommand | TruncatedHeader | UnsupportedFamily | TruncatedBody

  type Checked<T> = Result<T, ChainError>

  datatype Parsed = Parsed(headers: seq<Header>, payloadOffset: nat)

  function ToBe16(n: u16): seq<byte> { [n / 256, n % 256] }

  function FromBe16(hi: byte, lo: byte): u16 { hi * 256 + lo }

  lemma Be16RoundTrip(n: u16)
    ensures |ToBe16(n)| == 2 && FromBe16(ToBe16(n)[0], ToBe16(n)[1]) == n
  {
  }

  /** The IPv4-mapped IPv6 form, section 2.5.5.2 of RFC 4291; IPv6 stays as it is. */
  function Mapped(ip: IpAddr): IpAddr {
    match ip
    case V4(o) => V6([0, 0, 0, 0, 0, 0, 0, 0, 0, 0, 255, 255] + o)
    case V6(_) => ip
  }

  function Build(h: Header, datagram: bool): seq<byte> {
    if h.src.V4? && h.dst.V4? then
      Framed(if datagram then FAMILY_INET_DGRAM else FAMILY_INET_STREAM, Body(h))
    else
      Framed(if datagram then FAMILY_INET6_DGRAM else FAMILY_INET6_STREAM, Body(AsSeen(h)))
  }

  function Framed(family: byte, body: seq<byte>): seq<byte>
    requires |body| < 65536
  {
    SIGNATURE + [VERSION_COMMAND_PROXY, family] + ToBe16(|body|) + body
  }

  function Body(h: Header): (r: seq<byte>)
    ensures |r| == |h.src.octets| + |h.dst.octets| + 4
  {
    h.src.octets + h.dst.octets + ToBe16(h.srcPort) + ToBe16(h.dstPort)
  }

  /** What a reader of the wire sees of a header: a mixed pair of families is mapped to IPv6. */
  function AsSeen(h: Header): Header {
    if h.src.V4? && h.dst.V4? then h else h.(src := Mapped(h.src), dst := Mapped(h.dst))
  }

  predicate Signed(buf: seq<byte>) {
    |buf| >= 16 && buf[..12] == SIGNATURE
  }

  function ParseIpv4(body: seq<byte>): Checked<Header> {
    if |body| < 12 then Err(TruncatedBody)
    else Ok(Header(V4(body[0..4]), FromBe16(body[8], body[9]), V4(body[4..8]), FromBe16(body[10], body[11])))
  }

  function ParseIpv6(body: seq<byte>): Checked<Header> {
    if |body| < 36 then Err(TruncatedBody)
    else Ok(Header(V6(body[0..16]), FromBe16(body[32], body[33]), V6(body[16..32]), FromBe16(body[34], body[35])))
  }

  /** The header at the front of a signed buffer, and where it ends. */
  function First(buf: seq<byte>): (r: Checked<(Header, nat)>)
    requires Signed(buf)
    ensures r.Ok? ==> 16 <= r.value.1 <= |buf|
  {
    if buf[12] != VERSION_COMMAND_PROXY then Err(UnsupportedCommand)
    else
      var end := 16 + FromBe16(buf[14], buf[15]);
      if end > |buf| then Err(TruncatedHeader)
      else
        var family, body := buf[13], buf[16..end];
        var parsed :=
          if family == FAMILY_INET_STREAM || family == FAMILY_INET_DGRAM then ParseIpv4(body)
          else if family == FAMILY_INET6_STREAM || family == FAMILY_INET6_DGRAM then ParseIpv6(body)
          else Err(UnsupportedFamily);
        match parsed case Ok(h) => Ok((h, end)) case Err(e) => Err(e)
  }

  /** Reference reading of a chain, header by header from the front. */
  function Chain(buf: seq<byte>): (r: Checked<Parsed>)
    ensures r.Ok? ==> r.value.payloadOffset <= |buf| && !Signed(buf[r.value.payloadOffset..])
    ensures r.Ok? ==> (r.value.headers == [] <==> r.value.payloadOffset == 0)
    decreases |buf|
  {
    if !Signed(buf) then Ok(Parsed([], 0))
    else
      match First(buf)
      case Err(e) => Err(e)
      case Ok((h, end)) => Prepend([h], end, buf, Chain(buf[end..]))
  }

  function Prepend(front: seq<Header>, end: nat, buf: seq<byte>, rest: Checked<Parsed>): (r: Checked<Parsed>)
    requires end <= |buf|
    requires rest.Ok? ==> rest.value.payloadOffset <= |buf[end..]| && !Signed(buf[end..][rest.value.payloadOffset..])
    ensures r.Ok? ==> r.value.payloadOffset <= |buf| && !Signed(buf[r.value.payloadOffset..])
  {
    match rest
    case Err(e) => Err(e)
    case Ok(Parsed(hs, off)) =>
      assert buf[end..][off..] == buf[end + off..];
      Ok(Parsed(front + hs, end + off))
  }

  /** One turn of the parser's loop: the header at an offset and the offset after it. */
  method ParseHeaderAt(buf: seq<byte>, offset: nat) returns (r: Checked<(Header, nat)>)
    requires offset <= |buf| && Signed(buf[offset..])
    ensures match First(buf[offset..])
      case Ok((h, end)) => r == Ok((h, offset + end))
      case Err(e) => r == Err(e)
  {
    hide ParseIpv4, ParseIpv6;
    if buf[offset + 12] != VERSION_COMMAND_PROXY {
      return Err(UnsupportedCommand);
    }
    var family := buf[offset + 13];
    var len := FromBe16(buf[offset + 14], buf[offset + 15]);
    var bodyStart := offset + 16;
    var bodyEnd := bodyStart + len;
    if bodyEnd > |buf| {
      return Err(TruncatedHeader);
    }
    assert buf[offset..][16..16 + len] == buf[bodyStart..bodyEnd];
    var header;
    if family == FAMILY_INET_STREAM || family == FAMILY_INET_DGRAM {
      header := ParseIpv4(buf[bodyStart..bodyEnd]);
    } else if family == FAMILY_INET6_STREAM || family == FAMILY_INET6_DGRAM {
      header := ParseIpv6(buf[bodyStart..bodyEnd]);
    } else {
      return Err(UnsupportedFamily);
    }
    r := match header case Ok(h) => Ok((h, bodyEnd)) case Err(e) => Err(e);
  }

  /** The parser's loop: it ends on every input and reads exactly the reference chain. */
  method ParseProxyChain(buf: seq<byte>) returns (r: Checked<Parsed>)
    ensures r == Chain(buf)
  {
    hide First;
    var offset := 0;
    var headers := [];
    ChainStarts(buf);
    while |buf| - offset >= 16 && buf[offset..offset + 12] == SIGNATURE
      invariant offset <= |buf|
      invariant Chain(buf) == Prepend(headers, offset, buf, Chain(buf[offset..]))
      decreases |buf| - offset
    {
      assert buf[offset..][..12] == buf[offset..offset + 12];
      var header := ParseHeaderAt(buf, offset);
      if header.Err? {
        return Err(header.error);
      }
      ChainAdvances(buf, offset, headers, header.value.0, header.value.1);
      headers := headers + [header.value.0];
      offset := header.value.1;
    }
    assert !Signed(buf[offset..]) by {
      if |buf| - offset >= 16 {
        assert buf[offset..][..12] == buf[offset..offset + 12];
      }
    }
    assert headers + [] == headers;
    r := Ok(Parsed(headers, offset));
  }

  lemma ChainStarts(buf: seq<byte>)
    ensures buf[0..] == buf && Prepend([], 0, buf, Chain(buf[0..])) == Chain(buf)
  {
    assert buf[0..] == buf;
    if Chain(buf).Ok? {
      assert [] + Chain(buf).value.headers == Chain(buf).value.headers;
    }
  }

  lemma ChainAdvances(buf: seq<byte>, offset: nat, front: seq<Header>, h: Header, end: nat)
    requires offset < end <= |buf| && Signed(buf[offset..])
    requires First(buf[offset..]) == Ok((h, end - offset))
    ensures Prepend(front, offset, buf, Chain(buf[offset..])) == Prepend(front + [h], end, buf, Chain(buf[end..]))
  {
    hide First, Signed;
    assert buf[offset..][end - offset..] == buf[end..];
    var rest := Chain(buf[end..]);
    if rest.Ok? {
      assert front + ([h] + rest.value.headers) == (front + [h]) + rest.value.headers;
    }
  }

  // ---------- building and parsing are inverse ----------

  lemma FramedFields(family: byte, body: seq<byte>, rest: seq<byte>)
    requires |body| < 65536
    ensures var wire := Framed(family, body) + rest;
      && Signed(wire) && wire[12] == VERSION_COMMAND_PROXY && wire[13] == family
      && FromBe16(wire[14], wire[15]) == |body| && wire[16..16 + |body|] == body
  {
    assert (Framed(family, body) + rest)[..12] == SIGNATURE;
  }

  lemma BodyParses4(h: Header)
    requires h.src.V4? && h.dst.V4?
    ensures ParseIpv4(Body(h)) == Ok(h)
  {
    assert Body(h)[0..4] == h.src.octets && Body(h)[4..8] == h.dst.octets;
  }

  lemma BodyParses6(h: Header)
    requires h.src.V6? && h.dst.V6?
    ensures ParseIpv6(Body(h)) == Ok(h)
  {
    assert Body(h)[0..16] == h.src.octets && Body(h)[16..32] == h.dst.octets;
  }

  lemma BuiltHeaderParses(h: Header, datagram: bool, rest: seq<byte>)
    ensures Signed(Build(h, datagram) + rest)
    ensures First(Build(h, datagram) + rest) == Ok((AsSeen(h), |Build(h, datagram)|))
  {
    hide Framed, Body, ParseIpv4, ParseIpv6, Signed, FromBe16;
    if h.src.V4? && h.dst.V4? {
      FramedFields(if datagram then FAMILY_INET_DGRAM else FAMILY_INET_STREAM, Body(h), rest);
      BodyParses4(h);
      FramedLength(if datagram then FAMILY_INET_DGRAM else FAMILY_INET_STREAM, Body(h));
    } else {
      FramedFields(if datagram then FAMILY_INET6_DGRAM else FAMILY_INET6_STREAM, Body(AsSeen(h)), rest);
      BodyParses6(AsSeen(h));
      FramedLength(if datagram then FAMILY_INET6_DGRAM else FAMILY_INET6_STREAM, Body(AsSeen(h)));
    }
  }

  lemma FramedLength(family: byte, body: seq<byte>)
    requires |body| < 65536
    ensures |Framed(family, body)| == 16 + |body|
  {
  }

  datatype Built = Built(header: Header, datagram: bool)

  function BuildAll(hs: seq<Built>): seq<byte> {
    if hs == [] then [] else Build(hs[0].header, hs[0].datagram) + BuildAll(hs[1..])
  }

  function AllAsSeen(hs: seq<Built>): seq<Header> {
    seq(|hs|, i requires 0 <= i < |hs| => AsSeen(hs[i].header))
  }

  lemma Unsigned(payload: seq<byte>)
    requires !Signed(payload)
    ensures Chain(payload) == Ok(Parsed([], 0))
  {
  }

  lemma ChainBehind(wire: seq<byte>, h: Header, end: nat, behind: Parsed)
    requires Signed(wire) && First(wire) == Ok((h, end)) && Chain(wire[end..]) == Ok(behind)
    ensures Chain(wire) == Ok(Parsed([h] + behind.headers, end + behind.payloadOffset))
  {
    hide Signed, First;
  }

  /** Any chain of built headers before an unsigned payload parses back, headers and offset. */
  lemma {:induction false} ChainRoundTrip(hs: seq<Built>, payload: seq<byte>)
    requires !Signed(payload)
    ensures Chain(BuildAll(hs) + payload) == Ok(Parsed(AllAsSeen(hs), |BuildAll(hs)|))
  {
    hide Build, AsSeen, First, Signed, Chain;
    if hs == [] {
      Unsigned(payload);
      assert BuildAll(hs) + payload == payload;
    } else {
      var first, tail := Build(hs[0].header, hs[0].datagram), BuildAll(hs[1..]) + payload;
      var wire := BuildAll(hs) + payload;
      assert wire == first + tail;
      BuiltHeaderParses(hs[0].header, hs[0].datagram, tail);
      ChainRoundTrip(hs[1..], payload);
      assert wire[|first|..] == tail;
      ChainBehind(wire, AsSeen(hs[0].header), |first|, Parsed(AllAsSeen(hs[1..]), |BuildAll(hs[1..])|));
      assert AllAsSeen(hs) == [AsSeen(hs[0].header)] + AllAsSeen(hs[1..]);
    }
  }

  /** The payload condition is exact: a signed payload is never recovered whole. */
  lemma OneHeaderRoundTripIff(h: Header, datagram: bool, payload: seq<byte>)
    ensures Chain(Build(h, datagram) + payload) == Ok(Parsed([AsSeen(h)], |Build(h, datagram)|)) <==> !Signed(payload)
  {
    var first := Build(h, datagram);
    BuiltHeaderParses(h, datagram, payload);
    assert (first + payload)[|first|..] == payload;
    if !Signed(payload) {
      assert [AsSeen(h)] + [] == [AsSeen(h)];
    }
  }
}
