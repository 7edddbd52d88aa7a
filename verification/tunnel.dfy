/** UDP datagrams carried over a shared-relay TCP tunnel, with PROXY headers where the client wants them. */
module Tunnel {
  import opened Net
  import opened ProxyProtocol
  import opened RakNet

  datatype Packet = Packet(remote: SocketAddr, destination: SocketAddr, payload: seq<byte>)

  /** The textual form of socket addresses, kept abstract. */
  datatype AddressText = AddressText(show: SocketAddr -> seq<byte>, parse: seq<byte> -> Option<SocketAddr>)

  ghost predicate Faithful(t: AddressText) {
    forall a :: |t.show(a)| < 65536 && t.parse(t.show(a)) == Some(a)
  }

  function ToBe32(n: int): seq<byte>
    requires 0 <= n < 0x1_0000_0000
  {
    ToBe16(n / 65536) + ToBe16(n % 65536)
  }

  function FromBe32(b: seq<byte>): nat
    requires |b| == 4
  {
    FromBe16(b[0], b[1]) * 65536 + FromBe16(b[2], b[3])
  }

  /** A frame on the wire; both lengths are truncated to their fields as the casts do. */
  function Frame(t: AddressText, remote: SocketAddr, payload: seq<byte>): seq<byte> {
    var text := t.show(remote);
    ToBe16(|text| % 65536) + text + ToBe32(|payload| % 0x1_0000_0000) + payload
  }

  datatype Read = Read(remote: SocketAddr, payload: seq<byte>, rest: seq<byte>)

  /** Reading one frame; None when the stream ends early or the address does not parse. */
  function ReadFrame(t: AddressText, stream: seq<byte>): (r: Option<Read>)
    ensures r.Some? ==> |r.value.rest| < |stream|
  {
    if |stream| < 2 then None
    else
      var addrEnd := 2 + FromBe16(stream[0], stream[1]);
      if |stream| < addrEnd then None
      else match t.parse(stream[2..addrEnd])
        case None => None
        case Some(remote) =>
          if |stream| < addrEnd + 4 then None
          else
            var end := addrEnd + 4 + FromBe32(stream[addrEnd..addrEnd + 4]);
            if |stream| < end then None
            else Some(Read(remote, stream[addrEnd + 4..end], stream[end..]))
  }

  lemma Be32RoundTrip(n: int)
    requires 0 <= n < 0x1_0000_0000
    ensures |ToBe32(n)| == 4 && FromBe32(ToBe32(n)) == n
  {
    hide ToBe16, FromBe16;
    Be16RoundTrip(n / 65536);
    Be16RoundTrip(n % 65536);
  }

  lemma FrameReads(t: AddressText, remote: SocketAddr, payload: seq<byte>, rest: seq<byte>)
    requires Faithful(t) && |payload| < 0x1_0000_0000
    ensures ReadFrame(t, Frame(t, remote, payload) + rest) == Some(Read(remote, payload, rest))
  {
    hide ToBe16, FromBe16, ToBe32, FromBe32;
    var text := t.show(remote);
    var head, size := ToBe16(|text|), ToBe32(|payload|);
    Be16RoundTrip(|text|);
    Be32RoundTrip(|payload|);
    assert |text| % 65536 == |text| && |payload| % 0x1_0000_0000 == |payload|;
    var stream := Frame(t, remote, payload) + rest;
    assert stream == head + text + size + payload + rest;
    var addrEnd := 2 + |text|;
    assert stream[0] == head[0] && stream[1] == head[1];
    assert stream[2..addrEnd] == text;
    assert stream[addrEnd..addrEnd + 4] == size;
    assert stream[addrEnd + 4..addrEnd + 4 + |payload|] == payload;
    assert stream[addrEnd + 4 + |payload|..] == rest;
  }

  // ---------- which datagrams get a header ----------

  /** Every offline ping, and the first datagram of a remote that is not one. */
  predicate HeaderDue(packets: seq<Packet>, k: nat, haproxy: bool)
    requires k < |packets|
  {
    haproxy && (IsOfflinePing(packets[k].payload) ||
                forall j :: 0 <= j < k && packets[j].remote == packets[k].remote ==> IsOfflinePing(packets[j].payload))
  }

  /** Some datagram of this remote before position k was not an offline ping. */
  predicate Spoken(packets: seq<Packet>, k: nat, remote: SocketAddr)
    requires k <= |packets|
  {
    exists j :: 0 <= j < k && packets[j].remote == remote && !IsOfflinePing(packets[j].payload)
  }

  function HeaderFor(p: Packet): Header {
    Header(p.remote.ip, p.remote.port, p.destination.ip, p.destination.port)
  }

  function WirePayload(packets: seq<Packet>, k: nat, haproxy: bool): seq<byte>
    requires k < |packets|
  {
    if HeaderDue(packets, k, haproxy) then Build(HeaderFor(packets[k]), true) + packets[k].payload
    else packets[k].payload
  }

  /** The stream for the first n packets. */
  function Stream(t: AddressText, packets: seq<Packet>, n: nat, haproxy: bool): seq<byte>
    requires n <= |packets|
  {
    if n == 0 then []
    else Stream(t, packets, n - 1, haproxy) + Frame(t, packets[n - 1].remote, WirePayload(packets, n - 1, haproxy))
  }

  /** The write task: a growing set of remotes decides about headers. */
  method WriteTask(t: AddressText, packets: seq<Packet>, haproxy: bool) returns (out: seq<byte>)
    ensures out == Stream(t, packets, |packets|, haproxy)
  {
    hide Frame, Build, IsOfflinePing;
    out := [];
    var proxyHeaderSent: set<SocketAddr> := {};
    var k := 0;
    while k < |packets|
      invariant k <= |packets|
      invariant out == Stream(t, packets, k, haproxy)
      invariant forall a :: a in proxyHeaderSent <==>
        haproxy && Spoken(packets, k, a)
    {
      var packet := packets[k];
      var sendProxyHeader := haproxy && (IsOfflinePing(packet.payload) || packet.remote !in proxyHeaderSent);
      var payload := packet.payload;
      if sendProxyHeader {
        var header := Build(HeaderFor(packet), true);
        if !IsOfflinePing(packet.payload) {
          proxyHeaderSent := proxyHeaderSent + {packet.remote};
        }
        payload := header + payload;
      }
      assert sendProxyHeader == HeaderDue(packets, k, haproxy);
      out := out + Frame(t, packet.remote, payload);
      k := k + 1;
    }
  }

  // ---------- round trip ----------

  datatype Delivered = Delivered(remote: SocketAddr, headers: seq<Header>, payload: seq<byte>)

  datatype Decoding = Decoding(datagrams: seq<Delivered>, clean: bool)

  /** The receiver: frame by frame, with the PROXY chain stripped off each payload. */
  function Decode(t: AddressText, stream: seq<byte>): Decoding
    decreases |stream|
  {
    if stream == [] then Decoding([], true)
    else match ReadFrame(t, stream)
      case None => Decoding([], false)
      case Some(Read(remote, wire, rest)) =>
        match Chain(wire)
        case Err(_) => Decoding([], false)
        case Ok(Parsed(hs, off)) =>
          var tail := Decode(t, rest);
          Decoding([Delivered(remote, hs, wire[off..])] + tail.datagrams, tail.clean)
  }

  function Expected(packets: seq<Packet>, k: nat, haproxy: bool): Delivered
    requires k < |packets|
  {
    Delivered(packets[k].remote,
              if HeaderDue(packets, k, haproxy) then [AsSeen(HeaderFor(packets[k]))] else [],
              packets[k].payload)
  }

  /** The stream seen from packet k on. */
  function StreamFrom(t: AddressText, packets: seq<Packet>, k: nat, haproxy: bool): seq<byte>
    requires k <= |packets|
    decreases |packets| - k
  {
    if k == |packets| then []
    else Frame(t, packets[k].remote, WirePayload(packets, k, haproxy)) + StreamFrom(t, packets, k + 1, haproxy)
  }

  lemma {:induction false} StreamSplits(t: AddressText, packets: seq<Packet>, k: nat, haproxy: bool)
    requires k <= |packets|
    ensures Stream(t, packets, |packets|, haproxy) ==
      Stream(t, packets, k, haproxy) + StreamFrom(t, packets, k, haproxy)
    decreases |packets| - k
  {
    hide Frame, WirePayload;
    if k < |packets| {
      StreamSplits(t, packets, k + 1, haproxy);
      var f := Frame(t, packets[k].remote, WirePayload(packets, k, haproxy));
      assert (Stream(t, packets, k, haproxy) + f) + StreamFrom(t, packets, k + 1, haproxy) ==
             Stream(t, packets, k, haproxy) + (f + StreamFrom(t, packets, k + 1, haproxy));
    } else {
      assert Stream(t, packets, k, haproxy) + [] == Stream(t, packets, k, haproxy);
    }
  }

  predicate Carriable(packets: seq<Packet>) {
    forall k :: 0 <= k < |packets| ==> |packets[k].payload| + 52 < 0x1_0000_0000
  }

  lemma BuildLength(h: Header, datagram: bool)
    ensures |Build(h, datagram)| == (if h.src.V4? && h.dst.V4? then 28 else 52)
  {
    if !(h.src.V4? && h.dst.V4?) {
      assert |Body(AsSeen(h))| == 36;
    }
  }

  lemma WirePayloadStrips(packets: seq<Packet>, k: nat, haproxy: bool)
    requires k < |packets|
    ensures var wire := WirePayload(packets, k, haproxy);
      (Chain(wire).Ok? &&
       Delivered(packets[k].remote, Chain(wire).value.headers, wire[Chain(wire).value.payloadOffset..]) ==
         Expected(packets, k, haproxy))
      <==> !Signed(packets[k].payload)
  {
    hide Build, Signed, AsSeen, HeaderDue;
    var payload, wire := packets[k].payload, WirePayload(packets, k, haproxy);
    if HeaderDue(packets, k, haproxy) {
      var h := HeaderFor(packets[k]);
      var first := Build(h, true);
      BuiltHeaderParses(h, true, payload);
      assert wire[|first|..] == payload;
      assert [AsSeen(h)] + [] == [AsSeen(h)];
    }
  }

  function ExpectedFrom(packets: seq<Packet>, k: nat, haproxy: bool): seq<Delivered>
    requires k <= |packets|
    decreases |packets| - k
  {
    if k == |packets| then [] else [Expected(packets, k, haproxy)] + ExpectedFrom(packets, k + 1, haproxy)
  }

  lemma {:induction false} DecodesFrom(t: AddressText, packets: seq<Packet>, k: nat, haproxy: bool)
    requires Faithful(t) && Carriable(packets) && k <= |packets|
    ensures Decode(t, StreamFrom(t, packets, k, haproxy)) == Decoding(ExpectedFrom(packets, k, haproxy), true)
            <==> forall i :: k <= i < |packets| ==> !Signed(packets[i].payload)
    decreases |packets| - k
  {
    hide Frame, ReadFrame, Chain, Signed, Expected, Faithful, Build;
    if k < |packets| {
      var wire, rest := WirePayload(packets, k, haproxy), StreamFrom(t, packets, k + 1, haproxy);
      BuildLength(HeaderFor(packets[k]), true);
      FrameReads(t, packets[k].remote, wire, rest);
      WirePayloadStrips(packets, k, haproxy);
      DecodesFrom(t, packets, k + 1, haproxy);
      FrameNonEmpty(t, packets[k].remote, wire, rest);
      assert (forall i :: k <= i < |packets| ==> !Signed(packets[i].payload)) <==>
        !Signed(packets[k].payload) && (forall i :: k + 1 <= i < |packets| ==> !Signed(packets[i].payload));
      var d := Decode(t, StreamFrom(t, packets, k, haproxy));
      if Chain(wire).Ok? {
        var got := Delivered(packets[k].remote, Chain(wire).value.headers, wire[Chain(wire).value.payloadOffset..]);
        var tail := Decode(t, rest);
        assert d == Decoding([got] + tail.datagrams, tail.clean);
        assert d.datagrams[0] == got && d.datagrams[1..] == tail.datagrams;
        var want := ExpectedFrom(packets, k, haproxy);
        assert want[0] == Expected(packets, k, haproxy) && want[1..] == ExpectedFrom(packets, k + 1, haproxy);
      }
    }
  }

  lemma FrameNonEmpty(t: AddressText, remote: SocketAddr, payload: seq<byte>, rest: seq<byte>)
    ensures Frame(t, remote, payload) + rest != []
  {
  }

  /**
   Tunnel round trip: decoding the written stream gives back every remote and payload in order,
   each with exactly its due header, if and only if no payload reads as a PROXY header itself.
   */
  lemma TunnelRoundTrip(t: AddressText, packets: seq<Packet>, haproxy: bool)
    requires Faithful(t) && Carriable(packets)
    ensures Decode(t, Stream(t, packets, |packets|, haproxy)) == Decoding(ExpectedFrom(packets, 0, haproxy), true)
            <==> forall k :: 0 <= k < |packets| ==> !Signed(packets[k].payload)
  {
    hide Decode, ExpectedFrom, Signed, Faithful;
    StreamSplits(t, packets, 0, haproxy);
    assert [] + StreamFrom(t, packets, 0, haproxy) == StreamFrom(t, packets, 0, haproxy);
    DecodesFrom(t, packets, 0, haproxy);
  }

  /** A payload that is itself a PROXY header is delivered as a header and no payload. */
  lemma HeaderPayloadIsLost(t: AddressText, remote: SocketAddr, destination: SocketAddr, h: Header)
    requires Faithful(t)
    ensures var packets := [Packet(remote, destination, Build(h, true))];
      && Decode(t, Stream(t, packets, 1, false)) == Decoding([Delivered(remote, [AsSeen(h)], [])], true)
      && ExpectedFrom(packets, 0, false) == [Delivered(remote, [], Build(h, true))]
  {
    hide Frame, ReadFrame, Build, Signed, AsSeen, Faithful, First;
    var packet, wire := Packet(remote, destination, Build(h, true)), Build(h, true);
    var packets := [packet];
    BuildLength(h, true);
    BuiltHeaderParses(h, true, []);
    assert wire + [] == wire && wire[|wire|..] == [] && [AsSeen(h)] + [] == [AsSeen(h)];
    assert !Signed([]) by { NothingIsSigned(); }
    assert Chain(wire) == Ok(Parsed([AsSeen(h)], |wire|));
    FrameReads(t, remote, wire, []);
    var frame := Frame(t, remote, wire);
    assert Stream(t, packets, 1, false) == frame by { assert Stream(t, packets, 0, false) + frame == frame; }
    FrameNonEmpty(t, remote, wire, []);
    assert frame + [] == frame;
    assert Decode(t, []) == Decoding([], true);
    var d := Delivered(remote, [AsSeen(h)], []);
    assert [d] + [] == [d];
  }

  lemma NothingIsSigned()
    ensures !Signed([])
  {
  }

  lemma ExpectedAt(packets: seq<Packet>, k: nat, haproxy: bool, i: nat)
    requires k <= i < |packets|
    ensures |ExpectedFrom(packets, k, haproxy)| == |packets| - k
    ensures ExpectedFrom(packets, k, haproxy)[i - k] == Expected(packets, i, haproxy)
    decreases |packets| - k
  {
    hide Expected;
    if k < i {
      ExpectedAt(packets, k + 1, haproxy, i);
    } else if k + 1 < |packets| {
      ExpectedAt(packets, k + 1, haproxy, k + 1);
    }
  }
}
