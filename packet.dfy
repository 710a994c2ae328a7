/**
 * The layer classifier of internal/packet/packet.go: one pass over a packet's
 * decoded layers, in wire order, fills a `PacketInfo` (later layers overwrite
 * earlier ones) and decodes a DNS layer with the source address known so far.
 */
module Packet {
  import opened Wrappers
  import Dns

  /** An instant, as nanoseconds after Go's zero `time.Time`; `Time(0)` is `time.Time{}`. */
  datatype Time = Time(nanos: int)

  const ZeroTime := Time(0)

  /** The capture metadata of a packet (gopacket's `CaptureInfo`). */
  datatype CaptureInfo = CaptureInfo(timestamp: Time, captureLength: int, length: int)

  /** The `PacketProtocol` tags. */
  datatype Protocol = ETH | DNS | IPv4 | IPv6 | TCP | UDP | ICMPv4 | ICMPv6 | TLS | ARP

  /** The tag text; Go keeps the tag as this string, with "" for no tag. */
  function ProtocolName(p: Protocol): (r: string)
    ensures |r| > 0
  {
    match p
    case ETH => "ETH"
    case DNS => "DNS"
    case IPv4 => "IPv4"
    case IPv6 => "IPv6"
    case TCP => "TCP"
    case UDP => "UDP"
    case ICMPv4 => "ICMPv4"
    case ICMPv6 => "ICMPv6"
    case TLS => "TLS"
    case ARP => "ARP"
  }

  /** Distinct tags have distinct texts, so the enumeration loses nothing of the string. */
  lemma ProtocolNameInjective(p: Protocol, q: Protocol)
    ensures ProtocolName(p) == ProtocolName(q) ==> p == q
  {
  }

  /**
   * A decoded layer with the fields the classifier reads: address and port text
   * as the decoder's `String()` renders it, and the DNS message. `OtherLayer`
   * stands for every layer type the switch has no case for.
   */
  datatype Layer =
    | EthernetLayer
    | IPv4Layer(srcIp: string, dstIp: string)
    | IPv6Layer(srcIp: string, dstIp: string)
    | DnsLayer(msg: Dns.DnsMessage)
    | TcpLayer(srcPort: string, dstPort: string)
    | UdpLayer(srcPort: string, dstPort: string)
    | ICMPv4Layer
    | ICMPv6Layer
    | TlsLayer
    | ArpLayer
    | OtherLayer

  /** A captured packet: its metadata and its layers in wire order. */
  datatype Packet = Packet(metadata: CaptureInfo, layers: seq<Layer>)

  datatype PacketInfo = PacketInfo(
    timestamp: Time,
    length: int,
    captureLength: int,
    srcIp: string,
    srcPort: string,
    destIp: string,
    destPort: string,
    protocol: Option<Protocol>)

  /** The tag a layer sets, if the switch has a case for it. */
  function ProtocolOf(l: Layer): Option<Protocol>
  {
    match l
    case EthernetLayer => Some(ETH)
    case IPv4Layer(_, _) => Some(IPv4)
    case IPv6Layer(_, _) => Some(IPv6)
    case DnsLayer(_) => Some(DNS)
    case TcpLayer(_, _) => Some(TCP)
    case UdpLayer(_, _) => Some(UDP)
    case ICMPv4Layer => Some(ICMPv4)
    case ICMPv6Layer => Some(ICMPv6)
    case TlsLayer => Some(TLS)
    case ArpLayer => Some(ARP)
    case OtherLayer => None
  }

  predicate IsRecognised(l: Layer)
  {
    ProtocolOf(l).Some?
  }

  predicate CarriesAddresses(l: Layer)
  {
    l.IPv4Layer? || l.IPv6Layer?
  }

  predicate CarriesPorts(l: Layer)
  {
    l.TcpLayer? || l.UdpLayer?
  }

  predicate IsDnsLayer(l: Layer)
  {
    l.DnsLayer?
  }

  /** The position of the last layer satisfying `p`, or None when no layer does. */
  function LastWhere(ls: seq<Layer>, p: Layer -> bool): (r: Option<nat>)
    ensures r.None? <==> forall k :: 0 <= k < |ls| ==> !p(ls[k])
    ensures r.Some? ==> r.value < |ls| && p(ls[r.value])
    ensures r.Some? ==> forall k :: r.value < k < |ls| ==> !p(ls[k])
  {
    if |ls| == 0 then None
    else if p(ls[|ls| - 1]) then Some(|ls| - 1)
    else LastWhere(ls[..|ls| - 1], p)
  }

  /**
   * The record the layer loop leaves behind, stated without the loop: metadata
   * copied, addresses from the last IPv4/IPv6 layer, ports from the last TCP/UDP
   * layer, the tag of the last recognised layer, and "" / no tag where none occurs.
   */
  function Summary(md: CaptureInfo, ls: seq<Layer>): PacketInfo
  {
    var a := LastWhere(ls, CarriesAddresses);
    var p := LastWhere(ls, CarriesPorts);
    var t := LastWhere(ls, IsRecognised);
    PacketInfo(
      md.timestamp,
      md.length,
      md.captureLength,
      if a.Some? then ls[a.value].srcIp else "",
      if p.Some? then ls[p.value].srcPort else "",
      if a.Some? then ls[a.value].dstIp else "",
      if p.Some? then ls[p.value].dstPort else "",
      if t.Some? then ProtocolOf(ls[t.value]) else None)
  }

  /**
   * The DNS record the loop leaves behind: that of the last DNS layer, decoded
   * with the source address set by the layers before it, or the empty record.
   */
  function DnsOfLayers(md: CaptureInfo, ls: seq<Layer>, formatTime: Time -> string): Dns.DnsInfo
  {
    match LastWhere(ls, IsDnsLayer)
    case None => Dns.EmptyDnsInfo
    case Some(k) => Dns.DecodedDnsInfo(ls[k].msg, Summary(md, ls[..k]).srcIp, formatTime(md.timestamp))
  }

  /** `isPacketInfoNil`: every one of the eight fields at its zero value. */
  predicate IsPacketInfoNil(p: PacketInfo)
  {
    && p.timestamp == ZeroTime
    && p.captureLength == 0
    && p.length == 0
    && p.srcIp == ""
    && p.srcPort == ""
    && p.destIp == ""
    && p.destPort == ""
    && p.protocol == None
  }

  /** What one pass of the switch does to the record (DNS decoding aside). */
  function Overwrite(info: PacketInfo, l: Layer): PacketInfo
  {
    match l
    case IPv4Layer(s, d) => info.(srcIp := s, destIp := d, protocol := Some(IPv4))
    case IPv6Layer(s, d) => info.(srcIp := s, destIp := d, protocol := Some(IPv6))
    case TcpLayer(s, d) => info.(srcPort := s, destPort := d, protocol := Some(TCP))
    case UdpLayer(s, d) => info.(srcPort := s, destPort := d, protocol := Some(UDP))
    case OtherLayer => info
    case _ => info.(protocol := ProtocolOf(l))
  }

  lemma LastWhereSnoc(ls: seq<Layer>, l: Layer, p: Layer -> bool)
    ensures LastWhere(ls + [l], p) == if p(l) then Some(|ls|) else LastWhere(ls, p)
  {
    assert (ls + [l])[..|ls|] == ls;
  }

  /** One more layer changes the summary exactly as one pass of the switch does. */
  lemma SummarySnoc(md: CaptureInfo, ls: seq<Layer>, l: Layer)
    ensures Summary(md, ls + [l]) == Overwrite(Summary(md, ls), l)
  {
    LastWhereSnoc(ls, l, CarriesAddresses);
    LastWhereSnoc(ls, l, CarriesPorts);
    LastWhereSnoc(ls, l, IsRecognised);
  }

  lemma DnsOfLayersSnoc(md: CaptureInfo, ls: seq<Layer>, l: Layer, formatTime: Time -> string)
    ensures DnsOfLayers(md, ls + [l], formatTime) ==
      if l.DnsLayer? then Dns.DecodedDnsInfo(l.msg, Summary(md, ls).srcIp, formatTime(md.timestamp))
      else DnsOfLayers(md, ls, formatTime)
  {
    LastWhereSnoc(ls, l, IsDnsLayer);
    assert (ls + [l])[..|ls|] == ls;
    var k := LastWhere(ls, IsDnsLayer);
    if !l.DnsLayer? && k.Some? {
      assert (ls + [l])[..k.value] == ls[..k.value];
    }
  }

  /** One pass of the switch: overwrites the fields the layer carries and decodes a DNS layer. */
  method HandleLayer(l: Layer, info: PacketInfo, dnsInfo: Dns.DnsInfo, timestamp: string)
    returns (info': PacketInfo, dnsInfo': Dns.DnsInfo)
    ensures info' == Overwrite(info, l)
    ensures dnsInfo' == if l.DnsLayer? then Dns.DecodedDnsInfo(l.msg, info.srcIp, timestamp) else dnsInfo
  {
    info', dnsInfo' := info, dnsInfo;
    match l {
      case EthernetLayer =>
        info' := info'.(protocol := Some(ETH));
      case IPv4Layer(src, dst) =>
        info' := info'.(srcIp := src, destIp := dst, protocol := Some(IPv4));
      case IPv6Layer(src, dst) =>
        info' := info'.(srcIp := src, destIp := dst, protocol := Some(IPv6));
      case DnsLayer(msg) =>
        info' := info'.(protocol := Some(DNS));
        dnsInfo' := Dns.DecodeDnsPacket(msg, info'.srcIp, timestamp);
      case TcpLayer(src, dst) =>
        info' := info'.(srcPort := src, destPort := dst, protocol := Some(TCP));
      case UdpLayer(src, dst) =>
        info' := info'.(srcPort := src, destPort := dst, protocol := Some(UDP));
      case ICMPv4Layer =>
        info' := info'.(protocol := Some(ICMPv4));
      case ICMPv6Layer =>
        info' := info'.(protocol := Some(ICMPv6));
      case TlsLayer =>
        info' := info'.(protocol := Some(TLS));
      case ArpLayer =>
        info' := info'.(protocol := Some(ARP));
      case OtherLayer =>
    }
  }

  /**
   * `ExtractPacketInfo`: folds the layers into the record and the DNS record; the
   * first result is None exactly when the record is all zero, the second is never
   * absent (the empty record when there is no DNS layer).
   */
  method ExtractPacketInfo(p: Packet, formatTime: Time -> string) returns (pi: Option<PacketInfo>, dnsInfo: Dns.DnsInfo)
    ensures pi == if IsPacketInfoNil(Summary(p.metadata, p.layers)) then None else Some(Summary(p.metadata, p.layers))
    ensures pi.Some? ==>
      && pi.value.timestamp == p.metadata.timestamp
      && pi.value.length == p.metadata.length
      && pi.value.captureLength == p.metadata.captureLength
    ensures dnsInfo == DnsOfLayers(p.metadata, p.layers, formatTime)
  {
    var info := PacketInfo(ZeroTime, 0, 0, "", "", "", "", None);
    dnsInfo := Dns.EmptyDnsInfo;

    var md := p.metadata;
    info := info.(timestamp := md.timestamp, length := md.length, captureLength := md.captureLength);

    var ls := p.layers;
    for i := 0 to |ls|
      invariant info == Summary(md, ls[..i])
      invariant dnsInfo == DnsOfLayers(md, ls[..i], formatTime)
    {
      info, dnsInfo := HandleLayer(ls[i], info, dnsInfo, formatTime(md.timestamp));
      assert ls[..i + 1] == ls[..i] + [ls[i]];
      SummarySnoc(md, ls[..i], ls[i]);
      DnsOfLayersSnoc(md, ls[..i], ls[i], formatTime);
    }
    assert ls[..|ls|] == ls;

    if IsPacketInfoNil(info) {
      return None, dnsInfo;
    }
    pi := Some(info);
  }

  // ---------------------------------------------------------------------------
  // Properties of the classification
  // ---------------------------------------------------------------------------

  /** The tag is that of the last recognised layer, and absent exactly when no layer is recognised. */
  lemma ProtocolIsLastRecognised(md: CaptureInfo, ls: seq<Layer>)
    ensures Summary(md, ls).protocol.None? <==> forall k :: 0 <= k < |ls| ==> !IsRecognised(ls[k])
    ensures Summary(md, ls).protocol.Some? ==>
      exists k :: 0 <= k < |ls| && ProtocolOf(ls[k]) == Summary(md, ls).protocol
                  && forall j :: k < j < |ls| ==> !IsRecognised(ls[j])
  {
  }

  /** The address pair comes from the last IPv4/IPv6 layer, the port pair from the last TCP/UDP layer. */
  lemma FieldsFromLastCarrier(md: CaptureInfo, ls: seq<Layer>, k: nat)
    requires k < |ls|
    ensures CarriesAddresses(ls[k]) && (forall j :: k < j < |ls| ==> !CarriesAddresses(ls[j])) ==>
      Summary(md, ls).srcIp == ls[k].srcIp && Summary(md, ls).destIp == ls[k].dstIp
    ensures CarriesPorts(ls[k]) && (forall j :: k < j < |ls| ==> !CarriesPorts(ls[j])) ==>
      Summary(md, ls).srcPort == ls[k].srcPort && Summary(md, ls).destPort == ls[k].dstPort
  {
  }

  /** Without an IPv4/IPv6 layer the addresses stay "", without a TCP/UDP layer the ports do. */
  lemma FieldsEmptyWithoutCarrier(md: CaptureInfo, ls: seq<Layer>)
    ensures (forall k :: 0 <= k < |ls| ==> !CarriesAddresses(ls[k])) ==>
      Summary(md, ls).srcIp == "" && Summary(md, ls).destIp == ""
    ensures (forall k :: 0 <= k < |ls| ==> !CarriesPorts(ls[k])) ==>
      Summary(md, ls).srcPort == "" && Summary(md, ls).destPort == ""
  {
  }

  /** The first result is nil exactly when the metadata is all zero and no layer is recognised. */
  lemma NilIffNothingRecognised(md: CaptureInfo, ls: seq<Layer>)
    ensures IsPacketInfoNil(Summary(md, ls)) <==>
      md == CaptureInfo(ZeroTime, 0, 0) && forall k :: 0 <= k < |ls| ==> !IsRecognised(ls[k])
  {
  }

  /** `isPacketInfoNil` holds of the all-zero record only: any one non-zero field makes it false. */
  lemma PacketInfoNilIffZero(p: PacketInfo)
    ensures IsPacketInfoNil(p) <==> p == PacketInfo(ZeroTime, 0, 0, "", "", "", "", None)
  {
  }

  function ShiftPast(r: Option<nat>, at: nat): Option<nat>
  {
    match r
    case None => None
    case Some(k) => Some(if k < at then k else k + 1)
  }

  lemma {:induction false} LastWhereSkip(a: seq<Layer>, l: Layer, b: seq<Layer>, p: Layer -> bool)
    requires !p(l)
    ensures LastWhere(a + [l] + b, p) == ShiftPast(LastWhere(a + b, p), |a|)
  {
    if |b| == 0 {
      assert a + [l] + b == a + [l];
      assert a + b == a;
      LastWhereSnoc(a, l, p);
    } else {
      var front := b[..|b| - 1];
      var x := b[|b| - 1];
      assert a + [l] + b == (a + [l] + front) + [x];
      assert a + b == (a + front) + [x];
      LastWhereSnoc(a + [l] + front, x, p);
      LastWhereSnoc(a + front, x, p);
      LastWhereSkip(a, l, front, p);
    }
  }

  /** Inserting a non-matching layer keeps the last match the same layer (or keeps there being none). */
  lemma {:induction false} SameLastMatch(a: seq<Layer>, l: Layer, b: seq<Layer>, p: Layer -> bool)
    requires !p(l)
    ensures LastWhere(a + [l] + b, p).Some? == LastWhere(a + b, p).Some?
    ensures LastWhere(a + b, p).Some? ==>
      (a + [l] + b)[LastWhere(a + [l] + b, p).value] == (a + b)[LastWhere(a + b, p).value]
  {
    LastWhereSkip(a, l, b, p);
    var s := LastWhere(a + b, p);
    if s.Some? {
      var k := s.value;
      if k < |a| {
        assert (a + [l] + b)[k] == a[k] == (a + b)[k];
      } else {
        assert (a + [l] + b)[k + 1] == b[k - |a|] == (a + b)[k];
      }
    }
  }

  /** A layer the switch has no case for leaves the record unchanged, wherever it occurs. */
  lemma SummarySkip(md: CaptureInfo, a: seq<Layer>, l: Layer, b: seq<Layer>)
    requires !IsRecognised(l)
    ensures Summary(md, a + [l] + b) == Summary(md, a + b)
  {
    SameLastMatch(a, l, b, CarriesAddresses);
    SameLastMatch(a, l, b, CarriesPorts);
    SameLastMatch(a, l, b, IsRecognised);
  }

  /** A layer the switch has no case for leaves the DNS record unchanged too. */
  lemma DnsOfLayersSkip(md: CaptureInfo, a: seq<Layer>, l: Layer, b: seq<Layer>, formatTime: Time -> string)
    requires !IsRecognised(l)
    ensures DnsOfLayers(md, a + [l] + b, formatTime) == DnsOfLayers(md, a + b, formatTime)
  {
    LastWhereSkip(a, l, b, IsDnsLayer);
    var full, short := a + [l] + b, a + b;
    var k := LastWhere(short, IsDnsLayer);
    if k.Some? {
      var n := k.value;
      if n < |a| {
        assert LastWhere(full, IsDnsLayer) == Some(n);
        assert full[..n] == a[..n] == short[..n];
        assert full[n] == short[n];
      } else {
        assert LastWhere(full, IsDnsLayer) == Some(n + 1);
        var b' := b[..n - |a|];
        assert full[..n + 1] == a + [l] + b';
        assert short[..n] == a + b';
        assert full[n + 1] == short[n];
        SummarySkip(md, a, l, b');
        assert Summary(md, full[..n + 1]).srcIp == Summary(md, short[..n]).srcIp;
      }
    }
  }

  /** Ethernet, then IPv4, then TCP: the tag is TCP and both pairs are filled in. */
  lemma TcpOverIPv4(md: CaptureInfo, src: string, dst: string, sport: string, dport: string)
    ensures Summary(md, [EthernetLayer, IPv4Layer(src, dst), TcpLayer(sport, dport)]) ==
      PacketInfo(md.timestamp, md.length, md.captureLength, src, sport, dst, dport, Some(TCP))
  {
    var ls := [EthernetLayer, IPv4Layer(src, dst), TcpLayer(sport, dport)];
    assert ls == [EthernetLayer, IPv4Layer(src, dst)] + [TcpLayer(sport, dport)];
    assert [EthernetLayer, IPv4Layer(src, dst)] == [EthernetLayer] + [IPv4Layer(src, dst)];
    assert [EthernetLayer] == [] + [EthernetLayer];
    SummarySnoc(md, [], EthernetLayer);
    SummarySnoc(md, [EthernetLayer], IPv4Layer(src, dst));
    SummarySnoc(md, [EthernetLayer, IPv4Layer(src, dst)], TcpLayer(sport, dport));
  }

  /** A DNS layer after IPv4 and UDP is decoded with the IPv4 source address. */
  lemma DnsSeesPrecedingSource(md: CaptureInfo, src: string, dst: string, sport: string, dport: string,
                               msg: Dns.DnsMessage, formatTime: Time -> string)
    ensures DnsOfLayers(md, [IPv4Layer(src, dst), UdpLayer(sport, dport), DnsLayer(msg)], formatTime) ==
      Dns.DecodedDnsInfo(msg, src, formatTime(md.timestamp))
  {
    var ls := [IPv4Layer(src, dst), UdpLayer(sport, dport), DnsLayer(msg)];
    assert ls[..2] == [IPv4Layer(src, dst)] + [UdpLayer(sport, dport)];
    assert [IPv4Layer(src, dst)] == [] + [IPv4Layer(src, dst)];
    SummarySnoc(md, [], IPv4Layer(src, dst));
    SummarySnoc(md, [IPv4Layer(src, dst)], UdpLayer(sport, dport));
  }

  /** A DNS layer before any IP layer is decoded with an empty source address. */
  lemma DnsBeforeAddressSeesNone(md: CaptureInfo, src: string, dst: string,
                                 msg: Dns.DnsMessage, formatTime: Time -> string)
    ensures DnsOfLayers(md, [DnsLayer(msg), IPv4Layer(src, dst)], formatTime) ==
      Dns.DecodedDnsInfo(msg, "", formatTime(md.timestamp))
  {
    var ls := [DnsLayer(msg), IPv4Layer(src, dst)];
    assert ls[..0] == [];
    LastWhereSnoc([DnsLayer(msg)], IPv4Layer(src, dst), IsDnsLayer);
    assert ls == [DnsLayer(msg)] + [IPv4Layer(src, dst)];
  }

  /** Without a DNS layer the second result is the empty record, not an absent one. */
  lemma NoDnsLayerGivesEmptyInfo(md: CaptureInfo, ls: seq<Layer>, formatTime: Time -> string)
    requires forall k :: 0 <= k < |ls| ==> !IsDnsLayer(ls[k])
    ensures DnsOfLayers(md, ls, formatTime) == Dns.EmptyDnsInfo
  {
  }

  // ---------------------------------------------------------------------------
  // Interface filtering
  // ---------------------------------------------------------------------------

  /** A capture device: its name and its network addresses. */
  datatype Interface = Interface(name: string, addresses: seq<string>)

  /** The names of the interfaces that have at least one address, in input order. */
  function NamesWithAddresses(ifaces: seq<Interface>): seq<string>
  {
    if |ifaces| == 0 then []
    else
      var f := ifaces[|ifaces| - 1];
      NamesWithAddresses(ifaces[..|ifaces| - 1]) + (if |f.addresses| > 0 then [f.name] else [])
  }

  /** `filterNetworkInterfaces`: appends the name of every interface with an address. */
  method FilterNetworkInterfaces(ifaces: seq<Interface>) returns (names: seq<string>)
    ensures names == NamesWithAddresses(ifaces)
  {
    names := [];
    for i := 0 to |ifaces|
      invariant names == NamesWithAddresses(ifaces[..i])
    {
      var f := ifaces[i];
      assert ifaces[..i + 1][..i] == ifaces[..i];
      if |f.addresses| > 0 {
        names := names + [f.name];
      }
    }
    assert ifaces[..|ifaces|] == ifaces;
  }

  /** The filter keeps input order: filtering a concatenation concatenates the results. */
  lemma {:induction false} NamesWithAddressesAppend(a: seq<Interface>, b: seq<Interface>)
    ensures NamesWithAddresses(a + b) == NamesWithAddresses(a) + NamesWithAddresses(b)
  {
    if |b| == 0 {
      assert a + b == a;
    } else {
      assert (a + b)[..|a + b| - 1] == a + b[..|b| - 1];
      NamesWithAddressesAppend(a, b[..|b| - 1]);
    }
  }

  /** A name is returned exactly when some interface of that name has an address. */
  lemma {:induction false} NamesWithAddressesMembers(ifaces: seq<Interface>, n: string)
    ensures n in NamesWithAddresses(ifaces) <==>
      exists k :: 0 <= k < |ifaces| && ifaces[k].name == n && |ifaces[k].addresses| > 0
  {
    if |ifaces| > 0 {
      var front := ifaces[..|ifaces| - 1];
      NamesWithAddressesMembers(front, n);
      assert forall k :: 0 <= k < |front| ==> front[k] == ifaces[k];
      var f := ifaces[|ifaces| - 1];
      if f.name == n && |f.addresses| > 0 {
        assert n in NamesWithAddresses(ifaces);
      }
    }
  }

  /** The result never holds more names than there are interfaces. */
  lemma {:induction false} NamesWithAddressesLength(ifaces: seq<Interface>)
    ensures |NamesWithAddresses(ifaces)| <= |ifaces|
  {
    if |ifaces| > 0 {
      NamesWithAddressesLength(ifaces[..|ifaces| - 1]);
    }
  }
}
