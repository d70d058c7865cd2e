/** Link, network and transport dissection, and the frame builders it undoes. */
module Frames {
  import opened Octets

  const LINKTYPE_NULL := 0
  const LINKTYPE_ETHERNET := 1
  const LINKTYPE_RAW := 101
  const LINKTYPE_LINUX_SLL := 113
  const LINKTYPE_LINUX_SLL2 := 276

  const ETH_P_IPV4 := 0x0800
  const ETH_P_IPV6 := 0x86DD
  const ETH_P_ARP := 0x0806
  const ETH_P_VLAN := 0x8100
  const ETH_P_VLAN_QINQ := 0x88A8

  const IPPROTO_ICMP := 1
  const IPPROTO_TCP := 6
  const IPPROTO_UDP := 17
  const IPPROTO_ICMPV6 := 58

  datatype L3 = Ipv4 | Ipv6 | Arp | NoL3

  /** A network-layer packet; addresses stay in their 4- or 16-byte form. */
  datatype Ip = Ip(ver: nat, src: Bytes, dst: Bytes, proto: nat, payload: Bytes, fragmented: bool)

  datatype Segment = Segment(sport: nat, dport: nat, seqNo: nat, ackNo: nat, window: nat, payload: Bytes,
                             fin: bool, syn: bool, rst: bool, psh: bool, ack: bool, urg: bool)

  datatype Datagram = Datagram(sport: nat, dport: nat, payload: Bytes)

  /** What one captured frame turns out to carry. */
  datatype Packet =
    | TcpPacket(src: Bytes, dst: Bytes, seg: Segment)
    | UdpPacket(src: Bytes, dst: Bytes, dgram: Datagram)
    | Fragment(src: Bytes, dst: Bytes)
    | IcmpPacket
    | OtherL4
    | BadL4
    | NotIp

  // ----- link layer -----

  predicate IsVlan(et: nat) {
    et == ETH_P_VLAN || et == ETH_P_VLAN_QINQ
  }

  function EtherL3(et: nat): L3 {
    if et == ETH_P_IPV4 then Ipv4 else if et == ETH_P_IPV6 then Ipv6 else if et == ETH_P_ARP then Arp else NoL3
  }

  function VersionL3(b: Bytes): L3 {
    if b != [] && b[0] / 16 == 4 then Ipv4 else if b != [] && b[0] / 16 == 6 then Ipv6 else NoL3
  }

  /** The inner ethertype and where its payload starts, once every VLAN tag is peeled. */
  function PeelVlan(data: Bytes, et: nat, off: nat): (r: (nat, nat))
    requires off <= |data|
    ensures off <= r.1 <= |data|
    decreases |data| - off
  {
    if IsVlan(et) && |data| >= off + 4 then PeelVlan(data, At16(data, off + 2), off + 4) else (et, off)
  }

  function Link(linktype: nat, data: Bytes): (L3, Bytes) {
    if linktype == LINKTYPE_ETHERNET then
      if |data| < 14 then (NoL3, []) else
      var (et, off) := PeelVlan(data, At16(data, 12), 14);
      (EtherL3(et), data[off..])
    else if linktype == LINKTYPE_RAW then
      (VersionL3(data), data)
    else if linktype == LINKTYPE_NULL then
      if |data| < 4 then (NoL3, []) else
      var fam, rest := At32Le(data, 0), data[4..];
      (if fam == 2 then Ipv4 else if fam in {10, 23, 28, 30} then Ipv6 else VersionL3(rest), rest)
    else if linktype == LINKTYPE_LINUX_SLL then
      if |data| < 16 then (NoL3, []) else (EtherL3(At16(data, 14)), data[16..])
    else if linktype == LINKTYPE_LINUX_SLL2 then
      if |data| < 20 then (NoL3, []) else (EtherL3(At16(data, 0)), data[20..])
    else
      (NoL3, data)
  }

  method StripLink(linktype: nat, data: Bytes) returns (l3: L3, rest: Bytes)
    ensures (l3, rest) == Link(linktype, data)
  {
    if linktype == LINKTYPE_ETHERNET {
      if |data| < 14 {
        return NoL3, [];
      }
      var et, off := At16(data, 12), 14;
      while IsVlan(et) && |data| >= off + 4
        invariant 14 <= off <= |data|
        invariant PeelVlan(data, et, off) == PeelVlan(data, At16(data, 12), 14)
      {
        et := At16(data, off + 2);
        off := off + 4;
      }
      return EtherL3(et), data[off..];
    }
    if linktype == LINKTYPE_RAW {
      if data == [] {
        return NoL3, [];
      }
      var ver := data[0] / 16;
      return if ver == 4 then Ipv4 else if ver == 6 then Ipv6 else NoL3, data;
    }
    if linktype == LINKTYPE_NULL {
      if |data| < 4 {
        return NoL3, [];
      }
      var fam := At32Le(data, 0);
      rest := data[4..];
      if fam == 2 {
        return Ipv4, rest;
      }
      if fam == 10 || fam == 23 || fam == 28 || fam == 30 {
        return Ipv6, rest;
      }
      return VersionL3(rest), rest;
    }
    if linktype == LINKTYPE_LINUX_SLL || linktype == LINKTYPE_LINUX_SLL2 {
      var hlen := if linktype == LINKTYPE_LINUX_SLL then 16 else 20;
      if |data| < hlen {
        return NoL3, [];
      }
      var et := if linktype == LINKTYPE_LINUX_SLL then At16(data, 14) else At16(data, 0);
      return EtherL3(et), data[hlen..];
    }
    return NoL3, data;
  }

  // ----- network layer -----

  function ParseIpv4(b: Bytes): Option<Ip> {
    if |b| < 20 then None else
    var ihl := (b[0] % 16) * 4;
    if ihl < 20 || |b| < ihl then None else
    var total := At16(b, 2);
    var frag := At16(b, 6);
    Some(Ip(4, b[12..16], b[16..20], b[9],
            if 0 < total <= |b| then Slice(b, ihl, total) else b[ihl..],
            frag % 0x2000 != 0 || frag / 0x2000 % 2 == 1))
  }

  predicate IsExtension(k: nat) {
    k == 0 || k == 43 || k == 44 || k == 51 || k == 60
  }

  function ExtensionSize(k: nat, unit: Byte): (n: nat)
    ensures n >= 8
  {
    if k == 44 then 8 else if k == 51 then ((unit as int) + 2) * 4 else ((unit as int) + 1) * 8
  }

  const MAX_EXTENSIONS := 16

  /**
   * Where an extension-header walk stands: the header type to come, its offset, and whether a fragment header was met.
   */
  datatype Walk = Walk(next: nat, off: nat, frag: bool)

  function WalkExtensions(b: Bytes, w: Walk, guard: nat): Walk
    requires guard <= MAX_EXTENSIONS
    decreases MAX_EXTENSIONS - guard
  {
    if IsExtension(w.next) && |b| >= w.off + 2 && guard < MAX_EXTENSIONS then
      WalkExtensions(b, WalkStep(b, w), guard + 1)
    else w
  }

  function WalkStep(b: Bytes, w: Walk): Walk
    requires |b| >= w.off + 2
  {
    Walk(b[w.off], w.off + ExtensionSize(w.next, b[w.off + 1]), w.frag || w.next == 44)
  }

  function Ipv6At(b: Bytes, w: Walk): Ip
    requires |b| >= 40
  {
    var plen := At16(b, 4);
    Ip(6, b[8..24], b[24..40], w.next,
       if plen != 0 && 40 + plen <= |b| then Slice(b, w.off, 40 + plen) else Slice(b, w.off, |b|), w.frag)
  }

  function Ipv6Packet(b: Bytes): Option<Ip> {
    if |b| < 40 then None else Some(Ipv6At(b, WalkExtensions(b, Walk(b[6], 40, false), 0)))
  }

  method ParseIpv6(b: Bytes) returns (ip: Option<Ip>)
    ensures ip == Ipv6Packet(b)
  {
    if |b| < 40 {
      return None;
    }
    var next: nat, off: nat, frag, guard := b[6], 40, false, 0;
    while IsExtension(next) && |b| >= off + 2 && guard < MAX_EXTENSIONS
      invariant guard <= MAX_EXTENSIONS
      invariant WalkExtensions(b, Walk(next, off, frag), guard) == WalkExtensions(b, Walk(b[6], 40, false), 0)
      decreases MAX_EXTENSIONS - guard
    {
      guard := guard + 1;
      var size := ExtensionSize(next, b[off + 1]);
      frag := frag || next == 44;
      next := b[off];
      off := off + size;
    }
    ip := Some(Ipv6At(b, Walk(next, off, frag)));
  }

  // ----- transport layer -----

  function Bit(flags: Byte, weight: nat): bool
    requires weight > 0
  {
    flags / weight % 2 == 1
  }

  function ParseTcp(b: Bytes): Option<Segment> {
    if |b| < 20 then None else
    var off := (b[12] / 16) * 4;
    var start := if off < 20 || |b| < off then 20 else off;
    var f := b[13];
    Some(Segment(At16(b, 0), At16(b, 2), At32(b, 4), At32(b, 8), At16(b, 14), b[start..],
                 Bit(f, 1), Bit(f, 2), Bit(f, 4), Bit(f, 8), Bit(f, 16), Bit(f, 32)))
  }

  function ParseUdp(b: Bytes): Option<Datagram> {
    if |b| < 8 then None else
    var ulen := At16(b, 4);
    Some(Datagram(At16(b, 0), At16(b, 2), if 8 <= ulen <= |b| then b[8..ulen] else b[8..]))
  }

  function Transport(ip: Ip): Packet {
    if ip.fragmented then Fragment(ip.src, ip.dst)
    else if ip.proto == IPPROTO_TCP then
      match ParseTcp(ip.payload) { case Some(s) => TcpPacket(ip.src, ip.dst, s) case None => BadL4 }
    else if ip.proto == IPPROTO_UDP then
      match ParseUdp(ip.payload) { case Some(d) => UdpPacket(ip.src, ip.dst, d) case None => BadL4 }
    else if ip.proto == IPPROTO_ICMP || ip.proto == IPPROTO_ICMPV6 then IcmpPacket
    else OtherL4
  }

  function Network(l3: L3, rest: Bytes): Packet {
    match l3
    case Ipv4 => (match ParseIpv4(rest) { case Some(ip) => Transport(ip) case None => NotIp })
    case Ipv6 => (match Ipv6Packet(rest) { case Some(ip) => Transport(ip) case None => NotIp })
    case Arp => NotIp
    case NoL3 => NotIp
  }

  function Dissect(linktype: nat, data: Bytes): Packet {
    Network(Link(linktype, data).0, Link(linktype, data).1)
  }

  // ----- builders -----

  type Port = p: nat | p < 0x1_0000

  type Word = w: nat | w < 0x1_0000_0000

  const ETH_MACS: Bytes := [0x52, 0x55, 0x0a, 0x00, 0x02, 0x02, 0x52, 0x54, 0x00, 0x12, 0x34, 0x56]

  function BuildIpv4(src: Address4, dst: Address4, proto: Byte, l4: Bytes): (r: Bytes)
    requires 20 + |l4| < 0x1_0000
    ensures |r| == 20 + |l4|
  {
    [0x45, 0] + U16(20 + |l4|) + [0, 0, 0, 0, 64, proto, 0, 0] + src + dst + l4
  }

  function BuildEthIpv4(src: Address4, dst: Address4, proto: Byte, l4: Bytes): Bytes
    requires 20 + |l4| < 0x1_0000
  {
    ETH_MACS + U16(ETH_P_IPV4) + BuildIpv4(src, dst, proto, l4)
  }

  function BuildUdp(d: Datagram): (r: Bytes)
    requires d.sport < 0x1_0000 && d.dport < 0x1_0000 && 8 + |d.payload| < 0x1_0000
    ensures |r| == 8 + |d.payload|
  {
    var n := 8 + |d.payload|;
    [d.sport / 256, d.sport % 256, d.dport / 256, d.dport % 256, n / 256, n % 256, 0, 0] + d.payload
  }

  function BuildTcp(sp: Port, dp: Port, seqNo: Word, ackNo: Word, flags: Byte, payload: Bytes, window: Port): (r: Bytes)
    ensures |r| == 20 + |payload|
  {
    U16(sp) + U16(dp) + U32(seqNo) + U32(ackNo) + [0x50, flags] + U16(window) + [0, 0, 0, 0] + payload
  }

  /** The segment those arguments describe, with the flag bits of section 3.1 of RFC 793. */
  function BuiltSegment(sp: Port, dp: Port, seqNo: Word, ackNo: Word, flags: Byte, payload: Bytes,
                        window: Port): Segment
  {
    Segment(sp, dp, seqNo, ackNo, window, payload,
            Bit(flags, 1), Bit(flags, 2), Bit(flags, 4), Bit(flags, 8), Bit(flags, 16), Bit(flags, 32))
  }

  // ----- round trips -----

  lemma TcpRoundTrip(sp: Port, dp: Port, seqNo: Word, ackNo: Word, flags: Byte, payload: Bytes, window: Port)
    ensures ParseTcp(BuildTcp(sp, dp, seqNo, ackNo, flags, payload, window))
         == Some(BuiltSegment(sp, dp, seqNo, ackNo, flags, payload, window))
  {
    var b := BuildTcp(sp, dp, seqNo, ackNo, flags, payload, window);
    assert b[0..2] == U16(sp) && At16(b, 0) == At16(b[0..2], 0);
    assert b[2..4] == U16(dp) && At16(b, 2) == At16(b[2..4], 0);
    assert b[4..8] == U32(seqNo) && At32(b, 4) == At32(b[4..8], 0);
    assert b[8..12] == U32(ackNo) && At32(b, 8) == At32(b[8..12], 0);
    assert b[12] == 0x50 && b[13] == flags;
    assert b[14..16] == U16(window) && At16(b, 14) == At16(b[14..16], 0);
    assert b[20..] == payload;
  }

  lemma UdpRoundTrip(d: Datagram, junk: Bytes)
    requires d.sport < 0x1_0000 && d.dport < 0x1_0000 && 8 + |d.payload| < 0x1_0000
    ensures ParseUdp(BuildUdp(d) + junk) == Some(d)
  {
    var b := BuildUdp(d) + junk;
    assert b[8..8 + |d.payload|] == d.payload;
  }

  lemma Ipv4Fields(src: Address4, dst: Address4, proto: Byte, l4: Bytes, pad: Bytes)
    requires 20 + |l4| < 0x1_0000
    ensures var b := BuildIpv4(src, dst, proto, l4) + pad;
            && b[0] == 0x45 && b[9] == proto && At16(b, 2) == 20 + |l4| && At16(b, 6) == 0
            && b[12..16] == src && b[16..20] == dst && b[20..20 + |l4|] == l4
  {
    hide U16;
    var b := BuildIpv4(src, dst, proto, l4) + pad;
    assert b[2..4] == U16(20 + |l4|) && At16(b, 2) == At16(b[2..4], 0);
    assert b[6] == 0 && b[7] == 0;
  }

  /** The total-length field cuts off whatever follows the packet. */
  lemma Ipv4RoundTrip(src: Address4, dst: Address4, proto: Byte, l4: Bytes, pad: Bytes)
    requires 20 + |l4| < 0x1_0000
    ensures ParseIpv4(BuildIpv4(src, dst, proto, l4) + pad) == Some(Ip(4, src, dst, proto, l4, false))
  {
    hide Slice;
    var b := BuildIpv4(src, dst, proto, l4) + pad;
    Ipv4Fields(src, dst, proto, l4, pad);
    assert Slice(b, 20, 20 + |l4|) == b[20..20 + |l4|];
  }

  datatype Tag = Tag(tpid: nat, tci: nat)

  type VlanTag = t: Tag | IsVlan(t.tpid) && t.tci < 0x1_0000 witness Tag(ETH_P_VLAN, 0)

  /** A stack of VLAN tags above the ethertype. */
  function TagStack(tags: seq<VlanTag>, et: nat): (r: Bytes)
    requires et < 0x1_0000
    ensures |r| == 4 * |tags| + 2
  {
    if tags == [] then U16(et) else U16(tags[0].tpid) + U16(tags[0].tci) + TagStack(tags[1..], et)
  }

  lemma {:induction false} PeelStack(pre: Bytes, tags: seq<VlanTag>, et: nat, rest: Bytes)
    requires et < 0x1_0000 && !IsVlan(et)
    ensures var data := pre + TagStack(tags, et) + rest;
            PeelVlan(data, At16(data, |pre|), |pre| + 2) == (et, |pre| + |TagStack(tags, et)|)
    decreases |tags|
  {
    var data := pre + TagStack(tags, et) + rest;
    if tags == [] {
      assert data[|pre|..|pre| + 2] == U16(et);
      assert At16(data, |pre|) == At16(U16(et), 0);
    } else {
      var t := tags[0];
      var pre' := pre + U16(t.tpid) + U16(t.tci);
      assert data == pre' + TagStack(tags[1..], et) + rest;
      assert data[|pre|..|pre| + 2] == U16(t.tpid);
      assert At16(data, |pre|) == At16(U16(t.tpid), 0);
      PeelStack(pre', tags[1..], et, rest);
    }
  }

  /** An Ethernet frame as built, but with `tags` in front of the ethertype and `pad` behind the packet. */
  function Tagged(tags: seq<VlanTag>, et: nat, packet: Bytes, pad: Bytes): Bytes
    requires et < 0x1_0000
  {
    ETH_MACS + TagStack(tags, et) + (packet + pad)
  }

  lemma LinkTagged(tags: seq<VlanTag>, et: nat, packet: Bytes, pad: Bytes)
    requires et < 0x1_0000 && !IsVlan(et)
    ensures Link(LINKTYPE_ETHERNET, Tagged(tags, et, packet, pad)) == (EtherL3(et), packet + pad)
  {
    var data := Tagged(tags, et, packet, pad);
    PeelStack(ETH_MACS, tags, et, packet + pad);
    assert data[12 + |TagStack(tags, et)|..] == packet + pad;
  }

  lemma UntaggedIsBuilt(src: Address4, dst: Address4, proto: Byte, l4: Bytes)
    requires 20 + |l4| < 0x1_0000
    ensures Tagged([], ETH_P_IPV4, BuildIpv4(src, dst, proto, l4), []) == BuildEthIpv4(src, dst, proto, l4)
  {
    assert BuildIpv4(src, dst, proto, l4) + [] == BuildIpv4(src, dst, proto, l4);
  }

  /** Dissecting a built TCP frame recovers every field, under any VLAN tags and any Ethernet padding. */
  lemma TcpFrameRoundTrip(src: Address4, dst: Address4, sp: Port, dp: Port, seqNo: Word, ackNo: Word, flags: Byte,
                          payload: Bytes, window: Port, tags: seq<VlanTag>, pad: Bytes)
    requires 40 + |payload| < 0x1_0000
    ensures var l4 := BuildTcp(sp, dp, seqNo, ackNo, flags, payload, window);
            Dissect(LINKTYPE_ETHERNET, Tagged(tags, ETH_P_IPV4, BuildIpv4(src, dst, IPPROTO_TCP, l4), pad)) ==
            TcpPacket(src, dst, BuiltSegment(sp, dp, seqNo, ackNo, flags, payload, window))
  {
    var l4 := BuildTcp(sp, dp, seqNo, ackNo, flags, payload, window);
    LinkTagged(tags, ETH_P_IPV4, BuildIpv4(src, dst, IPPROTO_TCP, l4), pad);
    Ipv4RoundTrip(src, dst, IPPROTO_TCP, l4, pad);
    TcpRoundTrip(sp, dp, seqNo, ackNo, flags, payload, window);
  }

  lemma UdpFrameRoundTrip(src: Address4, dst: Address4, d: Datagram, tags: seq<VlanTag>, pad: Bytes)
    requires d.sport < 0x1_0000 && d.dport < 0x1_0000 && 28 + |d.payload| < 0x1_0000
    ensures Dissect(LINKTYPE_ETHERNET, Tagged(tags, ETH_P_IPV4, BuildIpv4(src, dst, IPPROTO_UDP, BuildUdp(d)), pad))
         == UdpPacket(src, dst, d)
  {
    var l4 := BuildUdp(d);
    LinkTagged(tags, ETH_P_IPV4, BuildIpv4(src, dst, IPPROTO_UDP, l4), pad);
    Ipv4RoundTrip(src, dst, IPPROTO_UDP, l4, pad);
    UdpRoundTrip(d, []);
    assert l4 + [] == l4;
  }

  // ----- IPv6 extension headers -----

  datatype Ext = Ext(kind: Byte, unit: Byte, fill: Bytes)

  type Extension = e: Ext | IsExtension(e.kind) && 2 + |e.fill| == ExtensionSize(e.kind, e.unit)
    witness Ext(0, 0, [0, 0, 0, 0, 0, 0])

  function FirstKind(es: seq<Extension>, upper: Byte): Byte {
    if es == [] then upper else es[0].kind
  }

  function Chain(es: seq<Extension>, upper: Byte): Bytes {
    if es == [] then [] else [FirstKind(es[1..], upper), es[0].unit] + es[0].fill + Chain(es[1..], upper)
  }

  predicate HasFragment(es: seq<Extension>) {
    exists i :: 0 <= i < |es| && es[i].kind == 44
  }

  /** Where walking `m` headers of the chain should end. */
  function ChainEnd(start: nat, es: seq<Extension>, upper: Byte, m: nat, frag: bool): Walk
    requires m <= |es|
  {
    Walk(FirstKind(es[m..], upper), start + ChainSize(es[..m]), frag || HasFragment(es[..m]))
  }

  function ChainSize(es: seq<Extension>): nat {
    if es == [] then 0 else 2 + |es[0].fill| + ChainSize(es[1..])
  }

  lemma ChainEndStep(start: nat, es: seq<Extension>, upper: Byte, m: nat, frag: bool)
    requires 0 < m <= |es|
    ensures ChainEnd(start, es, upper, m, frag) ==
            ChainEnd(start + 2 + |es[0].fill|, es[1..], upper, m - 1, frag || es[0].kind == 44)
  {
    assert es[1..][m - 1..] == es[m..];
    assert es[..m][1..] == es[1..][..m - 1];
    assert es[..m] == [es[0]] + es[1..][..m - 1];
    HasFragmentCons(es[0], es[1..][..m - 1]);
  }

  /** `b` holds the chain at `off`. */
  predicate ChainAt(b: Bytes, off: nat, es: seq<Extension>, upper: Byte)
    decreases |es|
  {
    es == [] ||
    (&& off + 2 + |es[0].fill| <= |b|
     && b[off] == FirstKind(es[1..], upper) && b[off + 1] == es[0].unit
     && ChainAt(b, off + 2 + |es[0].fill|, es[1..], upper))
  }

  lemma {:induction false} ChainIsAt(pre: Bytes, es: seq<Extension>, upper: Byte, tail: Bytes)
    ensures ChainAt(pre + Chain(es, upper) + tail, |pre|, es, upper)
    decreases |es|
  {
    if es != [] {
      var head := [FirstKind(es[1..], upper), es[0].unit] + es[0].fill;
      assert pre + Chain(es, upper) + tail == (pre + head) + Chain(es[1..], upper) + tail;
      ChainIsAt(pre + head, es[1..], upper, tail);
      assert ((pre + head) + Chain(es[1..], upper) + tail)[|pre|..|pre| + 2] == head[..2];
    }
  }

  lemma {:induction false} WalkChain(b: Bytes, off: nat, es: seq<Extension>, upper: Byte, guard: nat, frag: bool)
    requires !IsExtension(upper) && guard <= MAX_EXTENSIONS
    requires ChainAt(b, off, es, upper)
    ensures WalkExtensions(b, Walk(FirstKind(es, upper), off, frag), guard)
         == ChainEnd(off, es, upper, Min(|es|, MAX_EXTENSIONS - guard), frag)
    decreases |es|
  {
    if es == [] || guard == MAX_EXTENSIONS {
      assert es[0..] == es && es[..0] == [];
    } else {
      var m := Min(|es|, MAX_EXTENSIONS - guard);
      WalkChain(b, off + 2 + |es[0].fill|, es[1..], upper, guard + 1, frag || es[0].kind == 44);
      assert Min(|es[1..]|, MAX_EXTENSIONS - (guard + 1)) == m - 1;
      ChainEndStep(off, es, upper, m, frag);
    }
  }

  lemma HasFragmentCons(e: Extension, es: seq<Extension>)
    ensures HasFragment([e] + es) <==> e.kind == 44 || HasFragment(es)
  {
    var all := [e] + es;
    if e.kind == 44 {
      assert all[0].kind == 44;
    }
    if HasFragment(es) {
      var i :| 0 <= i < |es| && es[i].kind == 44;
      assert all[i + 1].kind == 44;
    }
    if HasFragment(all) && e.kind != 44 {
      var i :| 0 <= i < |all| && all[i].kind == 44;
      assert es[i - 1].kind == 44;
    }
  }

  lemma {:induction false} ChainSuffix(es: seq<Extension>, upper: Byte, m: nat)
    requires m <= |es|
    ensures |Chain(es, upper)| == ChainSize(es[..m]) + |Chain(es[m..], upper)|
    ensures Chain(es, upper)[ChainSize(es[..m])..] == Chain(es[m..], upper)
  {
    if m == 0 {
      assert es[0..] == es;
    } else {
      ChainSuffix(es[1..], upper, m - 1);
      assert es[1..][m - 1..] == es[m..];
      assert es[..m][1..] == es[1..][..m - 1];
      var head := [FirstKind(es[1..], upper), es[0].unit] + es[0].fill;
      assert Chain(es, upper)[ChainSize(es[..m])..] == Chain(es[1..], upper)[ChainSize(es[..m]) - |head|..];
    }
  }

  type Address6 = a: Bytes | |a| == 16 witness [0, 0, 0, 0, 0, 0, 0, 0, 0, 0, 0, 0, 0, 0, 0, 0]

  function Ipv6Header(src: Address6, dst: Address6, plen: Port, next: Byte): (r: Bytes)
    ensures |r| == 40
  {
    [0x60, 0, 0, 0] + U16(plen) + [next, 64] + src + dst
  }

  function Ipv6Bytes(src: Address6, dst: Address6, next: Byte, chain: Bytes, payload: Bytes): Bytes
    requires |chain| + |payload| < 0x1_0000
  {
    Ipv6Header(src, dst, |chain| + |payload|, next) + chain + payload
  }

  lemma Ipv6Fields(src: Address6, dst: Address6, next: Byte, chain: Bytes, payload: Bytes, pad: Bytes)
    requires |chain| + |payload| < 0x1_0000
    ensures var b := Ipv6Bytes(src, dst, next, chain, payload) + pad;
            && At16(b, 4) == |chain| + |payload| && b[6] == next && b[8..24] == src && b[24..40] == dst
            && b == b[..40] + chain + payload + pad
  {
    var b := Ipv6Bytes(src, dst, next, chain, payload) + pad;
    assert b[4..6] == U16(|chain| + |payload|) && At16(b, 4) == At16(b[4..6], 0);
  }

  /** What is read off a packet, once it is known where the extension walk ends. */
  lemma Ipv6Cut(b: Bytes, w: Walk, end: nat)
    requires 40 <= w.off <= end <= |b| && end == 40 + At16(b, 4)
    ensures Ipv6At(b, w).payload == b[w.off..end] + (if end == 40 then b[end..] else [])
  {
    assert b[w.off..end] + [] == b[w.off..end];
    assert b[w.off..] == b[w.off..end] + b[end..];
  }

  lemma Layout(head: Bytes, chain: Bytes, payload: Bytes, pad: Bytes, k: nat)
    requires k <= |chain|
    ensures var b := head + chain + payload + pad;
            && b == head + (chain + payload + pad) == head + chain + (payload + pad)
            && b[|head| + k..|head| + |chain| + |payload|] == chain[k..] + payload
            && b[|head| + |chain| + |payload|..] == pad
  {
  }

  /** The extension walk over a whole packet. */
  lemma Ipv6Walk(head: Bytes, es: seq<Extension>, upper: Byte, payload: Bytes, pad: Bytes)
    requires !IsExtension(upper) && |head| == 40
    ensures var b := head + Chain(es, upper) + payload + pad;
            var m := Min(|es|, MAX_EXTENSIONS);
            && WalkExtensions(b, Walk(FirstKind(es, upper), 40, false), 0) == ChainEnd(40, es, upper, m, false)
            && ChainSize(es[..m]) <= |Chain(es, upper)|
            && b[40 + ChainSize(es[..m])..40 + |Chain(es, upper)| + |payload|] == Chain(es[m..], upper) + payload
            && b[40 + |Chain(es, upper)| + |payload|..] == pad
  {
    var m := Min(|es|, MAX_EXTENSIONS);
    ChainSuffix(es, upper, m);
    Layout(head, Chain(es, upper), payload, pad, ChainSize(es[..m]));
    ChainIsAt(head, es, upper, payload + pad);
    WalkChain(head + Chain(es, upper) + payload + pad, 40, es, upper, 0, false);
  }

  /**
   * Parsing an IPv6 packet with any chain of extension headers. Up to sixteen are walked: with no more than
   * that the upper protocol and payload come out; beyond it, the kind and the bytes of the seventeenth header.
   * The packet counts as fragmented exactly when a walked header is a fragment header. Padding behind the
   * packet is cut off exactly when the payload-length field is not zero.
   */
  lemma Ipv6RoundTrip(src: Address6, dst: Address6, es: seq<Extension>, upper: Byte, payload: Bytes, pad: Bytes)
    requires !IsExtension(upper) && |Chain(es, upper)| + |payload| < 0x1_0000
    ensures var chain, m := Chain(es, upper), Min(|es|, MAX_EXTENSIONS);
            var r := Ipv6Packet(Ipv6Bytes(src, dst, FirstKind(es, upper), chain, payload) + pad);
            && r.Some? && r.value.ver == 6 && r.value.src == src && r.value.dst == dst
            && r.value.proto == FirstKind(es[m..], upper)
            && r.value.payload == Chain(es[m..], upper) + payload + (if chain == [] && payload == [] then pad else [])
            && r.value.fragmented == HasFragment(es[..m])
  {
    var m := Min(|es|, MAX_EXTENSIONS);
    var chain := Chain(es, upper);
    var b := Ipv6Bytes(src, dst, FirstKind(es, upper), chain, payload) + pad;
    Ipv6Fields(src, dst, FirstKind(es, upper), chain, payload, pad);
    Ipv6Walk(b[..40], es, upper, payload, pad);
    Ipv6Cut(b, ChainEnd(40, es, upper, m, false), 40 + |chain| + |payload|);
  }

  /**
   * At most sixteen headers: the upper protocol, its payload, and the fragment flag for header 44 (section 4.5 of
   * RFC 8200) come out; padding is cut off exactly when the payload-length field is not zero.
   */
  lemma Ipv6ShortChain(src: Address6, dst: Address6, es: seq<Extension>, upper: Byte, payload: Bytes, pad: Bytes)
    requires !IsExtension(upper) && |Chain(es, upper)| + |payload| < 0x1_0000
    requires |es| <= MAX_EXTENSIONS
    ensures var r := Ipv6Packet(Ipv6Bytes(src, dst, FirstKind(es, upper), Chain(es, upper), payload) + pad);
            && r.Some? && r.value.src == src && r.value.dst == dst
            && r.value.proto == upper && r.value.fragmented == HasFragment(es)
            && (r.value.payload == payload <==> pad == [] || es != [] || payload != [])
  {
    Ipv6RoundTrip(src, dst, es, upper, payload, pad);
    assert es[..|es|] == es && es[|es|..] == [];
    assert es != [] <==> Chain(es, upper) != [];
    assert [] + payload + [] == payload;
    assert payload == [] ==> [] + payload + pad == pad;
  }
}
