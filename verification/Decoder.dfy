/** The whole decode: capture file in, tracked connections, DNS events and tallies out. */
module Decoder {
  import opened Octets
  import opened Frames
  import opened Tracker
  import Capture
  import Dns
  import Http

  datatype Counts = Counts(ipv4: nat, ipv6: nat, arp: nat, tcp: nat, udp: nat, dns: nat, tls: nat, http: nat, icmp: nat,
                           other: nat, errors: nat)

  datatype DnsEvent = DnsEvent(ts: real, resolver: Bytes, client: Bytes, msg: Dns.Message)

  /** What is noted of single packets, in their order: IP fragments, and resets before a handshake. */
  datatype Note = FragmentNote(src: Bytes, dst: Bytes) | ResetNote(a: Endpoint, b: Endpoint)

  /** Everything but the connection table, which the tracker holds. */
  datatype Report = Report(header: Capture.Header, packets: nat, first: Option<real>, last: Option<real>,
                           truncated: bool, capped: bool,
                           counts: Counts, dns: seq<DnsEvent>, notes: seq<Note>)

  const ZERO := Counts(0, 0, 0, 0, 0, 0, 0, 0, 0, 0, 0)

  function L3Of(lt: nat, r: Capture.Record): L3 {
    Link(lt, r.data).0
  }

  function PacketOf(lt: nat, r: Capture.Record): Packet {
    Dissect(lt, r.data)
  }

  function ArrivalOf(r: Capture.Record, p: Packet): Arrival
    requires p.TcpPacket?
  {
    Arrival(r.ts, Endpoint(p.src, p.seg.sport), Endpoint(p.dst, p.seg.dport), p.seg)
  }

  function TallyL3(c: Counts, l3: L3): Counts {
    match l3
    case Ipv4 => c.(ipv4 := c.ipv4 + 1)
    case Ipv6 => c.(ipv6 := c.ipv6 + 1)
    case Arp => c.(arp := c.arp + 1)
    case NoL3 => c.(other := c.other + 1)
  }

  function DnsOf(d: Datagram): Option<Dns.Message> {
    if d.sport == 53 || d.dport == 53 then Dns.Parsed(d.payload) else None
  }

  /** A packet in which the payload inspection finds TLS records, and one in which it finds an HTTP message. */
  predicate IsTls(p: Packet) {
    p.TcpPacket? && CarriesTls(Endpoint(p.src, p.seg.sport), Endpoint(p.dst, p.seg.dport), p.seg.payload)
  }

  predicate IsHttp(p: Packet) {
    p.TcpPacket? && !IsTls(p) && Http.Parsed(p.seg.payload).Some?
  }

  function TallyL4(c: Counts, p: Packet): Counts {
    match p
    case TcpPacket(_, _, _) => c.(tcp := c.tcp + 1, tls := c.tls + One(IsTls(p)), http := c.http + One(IsHttp(p)))
    case UdpPacket(_, _, d) => c.(udp := c.udp + 1, dns := c.dns + One(DnsOf(d).Some?))
    case Fragment(_, _) => c
    case IcmpPacket => c.(icmp := c.icmp + 1)
    case OtherL4 => c.(other := c.other + 1)
    case BadL4 => c.(errors := c.errors + 1)
    case NotIp => c
  }

  function EventOf(ts: real, p: Packet): seq<DnsEvent> {
    if p.UdpPacket? && DnsOf(p.dgram).Some? then
      var toServer := p.dgram.dport == 53;
      [DnsEvent(ts, if toServer then p.dst else p.src, if toServer then p.src else p.dst, DnsOf(p.dgram).value)]
    else []
  }

  // ----- what a list of records amounts to -----

  function Arrivals(lt: nat, rs: seq<Capture.Record>): seq<Arrival> {
    if rs == [] then [] else
    var rest, r := Arrivals(lt, rs[..|rs| - 1]), rs[|rs| - 1];
    if PacketOf(lt, r).TcpPacket? then rest + [ArrivalOf(r, PacketOf(lt, r))] else rest
  }

  function Tallies(lt: nat, rs: seq<Capture.Record>): Counts {
    if rs == [] then ZERO else
    var r := rs[|rs| - 1];
    TallyL4(TallyL3(Tallies(lt, rs[..|rs| - 1]), L3Of(lt, r)), PacketOf(lt, r))
  }

  function Events(lt: nat, rs: seq<Capture.Record>): seq<DnsEvent> {
    if rs == [] then [] else
    var r := rs[|rs| - 1];
    Events(lt, rs[..|rs| - 1]) + EventOf(r.ts, PacketOf(lt, r))
  }

  function Fragments(lt: nat, rs: seq<Capture.Record>): seq<(Bytes, Bytes)> {
    if rs == [] then [] else
    var rest, p := Fragments(lt, rs[..|rs| - 1]), PacketOf(lt, rs[|rs| - 1]);
    if p.Fragment? then rest + [(p.src, p.dst)] else rest
  }

  function NoteOf(lt: nat, rs: seq<Capture.Record>, r: Capture.Record): seq<Note> {
    var p := PacketOf(lt, r);
    if p.Fragment? then [FragmentNote(p.src, p.dst)]
    else if p.TcpPacket? then
      var ends := ResetBy(Run(Arrivals(lt, rs)), ArrivalOf(r, p));
      if ends.Some? then [ResetNote(ends.value.0, ends.value.1)] else []
    else []
  }

  function Notes(lt: nat, rs: seq<Capture.Record>): seq<Note> {
    if rs == [] then [] else
    var q := rs[..|rs| - 1];
    Notes(lt, q) + NoteOf(lt, q, rs[|rs| - 1])
  }

  function FragmentsIn(ns: seq<Note>): seq<(Bytes, Bytes)> {
    if ns == [] then [] else
    var rest, n := FragmentsIn(ns[..|ns| - 1]), ns[|ns| - 1];
    if n.FragmentNote? then rest + [(n.src, n.dst)] else rest
  }

  function ResetsIn(ns: seq<Note>): seq<(Endpoint, Endpoint)> {
    if ns == [] then [] else
    var rest, n := ResetsIn(ns[..|ns| - 1]), ns[|ns| - 1];
    if n.ResetNote? then rest + [(n.a, n.b)] else rest
  }

  lemma NotesOn(ns: seq<Note>, n: Note)
    ensures FragmentsIn(ns + [n]) == if n.FragmentNote? then FragmentsIn(ns) + [(n.src, n.dst)] else FragmentsIn(ns)
    ensures ResetsIn(ns + [n]) == if n.ResetNote? then ResetsIn(ns) + [(n.a, n.b)] else ResetsIn(ns)
  {
    assert (ns + [n])[..|ns|] == ns;
  }

  /** The notes are the fragments and the tracker's resets, each in their order, and nothing else. */
  lemma {:induction false} NotesMeaning(lt: nat, rs: seq<Capture.Record>)
    ensures FragmentsIn(Notes(lt, rs)) == Fragments(lt, rs) && ResetsIn(Notes(lt, rs)) == Run(Arrivals(lt, rs)).resets
    ensures |Notes(lt, rs)| == |Fragments(lt, rs)| + |Run(Arrivals(lt, rs)).resets|
  {
    hide PacketOf, ResetBy, Step, KeyOf, FragmentsIn, ResetsIn, Known;
    if rs == [] {
      NothingNoted();
    } else {
      var q, r := rs[..|rs| - 1], rs[|rs| - 1];
      var p, ns := PacketOf(lt, r), Notes(lt, q);
      NotesMeaning(lt, q);
      if p.TcpPacket? {
        var ends := ResetBy(Run(Arrivals(lt, q)), ArrivalOf(r, p));
        RunOn(Arrivals(lt, q), ArrivalOf(r, p));
        if ends.Some? {
          NotesOn(ns, ResetNote(ends.value.0, ends.value.1));
        } else {
          NoTail(ns);
        }
      } else if p.Fragment? {
        NotesOn(ns, FragmentNote(p.src, p.dst));
      } else {
        NoTail(ns);
      }
    }
  }

  lemma NothingNoted()
    ensures FragmentsIn([]) == [] && ResetsIn([]) == [] && Run([]).resets == []
  {
  }

  /** The records processed before the packet cap. */
  function Kept(rs: seq<Capture.Record>, maxPackets: nat): seq<Capture.Record> {
    rs[..Min(|rs|, maxPackets)]
  }

  function Earlier(was: Option<real>, ts: real): Option<real> {
    if was.None? || ts < was.value then Some(ts) else was
  }

  function Later(was: Option<real>, ts: real): Option<real> {
    if was.None? || ts > was.value then Some(ts) else was
  }

  function FirstTime(rs: seq<Capture.Record>): Option<real> {
    if rs == [] then None else Earlier(FirstTime(rs[..|rs| - 1]), rs[|rs| - 1].ts)
  }

  function LastTime(rs: seq<Capture.Record>): Option<real> {
    if rs == [] then None else Later(LastTime(rs[..|rs| - 1]), rs[|rs| - 1].ts)
  }

  predicate HasTime(rs: seq<Capture.Record>, t: real) {
    exists i :: 0 <= i < |rs| && rs[i].ts == t
  }

  /**
   * The capture's times are the smallest and the largest time of a record; there are none if and only if it is empty.
   */
  lemma {:induction false} TimesMeaning(rs: seq<Capture.Record>)
    ensures rs == [] ==> FirstTime(rs).None? && LastTime(rs).None?
    ensures rs != [] ==> FirstTime(rs).Some? && LastTime(rs).Some?
    ensures rs != [] ==> HasTime(rs, FirstTime(rs).value) && HasTime(rs, LastTime(rs).value)
    ensures rs != [] ==> forall i :: 0 <= i < |rs| ==> FirstTime(rs).value <= rs[i].ts <= LastTime(rs).value
  {
    if rs != [] {
      var q, n := rs[..|rs| - 1], |rs| - 1;
      TimesMeaning(q);
      assert forall i :: 0 <= i < n ==> q[i] == rs[i];
      assert forall t :: HasTime(q, t) ==> HasTime(rs, t);
      assert HasTime(rs, rs[n].ts);
    }
  }

  function ReportOn(h: Capture.Header, body: Bytes, maxPackets: nat): Report {
    var rs := Capture.Records(h, body);
    var kept, noted, capped := Kept(rs, maxPackets), Kept(rs, maxPackets + 1), |rs| > maxPackets;
    Report(h, |noted|, FirstTime(noted), LastTime(noted), !capped && Capture.Torn(h, body), capped,
           Tallies(h.linktype, kept), Events(h.linktype, kept), Notes(h.linktype, kept))
  }

  function Decoded(file: Bytes, maxPackets: nat): Result<Report, Capture.PcapError> {
    match Capture.ParseHeader(file)
    case Err(e) => Err(e)
    case Ok(h) => Ok(ReportOn(h, file[Capture.GLOBAL_HDR_LEN..], maxPackets))
  }

  function Fed(file: Bytes, maxPackets: nat): seq<Arrival> {
    match Capture.ParseHeader(file)
    case Err(_) => []
    case Ok(h) => Arrivals(h.linktype, Kept(Capture.Records(h, file[Capture.GLOBAL_HDR_LEN..]), maxPackets))
  }

  lemma On(lt: nat, rs: seq<Capture.Record>, r: Capture.Record)
    ensures var p := PacketOf(lt, r);
            && Arrivals(lt, rs + [r]) ==
               (if p.TcpPacket? then Arrivals(lt, rs) + [ArrivalOf(r, p)] else Arrivals(lt, rs))
            && Tallies(lt, rs + [r]) == TallyL4(TallyL3(Tallies(lt, rs), L3Of(lt, r)), p)
            && Events(lt, rs + [r]) == Events(lt, rs) + EventOf(r.ts, p)
            && Fragments(lt, rs + [r]) ==
               (if p.Fragment? then Fragments(lt, rs) + [(p.src, p.dst)] else Fragments(lt, rs))
  {
    hide PacketOf, TallyL3, TallyL4, EventOf;
    assert (rs + [r])[..|rs|] == rs;
  }

  lemma NotesGrow(lt: nat, rs: seq<Capture.Record>, r: Capture.Record)
    ensures Notes(lt, rs + [r]) == Notes(lt, rs) + NoteOf(lt, rs, r)
  {
    hide NoteOf;
    assert (rs + [r])[..|rs|] == rs;
  }

  /** A record that looks like IP but is too short to be. */
  predicate IsBroken(lt: nat, r: Capture.Record) {
    (L3Of(lt, r).Ipv4? || L3Of(lt, r).Ipv6?) && PacketOf(lt, r).NotIp?
  }

  function Broken(lt: nat, rs: seq<Capture.Record>): nat {
    if rs == [] then 0 else Broken(lt, rs[..|rs| - 1]) + One(IsBroken(lt, rs[|rs| - 1]))
  }

  lemma NotIpIff(lt: nat, r: Capture.Record)
    ensures L3Of(lt, r).Arp? || L3Of(lt, r).NoL3? ==> PacketOf(lt, r).NotIp?
  {
  }

  /**
   * Every processed record is counted in exactly one place: a transport tally, the ARP tally, the fragments, or the
   * broken IP packets. The tracker is fed one segment for each TCP packet, and a DNS event is kept for each DNS
   * message.
   */
  lemma {:induction false} EachTallied(lt: nat, rs: seq<Capture.Record>)
    ensures var c := Tallies(lt, rs);
            && c.tcp + c.udp + c.icmp + c.other + c.errors + c.arp + |Fragments(lt, rs)| + Broken(lt, rs) == |rs|
            && c.tcp == |Arrivals(lt, rs)| && c.dns == |Events(lt, rs)|
            && c.dns <= c.udp && c.tls + c.http <= c.tcp && c.ipv4 + c.ipv6 + c.arp <= |rs|
  {
    hide L3Of, PacketOf, DnsOf, CarriesTls, Http.Parsed;
    if rs != [] {
      EachTallied(lt, rs[..|rs| - 1]);
      NotIpIff(lt, rs[|rs| - 1]);
    }
  }

  /** Link, network and transport layers of one record, by way of the parsing loops. */
  method Open(lt: nat, data: Bytes) returns (l3: L3, p: Packet)
    ensures l3 == Link(lt, data).0 && p == Dissect(lt, data)
  {
    hide Link, Transport, ParseIpv4, Ipv6Packet;
    var rest;
    l3, rest := StripLink(lt, data);
    if l3.Ipv6? {
      var ip := ParseIpv6(rest);
      p := if ip.Some? then Transport(ip.value) else NotIp;
    } else {
      p := Network(l3, rest);
    }
  }

  method NoteUdp(ts: real, p: Packet) returns (evs: seq<DnsEvent>)
    requires p.UdpPacket?
    ensures evs == EventOf(ts, p)
  {
    hide Dns.Parsed;
    evs := [];
    if p.dgram.sport == 53 || p.dgram.dport == 53 {
      var msg := Dns.ParseDns(p.dgram.payload);
      if msg.Some? {
        var toServer := p.dgram.dport == 53;
        evs := [DnsEvent(ts, if toServer then p.dst else p.src, if toServer then p.src else p.dst, msg.value)];
      }
    }
  }

  /**
   * Decoding never fails on a bad packet: every record is processed, and the tracker ends up with exactly its stream.
   */
  method Decode(file: Bytes, maxPackets: nat) returns (r: Result<Report, Capture.PcapError>, tracker: TcpTracker)
    ensures r == Decoded(file, maxPackets)
    ensures fresh(tracker) && tracker.Valid() && tracker.fed == Fed(file, maxPackets)
  {
    hide TcpTracker.Valid, Capture.ParseHeader, Capture.Records, Capture.Torn, PacketOf, L3Of, Run, TallyL3, TallyL4,
         EventOf, NoteOf, Arrivals, Tallies, Events, Notes, FirstTime, LastTime, Earlier, Later;
    tracker := new TcpTracker();
    var got := Capture.OpenReader(file);
    if got.Err? {
      return Err(got.error), tracker;
    }
    var reader := got.value;
    var lt := reader.header.linktype;
    ghost var body := reader.Unread();
    ghost var all, done := Capture.Records(reader.header, body), [];
    ghost var noted := [];
    var n, capped := 0, false;
    var first, last := None, None;
    var counts, events, notes := ZERO, [], [];
    NothingYet(lt);
    assert Notes(lt, []) == [] by { NoNotes(lt); }
    while true
      invariant fresh(reader) && fresh(tracker) && reader.Valid() && tracker.Valid()
      invariant forall k :: k in tracker.conns ==> fresh(tracker.conns[k])
      invariant Ok(reader.header) == Capture.ParseHeader(file) && !reader.truncated && !capped
      invariant noted == done && first == FirstTime(noted) && last == LastTime(noted)
      invariant n == |done| <= maxPackets && all == done + Capture.Records(reader.header, reader.Unread())
      invariant Capture.Torn(reader.header, body) == Capture.Torn(reader.header, reader.Unread())
      invariant tracker.fed == Arrivals(lt, done) && counts == Tallies(lt, done)
      invariant events == Events(lt, done) && notes == Notes(lt, done)
      decreases |reader.Unread()|
    {
      var rec := reader.Next();
      if rec.None? {
        break;
      }
      n := n + 1;
      NotedOn(noted, rec.value);
      noted := noted + [rec.value];
      first, last := Earlier(first, rec.value.ts), Later(last, rec.value.ts);
      if n > maxPackets {
        capped := true;
        break;
      }
      Snoc(done, rec.value, Capture.Records(reader.header, reader.Unread()));
      On(lt, done, rec.value);
      NotesGrow(lt, done, rec.value);
      var l3, p := Open(lt, rec.value.data);
      assert l3 == L3Of(lt, rec.value) && p == PacketOf(lt, rec.value) by { Same(lt, rec.value); }
      counts := TallyL4(TallyL3(counts, l3), p);
      var now: seq<Note> := [];
      if p.TcpPacket? {
        var reset := tracker.Tcp(ArrivalOf(rec.value, p));
        if reset.Some? {
          now := [ResetNote(reset.value.0, reset.value.1)];
        }
      } else if p.Fragment? {
        now := [FragmentNote(p.src, p.dst)];
      }
      assert now == NoteOf(lt, done, rec.value) by { Noted(lt, done, rec.value); }
      notes := notes + now;
      if p.UdpPacket? {
        var evs := NoteUdp(rec.value.ts, p);
        events := events + evs;
      } else {
        NoEvent(rec.value.ts, p);
        NoTail(events);
      }
      done := done + [rec.value];
    }
    NoTail(done);
    assert Kept(all, maxPackets) == done && Kept(all, maxPackets + 1) == noted;
    r := Ok(Report(reader.header, n, first, last, reader.truncated, capped, counts, events, notes));
  }

  lemma NotedOn(rs: seq<Capture.Record>, r: Capture.Record)
    ensures FirstTime(rs + [r]) == Earlier(FirstTime(rs), r.ts) && LastTime(rs + [r]) == Later(LastTime(rs), r.ts)
  {
    assert (rs + [r])[..|rs|] == rs;
  }

  lemma Noted(lt: nat, rs: seq<Capture.Record>, r: Capture.Record)
    ensures var p := PacketOf(lt, r);
            && (p.Fragment? ==> NoteOf(lt, rs, r) == [FragmentNote(p.src, p.dst)])
            && (p.TcpPacket? ==>
                  var ends := ResetBy(Run(Arrivals(lt, rs)), ArrivalOf(r, p));
                  NoteOf(lt, rs, r) == if ends.Some? then [ResetNote(ends.value.0, ends.value.1)] else [])
            && (!p.Fragment? && !p.TcpPacket? ==> NoteOf(lt, rs, r) == [])
  {
    hide PacketOf, Run, Arrivals, ResetBy;
  }

  lemma NoNotes(lt: nat)
    ensures Notes(lt, []) == []
  {
  }

  lemma NothingYet(lt: nat)
    ensures Arrivals(lt, []) == [] && Tallies(lt, []) == ZERO && Events(lt, []) == [] && Fragments(lt, []) == []
    ensures FirstTime([]) == None && LastTime([]) == None
  {
  }

  lemma NoEvent(ts: real, p: Packet)
    requires !p.UdpPacket?
    ensures EventOf(ts, p) == []
  {
  }

  lemma Same(lt: nat, r: Capture.Record)
    ensures L3Of(lt, r) == Link(lt, r.data).0 && PacketOf(lt, r) == Dissect(lt, r.data)
  {
  }
}
