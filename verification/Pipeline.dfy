/** From segments and datagrams to frames to a capture file, cut anywhere, and back to the decoded report. */
module Pipeline {
  import opened Octets
  import opened Frames
  import opened Tracker
  import opened Decoder
  import Capture
  import Dns
  import Http

  /** A TCP segment or UDP datagram as the frame builders take it, with its capture time. */
  datatype AnySent =
    | SentTcp(sec: nat, usec: nat, src: Address4, dst: Address4, sp: Port, dp: Port,
              seqNo: Word, ackNo: Word, flags: Byte, payload: Bytes, window: Port)
    | SentUdp(sec: nat, usec: nat, src: Address4, dst: Address4, dgram: Datagram)

  /** One that fits the fields it is written to. */
  type Sent = s: AnySent |
      && s.sec < 0x1_0000_0000 && s.usec < 0x1_0000_0000
      && (s.SentTcp? ==> 40 + |s.payload| < 0x1_0000)
      && (s.SentUdp? ==> s.dgram.sport < 0x1_0000 && s.dgram.dport < 0x1_0000 && 28 + |s.dgram.payload| < 0x1_0000)
    witness SentTcp(0, 0, [0, 0, 0, 0], [0, 0, 0, 0], 0, 0, 0, 0, 0, [], 0)

  function TcpBytes(s: Sent): (r: Bytes)
    requires s.SentTcp?
    ensures |r| == 20 + |s.payload|
  {
    BuildTcp(s.sp, s.dp, s.seqNo, s.ackNo, s.flags, s.payload, s.window)
  }

  function FrameOf(s: Sent): (f: Capture.Frame)
    ensures |f.data| <= Capture.MAX_SNAPLEN
  {
    Capture.Frame(s.sec, s.usec,
                  match s
                  case SentTcp(_, _, _, _, _, _, _, _, _, _, _) => BuildEthIpv4(s.src, s.dst, IPPROTO_TCP, TcpBytes(s))
                  case SentUdp(_, _, _, _, d) => BuildEthIpv4(s.src, s.dst, IPPROTO_UDP, BuildUdp(d)))
  }

  function Time(s: Sent): real {
    Capture.Stamp(s.sec, s.usec, 1_000_000)
  }

  /** What was sent, as the dissector should see it. */
  function Shape(s: Sent): (p: Packet)
    ensures p.TcpPacket? <==> s.SentTcp?
    ensures p.UdpPacket? <==> s.SentUdp?
  {
    match s
    case SentTcp(_, _, src, dst, sp, dp, seqNo, ackNo, flags, payload, window) =>
      TcpPacket(src, dst, BuiltSegment(sp, dp, seqNo, ackNo, flags, payload, window))
    case SentUdp(_, _, src, dst, d) => UdpPacket(src, dst, d)
  }

  function FramesOf(ss: seq<Sent>): (r: seq<Capture.Frame>)
    ensures |r| == |ss| && forall i :: 0 <= i < |ss| ==> r[i] == FrameOf(ss[i])
  {
    seq(|ss|, i requires 0 <= i < |ss| => FrameOf(ss[i]))
  }

  // ----- what was sent -----

  /** The TCP segments among what was sent. */
  function Segments(ss: seq<Sent>): seq<Arrival> {
    if ss == [] then [] else
    var rest, s := Segments(ss[..|ss| - 1]), ss[|ss| - 1];
    if s.SentTcp? then
      rest + [Arrival(Time(s), Endpoint(s.src, s.sp), Endpoint(s.dst, s.dp), Shape(s).seg)]
    else rest
  }

  /** The DNS messages among what was sent. */
  function Messages(ss: seq<Sent>): seq<DnsEvent> {
    if ss == [] then [] else Messages(ss[..|ss| - 1]) + EventOf(Time(ss[|ss| - 1]), Shape(ss[|ss| - 1]))
  }

  predicate TlsArrival(p: Arrival) {
    CarriesTls(p.src, p.dst, p.seg.payload)
  }

  predicate HttpArrival(p: Arrival) {
    !TlsArrival(p) && Http.Parsed(p.seg.payload).Some?
  }

  function TlsCount(ps: seq<Arrival>): nat {
    if ps == [] then 0 else TlsCount(ps[..|ps| - 1]) + One(TlsArrival(ps[|ps| - 1]))
  }

  function HttpCount(ps: seq<Arrival>): nat {
    if ps == [] then 0 else HttpCount(ps[..|ps| - 1]) + One(HttpArrival(ps[|ps| - 1]))
  }

  function CountsOf(ss: seq<Sent>): Counts
    requires |Segments(ss)| <= |ss|
  {
    var tcp := |Segments(ss)|;
    Counts(|ss|, 0, 0, tcp, |ss| - tcp, |Messages(ss)|, TlsCount(Segments(ss)), HttpCount(Segments(ss)), 0, 0, 0)
  }

  // ----- one frame -----

  lemma FrameDissected(s: Sent)
    ensures var r := Capture.Read1(FrameOf(s));
            PacketOf(LINKTYPE_ETHERNET, r) == Shape(s) && L3Of(LINKTYPE_ETHERNET, r) == Ipv4 && r.ts == Time(s)
  {
    hide Dissect, BuildTcp, BuildIpv4, BuildUdp, Tagged, Link;
    match s
    case SentTcp(_, _, src, dst, sp, dp, seqNo, ackNo, flags, payload, window) =>
      var l4 := TcpBytes(s);
      UntaggedIsBuilt(src, dst, IPPROTO_TCP, l4);
      LinkTagged([], ETH_P_IPV4, BuildIpv4(src, dst, IPPROTO_TCP, l4), []);
      TcpFrameRoundTrip(src, dst, sp, dp, seqNo, ackNo, flags, payload, window, [], []);
    case SentUdp(_, _, src, dst, d) =>
      UntaggedIsBuilt(src, dst, IPPROTO_UDP, BuildUdp(d));
      LinkTagged([], ETH_P_IPV4, BuildIpv4(src, dst, IPPROTO_UDP, BuildUdp(d)), []);
      UdpFrameRoundTrip(src, dst, d, [], []);
  }

  lemma SentOn(q: seq<Sent>, s: Sent)
    ensures Capture.ReadBack(FramesOf(q + [s])) == Capture.ReadBack(FramesOf(q)) + [Capture.Read1(FrameOf(s))]
    ensures Segments(q + [s]) == Segments(q) +
            (if s.SentTcp? then [Arrival(Time(s), Endpoint(s.src, s.sp), Endpoint(s.dst, s.dp), Shape(s).seg)] else [])
    ensures Messages(q + [s]) == Messages(q) + EventOf(Time(s), Shape(s))
  {
    hide FrameOf, Shape, Capture.Read1, EventOf, Time;
    assert (q + [s])[..|q|] == q;
    NoTail(Segments(q));
  }

  lemma CountedOn(ps: seq<Arrival>, p: Arrival)
    ensures TlsCount(ps + [p]) == TlsCount(ps) + One(TlsArrival(p))
    ensures HttpCount(ps + [p]) == HttpCount(ps) + One(HttpArrival(p))
  {
    hide TlsArrival, HttpArrival;
    assert (ps + [p])[..|ps|] == ps;
  }

  /** What one more frame adds to the tallies. */
  lemma Tallied(c: Counts, s: Sent)
    ensures var d := TallyL4(TallyL3(c, Ipv4), Shape(s));
            d == c.(ipv4 := c.ipv4 + 1, tcp := c.tcp + One(s.SentTcp?), udp := c.udp + One(s.SentUdp?),
                    dns := c.dns + |EventOf(Time(s), Shape(s))|,
                    tls := c.tls + One(IsTls(Shape(s))), http := c.http + One(IsHttp(Shape(s))))
  {
    hide CarriesTls, Http.Parsed, DnsOf, Shape;
  }

  // ----- all of them -----

  /** What one more frame adds. */
  lemma ArrivesOn(q: seq<Sent>, s: Sent)
    ensures var rs, rs', p := Capture.ReadBack(FramesOf(q)), Capture.ReadBack(FramesOf(q + [s])), Shape(s);
            && Events(LINKTYPE_ETHERNET, rs') == Events(LINKTYPE_ETHERNET, rs) + EventOf(Time(s), p)
            && Fragments(LINKTYPE_ETHERNET, rs') == Fragments(LINKTYPE_ETHERNET, rs)
            && Tallies(LINKTYPE_ETHERNET, rs') == TallyL4(TallyL3(Tallies(LINKTYPE_ETHERNET, rs), Ipv4), p)
            && Arrivals(LINKTYPE_ETHERNET, rs') == Arrivals(LINKTYPE_ETHERNET, rs) +
               (if s.SentTcp? then [Arrival(Time(s), Endpoint(s.src, s.sp), Endpoint(s.dst, s.dp), p.seg)] else [])
  {
    hide PacketOf, L3Of, FrameOf, Shape, Time, Capture.Read1, Arrivals, Events, Fragments, Tallies, TallyL3, TallyL4,
         Capture.ReadBack, FramesOf, EventOf, IsTls, IsHttp, TlsArrival, HttpArrival;
    var rs, r := Capture.ReadBack(FramesOf(q)), Capture.Read1(FrameOf(s));
    assert Capture.ReadBack(FramesOf(q + [s])) == rs + [r] by { SentOn(q, s); }
    On(LINKTYPE_ETHERNET, rs, r);
    FrameDissected(s);
    if s.SentTcp? {
      TcpArrival(s, r);
    } else {
      NoTail(Arrivals(LINKTYPE_ETHERNET, rs));
    }
  }

  lemma NothingArrives(ss: seq<Sent>)
    requires ss == []
    ensures var rs := Capture.ReadBack(FramesOf(ss));
            && Arrivals(LINKTYPE_ETHERNET, rs) == [] && Events(LINKTYPE_ETHERNET, rs) == []
            && Fragments(LINKTYPE_ETHERNET, rs) == [] && Tallies(LINKTYPE_ETHERNET, rs) == ZERO
  {
    hide Arrivals, Events, Fragments, Tallies;
    NothingYet(LINKTYPE_ETHERNET);
    assert Capture.ReadBack(FramesOf(ss)) == [];
  }

  lemma {:induction false} SentArrives(ss: seq<Sent>)
    ensures |Segments(ss)| <= |ss|
    ensures var rs := Capture.ReadBack(FramesOf(ss));
            && Arrivals(LINKTYPE_ETHERNET, rs) == Segments(ss) && Events(LINKTYPE_ETHERNET, rs) == Messages(ss)
            && Fragments(LINKTYPE_ETHERNET, rs) == []
  {
    hide Shape, Time, Arrivals, Events, Fragments, Tallies, TallyL3, TallyL4, Capture.ReadBack, FramesOf, Segments,
         Messages, EventOf;
    if ss == [] {
      NothingArrives(ss);
      NothingSent(ss);
    } else {
      var q, s := ss[..|ss| - 1], ss[|ss| - 1];
      assert ss == q + [s];
      SentArrives(q);
      SentOn(q, s);
      ArrivesOn(q, s);
    }
  }

  lemma {:induction false} SentTallied(ss: seq<Sent>)
    ensures |Segments(ss)| <= |ss| && Tallies(LINKTYPE_ETHERNET, Capture.ReadBack(FramesOf(ss))) == CountsOf(ss)
  {
    hide Shape, Time, Arrivals, Events, Fragments, Tallies, TallyL3, TallyL4, Capture.ReadBack, FramesOf, Segments,
         Messages, TlsCount, HttpCount, EventOf, IsTls, IsHttp, TlsArrival, HttpArrival;
    SentArrives(ss);
    if ss == [] {
      NothingArrives(ss);
      NothingSent(ss);
    } else {
      var q, s := ss[..|ss| - 1], ss[|ss| - 1];
      assert ss == q + [s];
      SentTallied(q);
      SentOn(q, s);
      ArrivesOn(q, s);
      Tallied(CountsOf(q), s);
      if s.SentTcp? {
        var r := Capture.Record(Time(s), [], 0);
        TcpArrival(s, r);
        CountedOn(Segments(q), ArrivalOf(r, Shape(s)));
      } else {
        NoTail(Segments(q));
        NotTcp(s);
      }
    }
  }

  /** Any mix of frames decodes to its segments, its DNS messages and its tallies, and has no fragment. */
  lemma SentDecoded(ss: seq<Sent>)
    ensures |Segments(ss)| <= |ss|
    ensures var rs := Capture.ReadBack(FramesOf(ss));
            && Arrivals(LINKTYPE_ETHERNET, rs) == Segments(ss) && Events(LINKTYPE_ETHERNET, rs) == Messages(ss)
            && Fragments(LINKTYPE_ETHERNET, rs) == [] && Tallies(LINKTYPE_ETHERNET, rs) == CountsOf(ss)
  {
    hide Arrivals, Events, Fragments, Tallies, Capture.ReadBack, FramesOf, Segments, Messages, CountsOf;
    SentArrives(ss);
    SentTallied(ss);
  }

  lemma NothingSent(ss: seq<Sent>)
    requires ss == []
    ensures Segments(ss) == [] && Messages(ss) == [] && TlsCount(Segments(ss)) == 0 && HttpCount(Segments(ss)) == 0
  {
  }

  lemma TcpArrival(s: Sent, r: Capture.Record)
    requires s.SentTcp? && r.ts == Time(s)
    ensures var p := ArrivalOf(r, Shape(s));
            && p == Arrival(Time(s), Endpoint(s.src, s.sp), Endpoint(s.dst, s.dp), Shape(s).seg)
            && IsTls(Shape(s)) == TlsArrival(p) && IsHttp(Shape(s)) == HttpArrival(p)
  {
    hide CarriesTls, Http.Parsed;
  }

  lemma NotTcp(s: Sent)
    requires s.SentUdp?
    ensures !IsTls(Shape(s)) && !IsHttp(Shape(s))
  {
  }

  /** A DNS query sent to port 53 becomes an event with the question it was built from. */
  lemma QueryEvent(ts: real, client: Address4, resolver: Address4, sport: Port, labels: seq<Dns.Text>)
    requires Dns.Clear(labels) && |labels| < Dns.MAX_STEPS
    ensures EventOf(ts, UdpPacket(client, resolver, Datagram(sport, 53, Dns.BuildQuery(labels)))) ==
            [DnsEvent(ts, resolver, client,
                      Dns.Message(0x1234, 0, 0, 0, [Dns.Question(Dns.BytesOf(labels), 1)], []))]
  {
    hide Dns.Parsed, Dns.BuildQuery, Dns.Clear, Dns.BytesOf;
    Dns.QueryRoundTrip(labels);
  }

  /**
   * And a response from port 53 one with the first 128 addresses it carries. Who counts as the resolver is told by the
   * destination port: a response that is itself sent to port 53 has them the other way round.
   */
  lemma ResponseEvent(ts: real, client: Address4, resolver: Address4, dport: Port, labels: seq<Dns.Text>,
                      addrs: seq<Address4>)
    requires |addrs| < 0x1_0000 && Dns.Clear(labels) && |labels| < Dns.MAX_STEPS
    ensures var name, kept := Dns.BytesOf(labels), addrs[..Min(|addrs|, Dns.MAX_ANSWERS)];
            EventOf(ts, UdpPacket(resolver, client, Datagram(53, dport, Dns.BuildResponse(labels, addrs)))) ==
            [DnsEvent(ts, if dport == 53 then client else resolver, if dport == 53 then resolver else client,
                      Dns.Message(0x1234, 1, 0, 0, [Dns.Question(name, 1)], Dns.AddressAnswers(name, kept)))]
  {
    hide Dns.Parsed, Dns.BuildResponse, Dns.Clear, Dns.BytesOf, Dns.AddressAnswers;
    Dns.ResponseRoundTrip(labels, addrs);
  }

  /**
   * Decoding a live capture: write any TCP segments and UDP datagrams to a capture file, cut the file at any byte past
   * its global header, and decode what is left. The tracker is then in the state that exactly the wholly captured
   * segments lead to, up to the packet cap; the events are the DNS messages among the datagrams; the tallies are
   * theirs, and so are the resets noted; the cap is reported exactly when more frames are there; and the capture is
   * reported as still being written exactly when it was read to its end and the cut is not on a record boundary.
   */
  lemma LiveCapture(ss: seq<Sent>, k: nat, maxPackets: nat)
    requires Capture.GLOBAL_HDR_LEN <= k <= |Capture.WriteCapture(FramesOf(ss), LINKTYPE_ETHERNET)|
    ensures var fs := FramesOf(ss);
            var file := Capture.WriteCapture(fs, LINKTYPE_ETHERNET)[..k];
            var m := Capture.WholeFrames(fs, k - Capture.GLOBAL_HDR_LEN);
            var kept := ss[..Min(m, maxPackets)];
            && Run(Fed(file, maxPackets)) == Run(Segments(kept))
            && Decoded(file, maxPackets).Ok?
            && var r := Decoded(file, maxPackets).value;
               && |Segments(kept)| <= |kept| && r.counts == CountsOf(kept)
               && r.dns == Messages(kept)
               && FragmentsIn(r.notes) == [] && ResetsIn(r.notes) == Run(Segments(kept)).resets
               && (r.capped <==> m > maxPackets)
               && r.packets == Min(m, maxPackets + 1)
               && (r.truncated <==> m <= maxPackets && |Capture.WriteCapture(fs[..m], LINKTYPE_ETHERNET)| != k)
  {
    hide Run, Arrivals, Tallies, Events, Fragments, Notes, FirstTime, LastTime, Segments, Messages, CountsOf,
         FragmentsIn, ResetsIn, Capture.Records, Capture.Torn, Capture.ParseHeader, Capture.WriteCapture,
         Capture.WholeFrames;
    var fs := FramesOf(ss);
    var m := Capture.WholeFrames(fs, k - Capture.GLOBAL_HDR_LEN);
    assert Capture.Bounded(fs);
    Capture.ReadPrefix(fs, LINKTYPE_ETHERNET, k);
    var n := Min(m, maxPackets);
    assert fs[..n] == FramesOf(ss[..n]);
    SentDecoded(ss[..n]);
    NotesMeaning(LINKTYPE_ETHERNET, Capture.ReadBack(fs[..n]));
    assert Kept(Capture.ReadBack(fs[..m]), maxPackets) == Capture.ReadBack(fs[..n]);
  }
}
