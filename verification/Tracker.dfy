/** Per-connection TCP tracking: the objects that are updated segment by segment, and the state they stand for. */
module Tracker {
  import opened Octets
  import opened Frames
  import Http
  import Tls

  // ----- connection keys -----

  datatype Endpoint = Endpoint(addr: Bytes, port: nat)

  datatype Key = Key(lo: Endpoint, hi: Endpoint)

  predicate Before(x: Bytes, y: Bytes) {
    y != [] && (x == [] || x[0] < y[0] || (x[0] == y[0] && Before(x[1..], y[1..])))
  }

  predicate AtMost(x: Endpoint, y: Endpoint) {
    if x.addr == y.addr then x.port <= y.port else Before(x.addr, y.addr)
  }

  function ConnKey(x: Endpoint, y: Endpoint): Key {
    if AtMost(x, y) then Key(x, y) else Key(y, x)
  }

  predicate SamePair(x: Endpoint, y: Endpoint, u: Endpoint, v: Endpoint) {
    (x == u && y == v) || (x == v && y == u)
  }

  lemma {:induction false} BeforeTotal(x: Bytes, y: Bytes)
    ensures x != y ==> (Before(x, y) <==> !Before(y, x))
  {
    if x != [] && y != [] && x[0] == y[0] {
      BeforeTotal(x[1..], y[1..]);
      assert x == [x[0]] + x[1..] && y == [y[0]] + y[1..];
    }
  }

  /** Two endpoint pairs share a key exactly when they are the same pair, in either order. */
  lemma KeyIsPair(x: Endpoint, y: Endpoint, u: Endpoint, v: Endpoint)
    ensures ConnKey(x, y) == ConnKey(u, v) <==> SamePair(x, y, u, v)
  {
    BeforeTotal(x.addr, y.addr);
    BeforeTotal(u.addr, v.addr);
  }

  // ----- state of one connection -----

  /** One direction's counters: `ab` is what the active opener sends, `ba` what comes back. */
  datatype Side = Side(segs: nat, bytes: nat, seen: set<nat>, maxSeq: Option<nat>, lastAck: Option<nat>, lastAckN: nat)

  datatype Offer = NoOffer | Listed(versions: seq<nat>) | Legacy(version: Option<nat>)

  datatype TlsState = TlsState(clientHello: bool, serverHello: bool, complete: bool, sni: Option<Bytes>,
                               alpn: Option<seq<Bytes>>, offer: Offer, serverVersion: Option<nat>)

  /** The requests and the responses seen in cleartext. */
  datatype HttpLog = HttpLog(reqs: seq<Http.Message>, resps: seq<Http.Message>)

  datatype ConnState = ConnState(a: Endpoint, b: Endpoint, firstTs: real, lastTs: real,
                                 syn: bool, synack: bool, established: bool, finA: bool, finB: bool, rst: bool,
                                 ab: Side, ba: Side,
                                 retransmits: nat, dupAcks: nat, zeroWindow: nat, outOfOrder: nat, tls: TlsState,
                                 http: HttpLog)

  datatype Arrival = Arrival(ts: real, src: Endpoint, dst: Endpoint, seg: Segment)

  const EMPTY_SIDE := Side(0, 0, {}, None, None, 0)

  const NO_TLS := TlsState(false, false, false, None, None, NoOffer, None)

  const NO_HTTP := HttpLog([], [])

  function Fresh(a: Endpoint, b: Endpoint, ts: real): ConnState {
    ConnState(a, b, ts, ts, false, false, false, false, false, false, EMPTY_SIDE, EMPTY_SIDE, 0, 0, 0, 0, NO_TLS,
              NO_HTTP)
  }

  predicate PureSyn(s: Segment) {
    s.syn && !s.ack
  }

  predicate SynAck(s: Segment) {
    s.syn && s.ack
  }

  /** A pure SYN always counts as coming from the opener: its sender is re-tagged if need be. */
  predicate FromA(c: ConnState, p: Arrival) {
    p.src == c.a || PureSyn(p.seg)
  }

  function FlagStep(c: ConnState, p: Arrival): ConnState {
    var s, swap := p.seg, PureSyn(p.seg) && p.src != c.a;
    var syn, synack := c.syn || PureSyn(s), c.synack || SynAck(s);
    ConnState(if swap then c.b else c.a, if swap then c.a else c.b, c.firstTs, p.ts,
              syn, synack, c.established || (s.ack && syn && synack),
              c.finA || (s.fin && FromA(c, p)), c.finB || (s.fin && !FromA(c, p)), c.rst || s.rst,
              c.ab, c.ba, c.retransmits, c.dupAcks,
              c.zeroWindow + One(s.window == 0 && s.ack && !s.rst), c.outOfOrder, c.tls, c.http)
  }

  /** Is this the first RST, on a connection not yet established? */
  predicate PrematureRst(c: ConnState, p: Arrival) {
    p.seg.rst && !c.rst && !FlagStep(c, p).established
  }

  // ----- one direction -----

  predicate IsRetransmit(side: Side, s: Segment) {
    s.payload != [] && s.seqNo in side.seen
  }

  predicate IsOutOfOrder(side: Side, s: Segment) {
    s.payload != [] && s.seqNo !in side.seen && side.maxSeq.Some? && s.seqNo < side.maxSeq.value
  }

  function Count(side: Side, s: Segment): Side {
    var counted := side.(segs := side.segs + 1, bytes := side.bytes + |s.payload|);
    if s.payload == [] || s.seqNo in side.seen then counted else
    counted.(seen := side.seen + {s.seqNo},
             maxSeq := if side.maxSeq.None? || s.seqNo > side.maxSeq.value then Some(s.seqNo) else side.maxSeq)
  }

  predicate IsEmptyAck(s: Segment) {
    s.payload == [] && !s.syn && !s.fin
  }

  predicate RepeatsAck(side: Side, s: Segment) {
    s.ack && IsEmptyAck(s) && side.lastAck == Some(s.ackNo)
  }

  predicate IsDupAck(side: Side, s: Segment) {
    RepeatsAck(side, s) && side.lastAckN + 1 >= 2
  }

  function NoteAck(side: Side, s: Segment): Side {
    if !s.ack then side
    else if RepeatsAck(side, s) then side.(lastAckN := side.lastAckN + 1)
    else side.(lastAck := Some(s.ackNo), lastAckN := if IsEmptyAck(s) then 1 else 0)
  }

  function SideStep(side: Side, s: Segment): Side {
    NoteAck(Count(side, s), s)
  }

  function One(b: bool): nat {
    if b then 1 else 0
  }

  function CountStep(c: ConnState, s: Segment, fromA: bool): ConnState {
    var side := if fromA then c.ab else c.ba;
    c.(ab := if fromA then Count(c.ab, s) else c.ab, ba := if fromA then c.ba else Count(c.ba, s),
       retransmits := c.retransmits + One(IsRetransmit(side, s)),
       outOfOrder := c.outOfOrder + One(IsOutOfOrder(side, s)))
  }

  function AckStep(c: ConnState, s: Segment, fromA: bool): ConnState {
    var side := if fromA then c.ab else c.ba;
    c.(ab := if fromA then NoteAck(c.ab, s) else c.ab, ba := if fromA then c.ba else NoteAck(c.ba, s),
       dupAcks := c.dupAcks + One(IsDupAck(side, s)))
  }

  // ----- TLS over the connection -----

  function TlsNote(t: TlsState, r: Tls.TlsRecord): TlsState {
    var t1 :=
      match r.hs
      case ClientHello(i) =>
        t.(clientHello := true,
           sni := if i.sni.Some? && i.sni.value != [] then i.sni else t.sni,
           alpn := if i.alpn.Some? then i.alpn else t.alpn,
           offer := if i.versions.Some? then Listed(i.versions.value)
                    else if t.offer.NoOffer? then Legacy(i.legacy) else t.offer)
      case ServerHello(i) =>
        t.(serverHello := true,
           serverVersion := if i.versions.Some? && i.versions.value != [] then Some(i.versions.value[0]) else i.legacy)
      case _ => t;
    if r.ctype == Tls.APPLICATION_DATA && t1.serverHello then t1.(complete := true) else t1
  }

  function TlsNotes(t: TlsState, rs: seq<Tls.TlsRecord>): TlsState {
    if rs == [] then t else TlsNote(TlsNotes(t, rs[..|rs| - 1]), rs[|rs| - 1])
  }

  predicate LooksTls(x: Endpoint, y: Endpoint, payload: Bytes) {
    x.port == 443 || y.port == 443 || (payload != [] && 20 <= payload[0] <= 23)
  }

  function TlsStep(c: ConnState, s: Segment): ConnState {
    if s.payload != [] && LooksTls(c.a, c.b, s.payload) then c.(tls := TlsNotes(c.tls, Tls.Records(s.payload))) else c
  }

  // ----- HTTP over the connection -----

  /** A payload in which TLS records are found; it is not looked at any further. */
  predicate CarriesTls(x: Endpoint, y: Endpoint, payload: Bytes) {
    payload != [] && LooksTls(x, y, payload) && Tls.Records(payload) != []
  }

  function HttpNote(h: HttpLog, m: Http.Message): HttpLog {
    if m.Request? then h.(reqs := h.reqs + [m]) else h.(resps := h.resps + [m])
  }

  function HttpStep(c: ConnState, s: Segment): ConnState {
    if !CarriesTls(c.a, c.b, s.payload) && Http.Parsed(s.payload).Some?
    then c.(http := HttpNote(c.http, Http.Parsed(s.payload).value))
    else c
  }

  /** Everything one segment does to its connection. */
  function Step(c: ConnState, p: Arrival): ConnState {
    var acked := AckStep(CountStep(FlagStep(c, p), p.seg, FromA(c, p)), p.seg, FromA(c, p));
    HttpStep(TlsStep(acked, p.seg), p.seg)
  }

  // ----- state of the tracker -----

  /** `order` is the insertion order of the connection table; `resets` the premature-RST anomalies, oldest first. */
  datatype TrackState = TrackState(conns: map<Key, ConnState>, order: seq<Key>, resets: seq<(Endpoint, Endpoint)>)

  const NOTHING := TrackState(map[], [], [])

  function KeyOf(p: Arrival): Key {
    ConnKey(p.src, p.dst)
  }

  function Known(t: TrackState, p: Arrival): ConnState {
    if KeyOf(p) in t.conns then t.conns[KeyOf(p)] else Fresh(p.src, p.dst, p.ts)
  }

  /** The premature reset a segment is logged as, if it is one. */
  function ResetBy(t: TrackState, p: Arrival): Option<(Endpoint, Endpoint)> {
    var c := Known(t, p);
    if PrematureRst(c, p) then Some((FlagStep(c, p).a, FlagStep(c, p).b)) else None
  }

  function Feed(t: TrackState, p: Arrival): TrackState {
    var k, reset := KeyOf(p), ResetBy(t, p);
    TrackState(t.conns[k := Step(Known(t, p), p)], if k in t.conns then t.order else t.order + [k],
               if reset.Some? then t.resets + [reset.value] else t.resets)
  }

  /** The tracker's state after any stream of segments. */
  function Run(ps: seq<Arrival>): TrackState {
    if ps == [] then NOTHING else Feed(Run(ps[..|ps| - 1]), ps[|ps| - 1])
  }

  // ----- the objects -----

  class Conn {
    var a: Endpoint
    var b: Endpoint
    var firstTs: real
    var lastTs: real
    var syn: bool
    var synack: bool
    var established: bool
    var finA: bool
    var finB: bool
    var rst: bool
    var ab: Side
    var ba: Side
    var retransmits: nat
    var dupAcks: nat
    var zeroWindow: nat
    var outOfOrder: nat
    var tls: TlsState
    var http: HttpLog

    function View(): ConnState
      reads this
    {
      ConnState(a, b, firstTs, lastTs, syn, synack, established, finA, finB, rst, ab, ba,
                retransmits, dupAcks, zeroWindow, outOfOrder, tls, http)
    }

    constructor (a: Endpoint, b: Endpoint, ts: real)
      ensures View() == Fresh(a, b, ts)
    {
      this.a, this.b, firstTs, lastTs := a, b, ts, ts;
      syn, synack, established, finA, finB, rst := false, false, false, false, false, false;
      ab, ba := EMPTY_SIDE, EMPTY_SIDE;
      retransmits, dupAcks, zeroWindow, outOfOrder := 0, 0, 0, 0;
      tls, http := NO_TLS, NO_HTTP;
    }

    /** Opening: the SYN flags, with the opener re-tagged if the SYN came from the other side. */
    method Opening(p: Arrival) returns (fromA: bool)
      modifies `lastTs, `syn, `synack, `established, `a, `b
      ensures lastTs == p.ts && fromA == (p.src == old(a) || PureSyn(p.seg))
      ensures if PureSyn(p.seg) && p.src != old(a) then a == old(b) && b == old(a) else a == old(a) && b == old(b)
      ensures syn == (old(syn) || PureSyn(p.seg)) && synack == (old(synack) || SynAck(p.seg))
      ensures established == (old(established) || (p.seg.ack && syn && synack))
    {
      var s := p.seg;
      lastTs := p.ts;
      fromA := p.src == a;
      if s.syn && !s.ack {
        syn := true;
        if !fromA {
          a, b := b, a;
          fromA := true;
        }
      }
      if s.syn && s.ack {
        synack := true;
      }
      if s.ack && syn && synack {
        established := true;
      }
    }

    /** Closing: FIN and RST, reporting an RST that comes before the connection is established; and zero windows. */
    method Closing(s: Segment, fromA: bool) returns (premature: bool)
      modifies `finA, `finB, `rst, `zeroWindow
      ensures finA == (old(finA) || (s.fin && fromA)) && finB == (old(finB) || (s.fin && !fromA))
      ensures rst == (old(rst) || s.rst) && premature == (s.rst && !old(rst) && !established)
      ensures zeroWindow == old(zeroWindow) + One(s.window == 0 && s.ack && !s.rst)
    {
      if s.fin {
        if fromA {
          finA := true;
        } else {
          finB := true;
        }
      }
      premature := false;
      if s.rst {
        if !rst {
          premature := !established;
        }
        rst := true;
      }
      if s.window == 0 && s.ack && !s.rst {
        zeroWindow := zeroWindow + 1;
      }
    }

    method Handshake(p: Arrival) returns (fromA: bool, premature: bool)
      modifies this
      ensures View() == FlagStep(old(View()), p)
      ensures fromA == FromA(old(View()), p) && premature == PrematureRst(old(View()), p)
    {
      fromA := Opening(p);
      premature := Closing(p.seg, fromA);
    }

    /** Payload accounting, retransmits and reordering, in the direction the segment travels. */
    method Account(s: Segment, fromA: bool)
      modifies `ab, `ba, `retransmits, `outOfOrder
      ensures View() == CountStep(old(View()), s, fromA)
    {
      var side := if fromA then ab else ba;
      side := side.(segs := side.segs + 1, bytes := side.bytes + |s.payload|);
      if |s.payload| > 0 {
        if s.seqNo in side.seen {
          retransmits := retransmits + 1;
        } else {
          side := side.(seen := side.seen + {s.seqNo});
          if side.maxSeq.Some? && s.seqNo < side.maxSeq.value {
            outOfOrder := outOfOrder + 1;
          }
          if side.maxSeq.None? || s.seqNo > side.maxSeq.value {
            side := side.(maxSeq := Some(s.seqNo));
          }
        }
      }
      if fromA {
        ab := side;
      } else {
        ba := side;
      }
    }

    method DupAck(s: Segment, fromA: bool)
      modifies `ab, `ba, `dupAcks
      ensures View() == AckStep(old(View()), s, fromA)
    {
      if !s.ack {
        return;
      }
      var side := if fromA then ab else ba;
      var isEmpty := |s.payload| == 0 && !s.syn && !s.fin;
      if isEmpty && side.lastAck == Some(s.ackNo) {
        side := side.(lastAckN := side.lastAckN + 1);
        if side.lastAckN >= 2 {
          dupAcks := dupAcks + 1;
        }
      } else {
        side := side.(lastAck := Some(s.ackNo), lastAckN := if isEmpty then 1 else 0);
      }
      if fromA {
        ab := side;
      } else {
        ba := side;
      }
    }

    /** Everything one segment does to its connection; reports a premature RST and the endpoints it is logged under. */
    method Receive(p: Arrival) returns (reset: Option<(Endpoint, Endpoint)>)
      modifies this
      ensures View() == Step(old(View()), p)
      ensures reset == if PrematureRst(old(View()), p) then Some((View().a, View().b)) else None
    {
      hide FlagStep, CountStep, AckStep, TlsStep, HttpStep, PrematureRst, FromA;
      var fromA, premature := Handshake(p);
      reset := if premature then Some((a, b)) else None;
      ghost var flagged := View();
      Account(p.seg, fromA);
      KeepsEnds(flagged, p.seg, fromA);
      DupAck(p.seg, fromA);
      L7(p.seg);
    }

    /** Payload inspection: TLS first, and cleartext HTTP only where no TLS record is found. */
    method L7(s: Segment)
      modifies `tls, `http
      ensures View() == HttpStep(TlsStep(old(View()), s), s)
    {
      hide Tls.Records, TlsNote, Http.Parsed;
      if s.payload == [] {
        assert Http.Parsed([]).None? by { Http.NothingParsed(); }
        return;
      }
      if LooksTls(a, b, s.payload) {
        var recs := Tls.ParseTlsRecords(s.payload);
        if recs != [] {
          for i := 0 to |recs|
            invariant tls == TlsNotes(old(tls), recs[..i]) && http == old(http)
          {
            assert recs[..i + 1][..i] == recs[..i];
            tls := TlsNote(tls, recs[i]);
          }
          assert recs[..|recs|] == recs;
          return;
        }
      }
      var msg := Http.Parse(s.payload);
      if msg.Some? {
        if msg.value.Request? {
          http := http.(reqs := http.reqs + [msg.value]);
        } else {
          http := http.(resps := http.resps + [msg.value]);
        }
      }
    }
  }

  class TcpTracker {
    var conns: map<Key, Conn>
    var order: seq<Key>
    var resets: seq<(Endpoint, Endpoint)>
    /** The stream fed so far. */
    ghost var fed: seq<Arrival>

    /** Distinct connections are distinct objects, and together they are the state the stream leads to. */
    ghost predicate Valid()
      reads this, conns.Values
    {
      && Injective(conns)
      && conns.Keys == Run(fed).conns.Keys && order == Run(fed).order && resets == Run(fed).resets
      && (forall k :: k in conns ==> conns[k].View() == Run(fed).conns[k])
    }

    constructor ()
      ensures Valid() && fed == [] && conns == map[]
    {
      conns, order, resets, fed := map[], [], [], [];
    }

    /** The connection of a segment, entered into the table if it is new. */
    method Lookup(p: Arrival) returns (c: Conn)
      requires Valid()
      modifies this
      ensures fed == old(fed) && resets == old(resets)
      ensures conns == old(conns)[KeyOf(p) := c]
      ensures order == if KeyOf(p) in old(conns) then old(order) else old(order) + [KeyOf(p)]
      ensures if KeyOf(p) in old(conns) then c == old(conns)[KeyOf(p)] else fresh(c)
      ensures c.View() == Known(Run(fed), p)
    {
      hide Run, KeyOf;
      var k := KeyOf(p);
      if k in conns {
        c := conns[k];
      } else {
        c := new Conn(p.src, p.dst, p.ts);
        conns := conns[k := c];
        order := order + [k];
      }
    }

    /** One segment: after it, the table is that of the longer stream, and only its own connection was touched. */
    method Tcp(p: Arrival) returns (reset: Option<(Endpoint, Endpoint)>)
      requires Valid()
      modifies this, conns.Values
      ensures Valid() && fed == old(fed) + [p] && reset == ResetBy(Run(old(fed)), p)
      ensures forall k :: k in conns ==> (k in old(conns) && conns[k] == old(conns)[k]) || fresh(conns[k])
    {
      hide Run, Feed, Step, FlagStep, PrematureRst, ResetBy, KeyOf, Conn.View, Known, Injective;
      ghost var was := Run(fed);
      var c := Lookup(p);
      InjectiveOn(old(conns), KeyOf(p), c);
      reset := c.Receive(p);
      if reset.Some? {
        resets := resets + [reset.value];
      }
      fed := fed + [p];
      FedOn(old(fed), p);
      assert conns.Keys == Run(fed).conns.Keys;
      assert order == Run(fed).order && resets == Run(fed).resets;
      forall k | k in conns
        ensures conns[k].View() == Run(fed).conns[k]
      {
        if k != KeyOf(p) {
          assert old(conns[k].View()) == was.conns[k];
        }
      }
    }
  }

  predicate Injective(m: map<Key, Conn>) {
    forall j, k :: j in m && k in m && m[j] == m[k] ==> j == k
  }

  lemma InjectiveOn(m: map<Key, Conn>, k: Key, c: Conn)
    requires Injective(m) && if k in m then m[k] == c else c !in m.Values
    ensures Injective(m[k := c]) && forall j :: j in m && j != k ==> m[j] != c
  {
  }

  /** Payload inspection changes what it is about and nothing else. */
  lemma L7Only(c: ConnState, s: Segment)
    ensures var t := TlsStep(c, s);
            var d := HttpStep(t, s);
            t == c.(tls := t.tls) && d == t.(http := d.http) && d == c.(tls := t.tls, http := d.http)
  {
    hide CarriesTls, LooksTls, TlsNotes, Tls.Records, Http.Parsed, HttpNote;
  }

  lemma KeepsEnds(c: ConnState, s: Segment, fromA: bool)
    ensures var d := HttpStep(TlsStep(AckStep(CountStep(c, s, fromA), s, fromA), s), s); d.a == c.a && d.b == c.b
  {
    hide TlsStep, HttpStep, Count, NoteAck, IsRetransmit, IsOutOfOrder, IsDupAck;
    L7Only(AckStep(CountStep(c, s, fromA), s, fromA), s);
  }

  lemma StepEnds(c: ConnState, p: Arrival)
    ensures Step(c, p).a == FlagStep(c, p).a && Step(c, p).b == FlagStep(c, p).b
  {
    hide FlagStep, CountStep, AckStep, TlsStep, HttpStep;
    KeepsEnds(FlagStep(c, p), p.seg, FromA(c, p));
  }

  lemma RunOn(ps: seq<Arrival>, p: Arrival)
    ensures Run(ps + [p]) == Feed(Run(ps), p)
  {
    assert (ps + [p])[..|ps|] == ps;
  }

  lemma FedOn(ps: seq<Arrival>, p: Arrival)
    ensures var t, u, k := Run(ps), Run(ps + [p]), KeyOf(p);
            var c := Known(t, p);
            && u.conns == t.conns[k := Step(c, p)] && u.conns.Keys == t.conns.Keys + {k}
            && u.order == (if k in t.conns then t.order else t.order + [k])
            && u.resets == (if PrematureRst(c, p) then t.resets + [(Step(c, p).a, Step(c, p).b)] else t.resets)
            && ResetBy(t, p) == (if PrematureRst(c, p) then Some((Step(c, p).a, Step(c, p).b)) else None)
  {
    hide Run, Step, FlagStep, PrematureRst, KeyOf, Known;
    RunOn(ps, p);
    StepEnds(Known(Run(ps), p), p);
  }
}
