/** Connection state over whole runs: handshake, teardown, resets and the TLS handshake. */
module Lifecycle {
  import opened Octets
  import opened Tracker
  import opened Flows
  import Http
  import Tls

  // ----- what happened on the wire -----

  predicate SawSyn(ps: seq<Arrival>) {
    exists i :: 0 <= i < |ps| && PureSyn(ps[i].seg)
  }

  predicate SawSynAck(ps: seq<Arrival>) {
    exists i :: 0 <= i < |ps| && SynAck(ps[i].seg)
  }

  predicate SawRst(ps: seq<Arrival>) {
    exists i :: 0 <= i < |ps| && ps[i].seg.rst
  }

  /** Segment `i` carries an ACK when a pure SYN and a SYN-ACK have both been seen, itself included. */
  predicate Completes(ps: seq<Arrival>, i: nat)
    requires i < |ps|
  {
    ps[i].seg.ack && SawSyn(ps[..i + 1]) && SawSynAck(ps[..i + 1])
  }

  predicate Handshaken(ps: seq<Arrival>) {
    exists i :: 0 <= i < |ps| && Completes(ps, i)
  }

  /**
   * Segment `i` is a FIN sent by whoever is the opener at that point (or, with `toServer` false, by the other side).
   */
  predicate Closes(ps: seq<Arrival>, i: nat, toServer: bool)
    requires i < |ps|
  {
    ps[i].seg.fin && (ps[i].src == Opener(ps[..i + 1])) == toServer
  }

  predicate SawFin(ps: seq<Arrival>, toServer: bool) {
    exists i :: 0 <= i < |ps| && Closes(ps, i, toServer)
  }

  /** Segment `i` is the first RST, and comes before any handshake is complete. */
  predicate ResetsEarly(ps: seq<Arrival>, i: nat)
    requires i < |ps|
  {
    ps[i].seg.rst && !SawRst(ps[..i]) && !Handshaken(ps[..i + 1])
  }

  predicate ResetEarly(ps: seq<Arrival>) {
    exists i :: 0 <= i < |ps| && ResetsEarly(ps, i)
  }

  // ----- one more segment -----

  lemma SawOn(ps: seq<Arrival>, p: Arrival)
    ensures SawSyn(ps + [p]) <==> SawSyn(ps) || PureSyn(p.seg)
    ensures SawSynAck(ps + [p]) <==> SawSynAck(ps) || SynAck(p.seg)
    ensures SawRst(ps + [p]) <==> SawRst(ps) || p.seg.rst
  {
    var qs := ps + [p];
    assert qs[|ps|] == p;
    assert forall i :: 0 <= i < |ps| ==> qs[i] == ps[i];
  }

  lemma HandshakenOn(ps: seq<Arrival>, p: Arrival)
    ensures Handshaken(ps + [p]) <==> Handshaken(ps) || (p.seg.ack && SawSyn(ps + [p]) && SawSynAck(ps + [p]))
  {
    hide SawSyn, SawSynAck;
    var qs, n := ps + [p], |ps|;
    assert qs[..n + 1] == qs;
    assert Completes(qs, n) <==> p.seg.ack && SawSyn(qs) && SawSynAck(qs);
    forall i | 0 <= i < n
      ensures Completes(qs, i) == Completes(ps, i)
    {
      assert qs[..i + 1] == ps[..i + 1];
    }
  }

  lemma SawFinOn(ps: seq<Arrival>, p: Arrival, toServer: bool)
    ensures SawFin(ps + [p], toServer) <==>
            SawFin(ps, toServer) || (p.seg.fin && (p.src == Opener(ps + [p])) == toServer)
  {
    hide Opener;
    var qs, n := ps + [p], |ps|;
    assert qs[..n + 1] == qs;
    assert Closes(qs, n, toServer) <==> p.seg.fin && (p.src == Opener(qs)) == toServer;
    forall i | 0 <= i < n
      ensures Closes(qs, i, toServer) == Closes(ps, i, toServer)
    {
      assert qs[..i + 1] == ps[..i + 1];
    }
  }

  lemma ResetEarlyOn(ps: seq<Arrival>, p: Arrival)
    ensures ResetEarly(ps + [p]) <==> ResetEarly(ps) || (p.seg.rst && !SawRst(ps) && !Handshaken(ps + [p]))
  {
    hide SawRst, Handshaken;
    var qs, n := ps + [p], |ps|;
    assert qs[..n + 1] == qs && qs[..n] == ps;
    assert ResetsEarly(qs, n) <==> p.seg.rst && !SawRst(ps) && !Handshaken(qs);
    forall i | 0 <= i < n
      ensures ResetsEarly(qs, i) == ResetsEarly(ps, i)
    {
      assert qs[..i + 1] == ps[..i + 1] && qs[..i] == ps[..i];
    }
  }

  // ----- the flags mean what happened -----

  /** Every flag of a connection is exactly what its segments show. */
  predicate FlagsAgree(c: ConnState, ps: seq<Arrival>) {
    && c.syn == SawSyn(ps) && c.synack == SawSynAck(ps) && c.established == Handshaken(ps) && c.rst == SawRst(ps)
    && c.finA == SawFin(ps, true) && c.finB == SawFin(ps, false)
  }

  lemma FlagsAgreeOn(c: ConnState, ps: seq<Arrival>, p: Arrival)
    requires FlagsAgree(c, ps) && FromA(c, p) == (p.src == Opener(ps + [p]))
    ensures FlagsAgree(Step(c, p), ps + [p])
    ensures PrematureRst(c, p) <==> p.seg.rst && !SawRst(ps) && !Handshaken(ps + [p])
  {
    hide Step, SawSyn, SawSynAck, SawRst, Handshaken, SawFin, Opener, FromA;
    StepFlags(c, p);
    SawOn(ps, p);
    HandshakenOn(ps, p);
    SawFinOn(ps, p, true);
    SawFinOn(ps, p, false);
  }

  /** The direction a segment is counted in is that of the opener after it, re-tagging included. */
  lemma DirectionIsOpener(ps: seq<Arrival>, p: Arrival, k: Key)
    requires OneConnection(ps + [p], k)
    ensures var c := if ps == [] then Fresh(p.src, p.dst, p.ts) else ConnRun(ps);
            FromA(c, p) == (p.src == Opener(ps + [p]))
  {
    hide ConnRun, KeyOf;
    assert (ps + [p])[..|ps|] == ps;
    if ps != [] {
      assert OneConnection(ps, k) by {
        assert forall i :: 0 <= i < |ps| ==> (ps + [p])[i] == ps[i];
      }
      OpenerTracked(ps, k);
    }
  }

  lemma FreshAgrees(p: Arrival)
    ensures FlagsAgree(Fresh(p.src, p.dst, p.ts), [])
  {
  }

  lemma {:induction false} FlagMeaning(ps: seq<Arrival>, k: Key)
    requires ps != [] && OneConnection(ps, k)
    ensures FlagsAgree(ConnRun(ps), ps)
  {
    hide Step, FlagsAgree, FromA, Opener;
    var q, p := ps[..|ps| - 1], ps[|ps| - 1];
    assert ps == q + [p];
    if q == [] {
      FreshAgrees(p);
    } else {
      FlagMeaning(q, k);
    }
    DirectionIsOpener(q, p, k);
    FlagsAgreeOn(if q == [] then Fresh(p.src, p.dst, p.ts) else ConnRun(q), q, p);
  }

  // ----- premature resets -----

  function ResetsOf(rs: seq<(Endpoint, Endpoint)>, k: Key): nat {
    if rs == [] then 0 else ResetsOf(rs[..|rs| - 1], k) + One(ConnKey(rs[|rs| - 1].0, rs[|rs| - 1].1) == k)
  }

  lemma FlagEndsKeepKey(c: ConnState, p: Arrival)
    ensures ConnKey(FlagStep(c, p).a, FlagStep(c, p).b) == ConnKey(c.a, c.b)
  {
    KeyIsPair(c.a, c.b, c.b, c.a);
  }

  lemma NeverBefore(ps: seq<Arrival>)
    requires ResetEarly(ps)
    ensures SawRst(ps)
  {
    var i :| 0 <= i < |ps| && ResetsEarly(ps, i);
    assert ps[i].seg.rst;
  }

  /** Each connection has at most one premature-RST anomaly, exactly when its first RST precedes its handshake. */
  lemma {:induction false} OneResetEach(ps: seq<Arrival>, k: Key)
    ensures ResetsOf(Run(ps).resets, k) == One(ResetEarly(Of(ps, k)))
  {
    hide Step, FlagStep, PrematureRst, ResetEarly, Handshaken, SawRst, FromA, Opener, ConnKey, ConnRun;
    if ps == [] {
      NoReset();
    } else {
      var q, p := ps[..|ps| - 1], ps[|ps| - 1];
      OneResetEach(q, k);
      ResetStep(q, p);
      if KeyOf(p) == k {
        OfIsOne(ps, k);
        assert Of(ps, k) == Of(q, k) + [p];
        OwnReset(q, p, k);
      }
      var was, now := Run(q).resets, Run(ps).resets;
      if now != was {
        assert now[..|now| - 1] == was;
      }
    }
  }

  lemma NoReset()
    ensures !ResetEarly([])
  {
  }

  /** A segment logs at most one reset, under its own connection. */
  lemma ResetStep(q: seq<Arrival>, p: Arrival)
    ensures var t := Run(q); var f := FlagStep(Known(t, p), p);
            ConnKey(f.a, f.b) == KeyOf(p)
  {
    hide Step, FlagStep, ConnRun, ConnKey;
    var k, t := KeyOf(p), Run(q);
    Projection(q, k);
    FlagEndsKeepKey(Known(t, p), p);
    if k in t.conns {
      OfIsOne(q, k);
      OpenerTracked(Of(q, k), k);
    }
  }

  lemma OwnReset(q: seq<Arrival>, p: Arrival, k: Key)
    requires KeyOf(p) == k && OneConnection(Of(q, k) + [p], k)
    ensures One(ResetEarly(Of(q, k) + [p])) == One(ResetEarly(Of(q, k))) + One(PrematureRst(Known(Run(q), p), p))
  {
    hide Step, FlagStep, PrematureRst, Handshaken, SawRst, ResetEarly, FromA, Opener, ConnRun, KeyOf;
    var own := Of(q, k);
    var c := Known(Run(q), p);
    Projection(q, k);
    DirectionIsOpener(own, p, k);
    if own == [] {
      FreshAgrees(p);
      NoReset();
    } else {
      OfIsOne(q, k);
      FlagMeaning(own, k);
    }
    FlagsAgreeOn(c, own, p);
    ResetEarlyOn(own, p);
    if ResetEarly(own) {
      NeverBefore(own);
    }
  }

  // ----- the inferred state -----

  datatype TcpState = Unknown | SynSent | SynRcvd | Established | Closing | Closed | Reset

  function InferState(c: ConnState): TcpState {
    if c.rst then Reset
    else if c.finA && c.finB then Closed
    else if c.finA || c.finB then Closing
    else if c.established then Established
    else if c.synack then SynRcvd
    else if c.syn then SynSent
    else Unknown
  }

  function Rank(s: TcpState): nat {
    match s
    case Unknown => 0
    case SynSent => 1
    case SynRcvd => 2
    case Established => 3
    case Closing => 4
    case Closed => 5
    case Reset => 6
  }

  lemma RankStep(c: ConnState, p: Arrival)
    ensures Rank(InferState(c)) <= Rank(InferState(Step(c, p)))
  {
    hide Step, FromA;
    StepFlags(c, p);
  }

  /** Over any stream, the inferred state of a connection only ever moves forward. */
  lemma {:induction false} StateNeverRegresses(ps: seq<Arrival>, m: nat, k: Key)
    requires m <= |ps| && k in Run(ps[..m]).conns
    ensures k in Run(ps).conns
    ensures Rank(InferState(Run(ps[..m]).conns[k])) <= Rank(InferState(Run(ps).conns[k]))
    decreases |ps|
  {
    hide Step, InferState, Rank, PrematureRst, FlagStep, KeyOf;
    if m == |ps| {
      assert ps[..m] == ps;
    } else {
      var q, p := ps[..|ps| - 1], ps[|ps| - 1];
      assert q[..m] == ps[..m];
      StateNeverRegresses(q, m, k);
      RankStep(Known(Run(q), p), p);
    }
  }

  /** The state reported for a connection, straight from its segments. */
  lemma StateMeaning(ps: seq<Arrival>, k: Key)
    requires k in Run(ps).conns
    ensures var qs := Of(ps, k);
            InferState(Run(ps).conns[k]) ==
            (if SawRst(qs) then Reset
             else if SawFin(qs, true) && SawFin(qs, false) then Closed
             else if SawFin(qs, true) || SawFin(qs, false) then Closing
             else if Handshaken(qs) then Established
             else if SawSynAck(qs) then SynRcvd
             else if SawSyn(qs) then SynSent
             else Unknown)
  {
    hide Run, ConnRun, SawRst, SawFin, Handshaken, SawSynAck, SawSyn, Of;
    Projection(ps, k);
    OfIsOne(ps, k);
    FlagMeaning(Of(ps, k), k);
  }

  // ----- the TLS handshake -----

  /** The TLS record entries of a connection's segments, both directions interleaved as they arrive. */
  function RecordsOf(ps: seq<Arrival>, k: Key): seq<Tls.TlsRecord> {
    if ps == [] then [] else
    var rest, s := RecordsOf(ps[..|ps| - 1], k), ps[|ps| - 1].seg;
    if s.payload != [] && LooksTls(k.lo, k.hi, s.payload) then rest + Tls.Records(s.payload) else rest
  }

  lemma {:induction false} NotesAppend(t: TlsState, rs: seq<Tls.TlsRecord>, ss: seq<Tls.TlsRecord>)
    ensures TlsNotes(TlsNotes(t, rs), ss) == TlsNotes(t, rs + ss)
    decreases |ss|
  {
    hide TlsNote;
    if ss == [] {
      NoTail(rs);
    } else {
      NotesAppend(t, rs, ss[..|ss| - 1]);
      assert (rs + ss)[..|rs + ss| - 1] == rs + ss[..|ss| - 1];
    }
  }

  lemma StepTls(c: ConnState, p: Arrival, k: Key)
    requires ConnKey(c.a, c.b) == k
    ensures var s := p.seg;
            Step(c, p).tls ==
            if s.payload != [] && LooksTls(k.lo, k.hi, s.payload) then TlsNotes(c.tls, Tls.Records(s.payload))
            else c.tls
  {
    hide TlsNotes, Tls.Records, Count, NoteAck, HttpStep, IsRetransmit, IsOutOfOrder, IsDupAck;
    L7Only(AckStep(CountStep(FlagStep(c, p), p.seg, FromA(c, p)), p.seg, FromA(c, p)), p.seg);
  }

  lemma {:induction false} TlsOverRecords(ps: seq<Arrival>, k: Key)
    requires ps != [] && OneConnection(ps, k)
    ensures ConnRun(ps).tls == TlsNotes(NO_TLS, RecordsOf(ps, k))
  {
    hide Step, TlsNote, Tls.Records, LooksTls, ConnKey;
    var q, p := ps[..|ps| - 1], ps[|ps| - 1];
    assert KeyOf(p) == k;
    var c := if q == [] then Fresh(p.src, p.dst, p.ts) else ConnRun(q);
    if q != [] {
      TlsOverRecords(q, k);
      OpenerTracked(q, k);
    }
    StepTls(c, p, k);
    NotesAppend(NO_TLS, RecordsOf(q, k), Tls.Records(p.seg.payload));
  }

  predicate HelloAt(rs: seq<Tls.TlsRecord>, i: nat) {
    i < |rs| && rs[i].hs.ServerHello?
  }

  predicate DataAt(rs: seq<Tls.TlsRecord>, j: nat) {
    j < |rs| && rs[j].ctype == Tls.APPLICATION_DATA
  }

  /** Application data in some record, at or after a ServerHello. */
  predicate Secured(rs: seq<Tls.TlsRecord>) {
    exists i, j :: 0 <= i <= j < |rs| && HelloAt(rs, i) && DataAt(rs, j)
  }

  lemma {:induction false} NotesMeaning(rs: seq<Tls.TlsRecord>)
    ensures TlsNotes(NO_TLS, rs).serverHello <==> exists i :: 0 <= i < |rs| && HelloAt(rs, i)
    ensures TlsNotes(NO_TLS, rs).clientHello <==> exists i :: 0 <= i < |rs| && rs[i].hs.ClientHello?
    ensures TlsNotes(NO_TLS, rs).complete <==> Secured(rs)
  {
    if rs != [] {
      var q, n := rs[..|rs| - 1], |rs| - 1;
      NotesMeaning(q);
      assert forall i :: 0 <= i < n ==> q[i] == rs[i];
      assert forall i :: 0 <= i && HelloAt(q, i) ==> HelloAt(rs, i);
      assert forall i :: 0 <= i && DataAt(q, i) ==> DataAt(rs, i);
      assert HelloAt(rs, n) <==> rs[n].hs.ServerHello?;
      assert DataAt(rs, n) <==> rs[n].ctype == Tls.APPLICATION_DATA;
      assert forall i :: 0 <= i < n && HelloAt(rs, i) ==> HelloAt(q, i);
      assert forall i :: 0 <= i < n && DataAt(rs, i) ==> DataAt(q, i);
      assert Secured(rs) <==> Secured(q) || (DataAt(rs, n) && exists i :: 0 <= i < |rs| && HelloAt(rs, i));
    }
  }

  // ----- what the hellos said -----

  /** Record `i` is the last one that `says` something, for one of the four things a hello can say. */
  predicate LastSaying(rs: seq<Tls.TlsRecord>, i: nat, says: Tls.TlsRecord -> bool) {
    i < |rs| && says(rs[i]) && forall j :: i < j < |rs| ==> !says(rs[j])
  }

  predicate NeverSaid(rs: seq<Tls.TlsRecord>, says: Tls.TlsRecord -> bool) {
    forall j :: 0 <= j < |rs| ==> !says(rs[j])
  }

  predicate NamesServer(r: Tls.TlsRecord) {
    r.hs.ClientHello? && r.hs.info.sni.Some? && r.hs.info.sni.value != []
  }

  predicate OffersAlpn(r: Tls.TlsRecord) {
    r.hs.ClientHello? && r.hs.info.alpn.Some?
  }

  predicate ListsVersions(r: Tls.TlsRecord) {
    r.hs.ClientHello? && r.hs.info.versions.Some?
  }

  predicate IsServerHello(r: Tls.TlsRecord) {
    r.hs.ServerHello?
  }

  function Negotiated(i: Tls.HelloInfo): Option<nat> {
    if i.versions.Some? && i.versions.value != [] then Some(i.versions.value[0]) else i.legacy
  }

  /**
   * The last non-empty server name, the last protocol list and the last version list a client sent stand, and the last
   * ServerHello decides the version. Without any version list, the first ClientHello's legacy version stands.
   */
  lemma {:induction false} LastSpeakerStands(rs: seq<Tls.TlsRecord>, i: nat)
    requires i < |rs|
    ensures var t := TlsNotes(NO_TLS, rs);
            && (LastSaying(rs, i, NamesServer) ==> t.sni == rs[i].hs.info.sni)
            && (LastSaying(rs, i, OffersAlpn) ==> t.alpn == rs[i].hs.info.alpn)
            && (LastSaying(rs, i, ListsVersions) ==> t.offer == Listed(rs[i].hs.info.versions.value))
            && (LastSaying(rs, i, IsServerHello) ==> t.serverVersion == Negotiated(rs[i].hs.info))
    decreases |rs|
  {
    var q, n := rs[..|rs| - 1], |rs| - 1;
    if i < n {
      LastSpeakerStands(q, i);
      assert forall j :: 0 <= j < n ==> q[j] == rs[j];
    }
  }

  lemma {:induction false} SilenceStands(rs: seq<Tls.TlsRecord>)
    ensures var t := TlsNotes(NO_TLS, rs);
            && (NeverSaid(rs, NamesServer) ==> t.sni.None?)
            && (NeverSaid(rs, OffersAlpn) ==> t.alpn.None?)
            && (NeverSaid(rs, ListsVersions) ==> !t.offer.Listed?)
            && (t.offer.NoOffer? ==> !t.clientHello)
            && (NeverSaid(rs, IsServerHello) ==> t.serverVersion.None?)
  {
    if rs != [] {
      var q, n := rs[..|rs| - 1], |rs| - 1;
      SilenceStands(q);
      assert forall j :: 0 <= j < n ==> q[j] == rs[j];
    }
  }

  /** The fallback offer is that of the first ClientHello, as long as no version list comes. */
  lemma {:induction false} FirstLegacyStands(rs: seq<Tls.TlsRecord>, i: nat)
    requires i < |rs| && rs[i].hs.ClientHello? && NeverSaid(rs, ListsVersions)
    requires forall j :: 0 <= j < i ==> !rs[j].hs.ClientHello?
    ensures TlsNotes(NO_TLS, rs).offer == Legacy(rs[i].hs.info.legacy)
    decreases |rs|
  {
    var q, n := rs[..|rs| - 1], |rs| - 1;
    assert forall j :: 0 <= j < n ==> q[j] == rs[j];
    if i < n {
      FirstLegacyStands(q, i);
    } else {
      NoClientNoOffer(q);
    }
    assert !ListsVersions(rs[n]);
  }

  lemma {:induction false} NoClientNoOffer(rs: seq<Tls.TlsRecord>)
    requires forall j :: 0 <= j < |rs| ==> !rs[j].hs.ClientHello?
    ensures TlsNotes(NO_TLS, rs).offer.NoOffer?
  {
    if rs != [] {
      NoClientNoOffer(rs[..|rs| - 1]);
    }
  }

  /** A connection's TLS handshake is reported as completed exactly when application data follows a ServerHello. */
  lemma TlsReport(ps: seq<Arrival>, k: Key)
    requires k in Run(ps).conns
    ensures var c, rs := Run(ps).conns[k], RecordsOf(Of(ps, k), k);
            && (c.tls.complete <==> Secured(rs))
            && (c.tls.serverHello <==> exists i :: 0 <= i < |rs| && HelloAt(rs, i))
            && (c.tls.clientHello <==> exists i :: 0 <= i < |rs| && rs[i].hs.ClientHello?)
  {
    hide Run, ConnRun, Secured, HelloAt, Of, RecordsOf, TlsNotes;
    Projection(ps, k);
    OfIsOne(ps, k);
    TlsOverRecords(Of(ps, k), k);
    NotesMeaning(RecordsOf(Of(ps, k), k));
  }

  // ----- cleartext HTTP -----

  /** The cleartext messages of a connection's segments, in order of arrival. */
  function MessagesOf(ps: seq<Arrival>, k: Key): seq<Http.Message> {
    if ps == [] then [] else
    var rest, b := MessagesOf(ps[..|ps| - 1], k), ps[|ps| - 1].seg.payload;
    if !CarriesTls(k.lo, k.hi, b) && Http.Parsed(b).Some? then rest + [Http.Parsed(b).value] else rest
  }

  /** Those of one kind. */
  function OfKind(ms: seq<Http.Message>, request: bool): seq<Http.Message> {
    if ms == [] then [] else
    var rest, m := OfKind(ms[..|ms| - 1], request), ms[|ms| - 1];
    if m.Request? == request then rest + [m] else rest
  }

  lemma OfKindOn(ms: seq<Http.Message>, m: Http.Message, request: bool)
    ensures OfKind(ms + [m], request) ==
            if m.Request? == request then OfKind(ms, request) + [m] else OfKind(ms, request)
  {
    assert (ms + [m])[..|ms|] == ms;
  }

  lemma StepHttp(c: ConnState, p: Arrival, k: Key)
    requires ConnKey(c.a, c.b) == k
    ensures var b := p.seg.payload;
            Step(c, p).http ==
            if !CarriesTls(k.lo, k.hi, b) && Http.Parsed(b).Some? then HttpNote(c.http, Http.Parsed(b).value)
            else c.http
  {
    hide TlsStep, Tls.Records, Http.Parsed, Count, NoteAck, IsRetransmit, IsOutOfOrder, IsDupAck, HttpNote;
    L7Only(AckStep(CountStep(FlagStep(c, p), p.seg, FromA(c, p)), p.seg, FromA(c, p)), p.seg);
  }

  lemma {:induction false} HttpOverMessages(ps: seq<Arrival>, k: Key)
    requires ps != [] && OneConnection(ps, k)
    ensures var ms := MessagesOf(ps, k); ConnRun(ps).http == HttpLog(OfKind(ms, true), OfKind(ms, false))
  {
    hide Step, Http.Parsed, CarriesTls, ConnKey, OfKind;
    var q, p := ps[..|ps| - 1], ps[|ps| - 1];
    assert KeyOf(p) == k;
    var c := if q == [] then Fresh(p.src, p.dst, p.ts) else ConnRun(q);
    if q == [] {
      NoneOfKind();
    } else {
      HttpOverMessages(q, k);
      OpenerTracked(q, k);
    }
    StepHttp(c, p, k);
    var parsed := Http.Parsed(p.seg.payload);
    if parsed.Some? {
      OfKindOn(MessagesOf(q, k), parsed.value, true);
      OfKindOn(MessagesOf(q, k), parsed.value, false);
    }
  }

  lemma NoneOfKind()
    ensures OfKind([], true) == [] && OfKind([], false) == []
  {
  }

  /** The requests and responses listed for a connection are those its own segments carry where no TLS is found. */
  lemma HttpReport(ps: seq<Arrival>, k: Key)
    requires k in Run(ps).conns
    ensures var ms := MessagesOf(Of(ps, k), k); Run(ps).conns[k].http == HttpLog(OfKind(ms, true), OfKind(ms, false))
  {
    hide Run, ConnRun, Of, MessagesOf, OfKind;
    Projection(ps, k);
    OfIsOne(ps, k);
    HttpOverMessages(Of(ps, k), k);
  }
}
