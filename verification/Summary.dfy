/** The anomalies derived from the final connection table, and what each one says about the traffic. */
module Summary {
  import opened Octets
  import opened Frames
  import opened Tracker
  import opened Flows
  import opened Lifecycle
  import opened Conservation
  import Reordering
  import Acks
  import Tls

  datatype Kind = UnansweredSyn | HalfOpen | Retransmission | OutOfOrder | DuplicateAcks | ZeroWindow | TlsStalled

  datatype Anomaly = Anomaly(kind: Kind, client: Endpoint, server: Endpoint, count: nat)

  predicate Holds(c: ConnState, kind: Kind) {
    match kind
    case UnansweredSyn => c.syn && !c.synack && !c.established && !c.rst
    case HalfOpen => c.established && c.finA != c.finB && !c.rst
    case Retransmission => c.retransmits != 0
    case OutOfOrder => c.outOfOrder != 0
    case DuplicateAcks => c.dupAcks != 0
    case ZeroWindow => c.zeroWindow != 0
    case TlsStalled => c.tls.clientHello && !c.tls.serverHello
  }

  function CountOf(c: ConnState, kind: Kind): nat {
    match kind
    case Retransmission => c.retransmits
    case OutOfOrder => c.outOfOrder
    case DuplicateAcks => c.dupAcks
    case ZeroWindow => c.zeroWindow
    case _ => 0
  }

  function Entry(c: ConnState, kind: Kind): seq<Anomaly> {
    if Holds(c, kind) then [Anomaly(kind, c.a, c.b, CountOf(c, kind))] else []
  }

  /** The anomalies of one connection, in the order they are logged. */
  function ConnAnomalies(c: ConnState): seq<Anomaly> {
    Entry(c, UnansweredSyn) + Entry(c, HalfOpen) + Entry(c, Retransmission) + Entry(c, OutOfOrder)
    + Entry(c, DuplicateAcks) + Entry(c, ZeroWindow) + Entry(c, TlsStalled)
  }

  function AnomaliesOver(m: map<Key, ConnState>, ks: seq<Key>): seq<Anomaly>
    requires forall i :: 0 <= i < |ks| ==> ks[i] in m
  {
    if ks == [] then [] else AnomaliesOver(m, ks[..|ks| - 1]) + ConnAnomalies(m[ks[|ks| - 1]])
  }

  // ----- the connection list -----

  /** A connection as it is listed: everything recorded of it, and its inferred state. */
  datatype ConnRow = ConnRow(conn: ConnState, state: TcpState)

  function ListedOver(m: map<Key, ConnState>, ks: seq<Key>): seq<ConnRow>
    requires forall i :: 0 <= i < |ks| ==> ks[i] in m
  {
    if ks == [] then [] else
    var c := m[ks[|ks| - 1]];
    ListedOver(m, ks[..|ks| - 1]) + [ConnRow(c, InferState(c))]
  }

  function Weight(x: ConnRow): nat {
    BytesOf(x.conn)
  }

  /** `x` goes behind everything that is at least as heavy. */
  function Insert(xs: seq<ConnRow>, x: ConnRow): seq<ConnRow> {
    if xs == [] || Weight(xs[|xs| - 1]) >= Weight(x) then xs + [x] else Insert(xs[..|xs| - 1], x) + [xs[|xs| - 1]]
  }

  /** Most bytes first; ties stay in table order. */
  function ByBytes(xs: seq<ConnRow>): seq<ConnRow> {
    if xs == [] then [] else Insert(ByBytes(xs[..|xs| - 1]), xs[|xs| - 1])
  }

  predicate Descending(xs: seq<ConnRow>) {
    forall i, j :: 0 <= i < j < |xs| ==> Weight(xs[i]) >= Weight(xs[j])
  }

  function OfWeight(xs: seq<ConnRow>, w: nat): seq<ConnRow> {
    if xs == [] then [] else
    var rest, x := OfWeight(xs[..|xs| - 1], w), xs[|xs| - 1];
    if Weight(x) == w then rest + [x] else rest
  }

  lemma OfWeightOn(xs: seq<ConnRow>, x: ConnRow, w: nat)
    ensures OfWeight(xs + [x], w) == OfWeight(xs, w) + (if Weight(x) == w then [x] else [])
  {
    assert (xs + [x])[..|xs|] == xs;
    NoTail(OfWeight(xs, w));
  }

  lemma {:induction false} InsertedMembers(xs: seq<ConnRow>, x: ConnRow)
    ensures multiset(Insert(xs, x)) == multiset(xs + [x])
    decreases |xs|
  {
    hide Weight;
    if xs != [] && Weight(xs[|xs| - 1]) < Weight(x) {
      InsertedMembers(xs[..|xs| - 1], x);
      assert xs == xs[..|xs| - 1] + [xs[|xs| - 1]];
    }
  }

  lemma {:induction false} InsertedDescends(xs: seq<ConnRow>, x: ConnRow)
    requires Descending(xs)
    ensures Descending(Insert(xs, x))
    decreases |xs|
  {
    hide Weight;
    if xs != [] && Weight(xs[|xs| - 1]) < Weight(x) {
      var q, z := xs[..|xs| - 1], xs[|xs| - 1];
      InsertedDescends(q, x);
      InsertedMembers(q, x);
      assert xs == q + [z];
      InsertLightest(q, x, z);
    }
  }

  lemma {:induction false} InsertedInOrder(xs: seq<ConnRow>, x: ConnRow, w: nat)
    ensures OfWeight(Insert(xs, x), w) == OfWeight(xs + [x], w)
    decreases |xs|
  {
    hide Weight, OfWeight;
    if xs != [] && Weight(xs[|xs| - 1]) < Weight(x) {
      var q, z := xs[..|xs| - 1], xs[|xs| - 1];
      InsertedInOrder(q, x, w);
      assert xs == q + [z];
      OfWeightOn(xs, x, w);
      OfWeightOn(q, x, w);
      OfWeightOn(q, z, w);
      OfWeightOn(Insert(q, x), z, w);
      NoTail(OfWeight(q, w));
    }
  }

  lemma InsertLightest(q: seq<ConnRow>, x: ConnRow, z: ConnRow)
    requires Descending(q + [z]) && Descending(Insert(q, x)) && Weight(z) < Weight(x)
    requires multiset(Insert(q, x)) == multiset(q + [x])
    ensures Descending(Insert(q, x) + [z])
  {
    var ys := Insert(q, x);
    forall y | y in ys
      ensures Weight(y) >= Weight(z)
    {
      assert y in multiset(q + [x]);
      if y in q {
        var i :| 0 <= i < |q| && q[i] == y;
        assert (q + [z])[i] == y && (q + [z])[|q|] == z;
      }
    }
  }

  /** Sorting is by falling weight, loses and adds nothing, and keeps the order of those of equal weight. */
  lemma {:induction false} Sorted(xs: seq<ConnRow>, w: nat)
    ensures Descending(ByBytes(xs)) && OfWeight(ByBytes(xs), w) == OfWeight(xs, w)
    ensures multiset(ByBytes(xs)) == multiset(xs)
  {
    hide Weight, Insert;
    if xs != [] {
      var q, x := xs[..|xs| - 1], xs[|xs| - 1];
      Sorted(q, w);
      InsertedDescends(ByBytes(q), x);
      InsertedMembers(ByBytes(q), x);
      InsertedInOrder(ByBytes(q), x, w);
      OfWeightOn(ByBytes(q), x, w);
      assert xs == q + [x];
      OfWeightOn(q, x, w);
    }
  }

  lemma {:induction false} Present(xs: seq<ConnRow>, x: ConnRow)
    ensures x in xs <==> x in OfWeight(xs, Weight(x))
  {
    hide Weight;
    if xs != [] {
      Present(xs[..|xs| - 1], x);
      assert xs == xs[..|xs| - 1] + [xs[|xs| - 1]];
    }
  }

  lemma LightestLast(xs: seq<ConnRow>, x: ConnRow)
    requires Descending(xs) && x in xs
    ensures Weight(xs[|xs| - 1]) <= Weight(x)
  {
    var i :| 0 <= i < |xs| && xs[i] == x;
  }

  /** The rows of each weight are the same, in the same order. */
  ghost predicate SameRows(xs: seq<ConnRow>, ys: seq<ConnRow>) {
    forall w :: OfWeight(xs, w) == OfWeight(ys, w)
  }

  lemma SameMember(xs: seq<ConnRow>, ys: seq<ConnRow>, x: ConnRow)
    requires SameRows(xs, ys) && x in xs
    ensures x in ys
  {
    hide Weight, OfWeight;
    Present(xs, x);
    Present(ys, x);
  }

  lemma SameLightest(xs: seq<ConnRow>, ys: seq<ConnRow>)
    requires Descending(xs) && Descending(ys) && SameRows(xs, ys) && xs != [] && ys != []
    ensures xs[|xs| - 1] == ys[|ys| - 1] && SameRows(xs[..|xs| - 1], ys[..|ys| - 1])
  {
    hide Weight, OfWeight, Descending;
    var p, x, q, y := xs[..|xs| - 1], xs[|xs| - 1], ys[..|ys| - 1], ys[|ys| - 1];
    SameMember(xs, ys, x);
    SameMember(ys, xs, y);
    LightestLast(ys, x);
    LightestLast(xs, y);
    assert xs == p + [x] && ys == q + [y];
    SameLast(p, x, q, y, Weight(x));
    forall w
      ensures OfWeight(p, w) == OfWeight(q, w)
    {
      assert OfWeight(xs, w) == OfWeight(ys, w);
      SameLast(p, x, q, y, w);
    }
  }

  /** And there is only one such order: any two lists that are sorted and agree weight by weight are the same. */
  lemma {:induction false} SortedUnique(xs: seq<ConnRow>, ys: seq<ConnRow>)
    requires Descending(xs) && Descending(ys) && SameRows(xs, ys)
    ensures xs == ys
  {
    hide Weight, OfWeight, SameRows;
    if xs != [] {
      SameMember(xs, ys, xs[0]);
    }
    if ys != [] {
      assert SameRows(ys, xs) by { Symmetric(xs, ys); }
      SameMember(ys, xs, ys[0]);
      SameLightest(xs, ys);
      SortedUnique(xs[..|xs| - 1], ys[..|ys| - 1]);
      assert xs == xs[..|xs| - 1] + [xs[|xs| - 1]] && ys == ys[..|ys| - 1] + [ys[|ys| - 1]];
    }
  }

  lemma Symmetric(xs: seq<ConnRow>, ys: seq<ConnRow>)
    requires SameRows(xs, ys)
    ensures SameRows(ys, xs)
  {
  }

  lemma SameLast(p: seq<ConnRow>, x: ConnRow, q: seq<ConnRow>, y: ConnRow, w: nat)
    requires Weight(x) == Weight(y) && OfWeight(p + [x], w) == OfWeight(q + [y], w)
    ensures OfWeight(p, w) == OfWeight(q, w) && (Weight(x) == w ==> x == y)
  {
    hide Weight, OfWeight;
    OfWeightOn(p, x, w);
    OfWeightOn(q, y, w);
    if Weight(x) == w {
      var a, b := OfWeight(p, w) + [x], OfWeight(q, w) + [y];
      assert a[|a| - 1] == x && b[|b| - 1] == y && a[..|a| - 1] == OfWeight(p, w) && b[..|b| - 1] == OfWeight(q, w);
    } else {
      NoTail(OfWeight(p, w));
      NoTail(OfWeight(q, w));
    }
  }

  lemma NothingOver(m: map<Key, ConnState>)
    ensures AnomaliesOver(m, []) == [] && ListedOver(m, []) == []
  {
  }

  lemma OverOn(m: map<Key, ConnState>, ks: seq<Key>, k: Key)
    requires k in m && forall i :: 0 <= i < |ks| ==> ks[i] in m
    ensures AnomaliesOver(m, ks + [k]) == AnomaliesOver(m, ks) + ConnAnomalies(m[k])
    ensures ListedOver(m, ks + [k]) == ListedOver(m, ks) + [ConnRow(m[k], InferState(m[k]))]
  {
    hide ConnAnomalies, InferState;
    assert (ks + [k])[..|ks|] == ks;
  }

  /** The anomaly list in table order, and the connection list with the busiest connections first. */
  method Finalize(t: TcpTracker) returns (out: seq<Anomaly>, listing: seq<ConnRow>)
    requires t.Valid()
    ensures EachOnce(Run(t.fed)) && out == AnomaliesOver(Run(t.fed).conns, Run(t.fed).order)
    ensures listing == ByBytes(ListedOver(Run(t.fed).conns, Run(t.fed).order))
  {
    hide Run, ConnAnomalies, InferState, ByBytes, AnomaliesOver, ListedOver, Conn.View;
    Conserved(t.fed);
    NothingOver(Run(t.fed).conns);
    ghost var table := Run(t.fed).conns;
    out := [];
    var listed := [];
    for i := 0 to |t.order|
      invariant out == AnomaliesOver(table, t.order[..i]) && listed == ListedOver(table, t.order[..i])
    {
      assert t.order[i] in table;
      OverOn(table, t.order[..i], t.order[i]);
      assert t.order[..i + 1] == t.order[..i] + [t.order[i]];
      var c := t.conns[t.order[i]].View();
      out := out + ConnAnomalies(c);
      listed := listed + [ConnRow(c, InferState(c))];
    }
    assert t.order[..|t.order|] == t.order;
    listing := ByBytes(listed);
  }

  predicate Raised(c: ConnState, kind: Kind) {
    exists x :: x in ConnAnomalies(c) && x.kind == kind
  }

  lemma Logged(c: ConnState, x: Anomaly)
    ensures x in ConnAnomalies(c) <==> Holds(c, x.kind) && x == Anomaly(x.kind, c.a, c.b, CountOf(c, x.kind))
  {
    hide Holds, CountOf;
    assert x in ConnAnomalies(c) <==>
        || x in Entry(c, UnansweredSyn) || x in Entry(c, HalfOpen) || x in Entry(c, Retransmission)
        || x in Entry(c, OutOfOrder) || x in Entry(c, DuplicateAcks) || x in Entry(c, ZeroWindow)
        || x in Entry(c, TlsStalled);
    match x.kind
    case UnansweredSyn =>
    case HalfOpen =>
    case Retransmission =>
    case OutOfOrder =>
    case DuplicateAcks =>
    case ZeroWindow =>
    case TlsStalled =>
  }

  lemma RaisedIff(c: ConnState, kind: Kind)
    ensures Raised(c, kind) <==> Holds(c, kind)
  {
    hide Holds, CountOf, ConnAnomalies;
    if Raised(c, kind) {
      var x :| x in ConnAnomalies(c) && x.kind == kind;
      Logged(c, x);
    }
    Logged(c, Anomaly(kind, c.a, c.b, CountOf(c, kind)));
  }

  // ----- the remaining counter -----

  predicate IsZeroWindow(s: Segment) {
    s.window == 0 && s.ack && !s.rst
  }

  function ZeroWindows(ps: seq<Arrival>): nat {
    if ps == [] then 0 else ZeroWindows(ps[..|ps| - 1]) + One(IsZeroWindow(ps[|ps| - 1].seg))
  }

  lemma {:induction false} ZeroWindowsCounted(ps: seq<Arrival>)
    requires ps != []
    ensures ConnRun(ps).zeroWindow == ZeroWindows(ps)
  {
    hide Step;
    var q, p := ps[..|ps| - 1], ps[|ps| - 1];
    if q != [] {
      ZeroWindowsCounted(q);
    }
    StepFlags(if q == [] then Fresh(p.src, p.dst, p.ts) else ConnRun(q), p);
  }

  /** Some data sequence number comes more than once. */
  predicate Repeating(xs: seq<nat>) {
    exists i, j :: 0 <= i < j < |xs| && xs[i] == xs[j]
  }

  lemma {:induction false} RepeatingIff(xs: seq<nat>)
    ensures |Reordering.Elems(xs)| <= |xs|
    ensures Repeating(xs) <==> |Reordering.Elems(xs)| < |xs|
  {
    hide Reordering.Elems;
    if xs == [] {
      NoElems();
    } else {
      var q, x := xs[..|xs| - 1], xs[|xs| - 1];
      RepeatingIff(q);
      Reordering.ElemsOn(q, x);
      assert xs == q + [x];
      LastRepeats(q, x);
      assert x in Reordering.Elems(q) <==> x in q by { InElems(q, x); }
      if x in q {
        assert Reordering.Elems(q) + {x} == Reordering.Elems(q);
      }
    }
  }

  lemma NoElems()
    ensures Reordering.Elems([]) == {}
  {
  }

  lemma InElems(xs: seq<nat>, x: nat)
    ensures x in Reordering.Elems(xs) <==> x in xs
  {
  }

  lemma LastRepeats(q: seq<nat>, x: nat)
    ensures Repeating(q + [x]) <==> Repeating(q) || x in q
  {
    var xs := q + [x];
    assert forall i :: 0 <= i < |q| ==> xs[i] == q[i];
    if x in q {
      var i :| 0 <= i < |q| && q[i] == x;
      assert xs[i] == xs[|q|];
    }
    if Repeating(q) {
      var i, j :| 0 <= i < j < |q| && q[i] == q[j];
      assert xs[i] == xs[j];
    }
  }

  predicate Greeted(rs: seq<Tls.TlsRecord>) {
    exists i :: 0 <= i < |rs| && rs[i].hs.ClientHello?
  }

  predicate Answered(rs: seq<Tls.TlsRecord>) {
    exists i :: 0 <= i < |rs| && HelloAt(rs, i)
  }

  lemma RetransmitsMeaning(ps: seq<Arrival>, k: Key)
    requires k in Run(ps).conns
    ensures var qs := Of(ps, k);
            Run(ps).conns[k].retransmits > 0 <==>
            Repeating(Reordering.DataSeqs(Bucket(qs, true))) || Repeating(Reordering.DataSeqs(Bucket(qs, false)))
  {
    hide Run, ConnRun, Of, Bucket, SideRun, Repeating, Reordering.DataSeqs, Reordering.Late, Reordering.Caches,
         Reordering.Elems, Retransmits;
    var qs := Of(ps, k);
    Projection(ps, k);
    OfIsOne(ps, k);
    Directions(qs, k);
    Reordering.SideMeaning(Bucket(qs, true));
    Reordering.SideMeaning(Bucket(qs, false));
    RepeatingIff(Reordering.DataSeqs(Bucket(qs, true)));
    RepeatingIff(Reordering.DataSeqs(Bucket(qs, false)));
  }

  /** What each anomaly of a connection reports, in terms of that connection's own segments alone. */
  lemma AnomalyReport(ps: seq<Arrival>, k: Key, up: seq<seq<Acks.Ack>>, down: seq<seq<Acks.Ack>>)
    requires k in Run(ps).conns
    requires Acks.IsRuns(up, Acks.AcksOf(Bucket(Of(ps, k), true)))
    requires Acks.IsRuns(down, Acks.AcksOf(Bucket(Of(ps, k), false)))
    ensures var c, qs := Run(ps).conns[k], Of(ps, k);
            var sent, back := Reordering.DataSeqs(Bucket(qs, true)), Reordering.DataSeqs(Bucket(qs, false));
            && (Raised(c, UnansweredSyn) <==> SawSyn(qs) && !SawSynAck(qs) && !Handshaken(qs) && !SawRst(qs))
            && (Raised(c, HalfOpen) <==> Handshaken(qs) && SawFin(qs, true) != SawFin(qs, false) && !SawRst(qs))
            && (!Raised(c, Retransmission) && !Raised(c, OutOfOrder)
                <==> Reordering.Increasing(sent) && Reordering.Increasing(back))
            && (Raised(c, Retransmission) <==> Repeating(sent) || Repeating(back))
            && (Raised(c, OutOfOrder) <==> Reordering.Late(sent) != {} || Reordering.Late(back) != {})
            && (Raised(c, DuplicateAcks) <==> Acks.Repeats(up) + Acks.Repeats(down) > 0)
            && (Raised(c, ZeroWindow) <==> ZeroWindows(qs) > 0)
            && (Raised(c, TlsStalled) <==> Greeted(RecordsOf(qs, k)) && !Answered(RecordsOf(qs, k)))
  {
    hide Run, ConnRun, Of, Bucket, Raised, SawSyn, SawSynAck, SawRst, SawFin, Handshaken, ZeroWindows, Reordering.Late,
         Reordering.Increasing, Reordering.DataSeqs, Reordering.Caches, Acks.IsRuns, Acks.Repeats, Acks.AcksOf,
         RecordsOf, Secured, Repeating;
    var qs := Of(ps, k);
    Projection(ps, k);
    OfIsOne(ps, k);
    FlagMeaning(qs, k);
    ZeroWindowsCounted(qs);
    TlsReport(ps, k);
    Reordering.ReorderReport(ps, k);
    RetransmitsMeaning(ps, k);
    Acks.DupAckReport(ps, k, up, down);
    forall kind {
      RaisedIff(Run(ps).conns[k], kind);
    }
  }
}
