/** The decoder's whole answer: the report, the connection list, and one list of everything out of the ordinary. */
module Wire {
  import opened Octets
  import opened Tracker
  import opened Conservation
  import opened Lifecycle
  import opened Summary
  import Capture
  import Decoder

  datatype Remark =
    | InProgress
    | CappedAt(maxPackets: nat)
    | OnPacket(note: Decoder.Note)
    | OnConnection(anomaly: Anomaly)

  datatype Answer = Answer(report: Decoder.Report, connections: seq<ConnRow>, remarks: seq<Remark>)

  function OnPackets(ns: seq<Decoder.Note>): (r: seq<Remark>)
    ensures |r| == |ns| && forall i :: 0 <= i < |ns| ==> r[i] == OnPacket(ns[i])
  {
    seq(|ns|, i requires 0 <= i < |ns| => OnPacket(ns[i]))
  }

  function OnConnections(xs: seq<Anomaly>): (r: seq<Remark>)
    ensures |r| == |xs| && forall i :: 0 <= i < |xs| ==> r[i] == OnConnection(xs[i])
  {
    seq(|xs|, i requires 0 <= i < |xs| => OnConnection(xs[i]))
  }

  /** An unfinished capture is remarked on first, then single packets and the cap as they came, then connections. */
  function Remarks(r: Decoder.Report, maxPackets: nat, xs: seq<Anomaly>): seq<Remark> {
    (if r.truncated then [InProgress] else []) + OnPackets(r.notes)
    + (if r.capped then [CappedAt(maxPackets)] else []) + OnConnections(xs)
  }

  /** `w` is the answer for a report and the tracker state that goes with it. */
  ghost predicate Answers(w: Answer, r: Decoder.Report, t: TrackState, maxPackets: nat) {
    && EachOnce(t) && w.report == r
    && w.connections == ByBytes(ListedOver(t.conns, t.order))
    && w.remarks == Remarks(r, maxPackets, AnomaliesOver(t.conns, t.order))
  }

  method DecodeFile(file: Bytes, maxPackets: nat) returns (w: Result<Answer, Capture.PcapError>)
    ensures w.Err? <==> Decoder.Decoded(file, maxPackets).Err?
    ensures w.Err? ==> w.error == Decoder.Decoded(file, maxPackets).error
    ensures w.Ok? ==>
              Answers(w.value, Decoder.Decoded(file, maxPackets).value, Run(Decoder.Fed(file, maxPackets)), maxPackets)
  {
    hide Run, TcpTracker.Valid, Decoder.Decoded, Decoder.Fed, Remarks, ByBytes, ListedOver, AnomaliesOver, EachOnce;
    var r, tracker := Decoder.Decode(file, maxPackets);
    if r.Err? {
      return Err(r.error);
    }
    var xs, listing := Finalize(tracker);
    w := Ok(Answer(r.value, listing, Remarks(r.value, maxPackets, xs)));
  }

  // ----- what the lists hold -----

  ghost predicate SomeRow(t: TrackState, row: ConnRow) {
    exists k :: k in t.conns && row == ConnRow(t.conns[k], InferState(t.conns[k]))
  }

  ghost predicate SomeAnomaly(t: TrackState, x: Anomaly) {
    exists k :: k in t.conns && x in ConnAnomalies(t.conns[k])
  }

  lemma {:induction false} ListedIff(m: map<Key, ConnState>, ks: seq<Key>, row: ConnRow)
    requires forall i :: 0 <= i < |ks| ==> ks[i] in m
    ensures row in ListedOver(m, ks) <==> exists k :: k in ks && row == ConnRow(m[k], InferState(m[k]))
  {
    hide InferState;
    if ks != [] {
      ListedIff(m, ks[..|ks| - 1], row);
      assert ks == ks[..|ks| - 1] + [ks[|ks| - 1]];
    }
  }

  lemma {:induction false} AnomalyIff(m: map<Key, ConnState>, ks: seq<Key>, x: Anomaly)
    requires forall i :: 0 <= i < |ks| ==> ks[i] in m
    ensures x in AnomaliesOver(m, ks) <==> exists k :: k in ks && x in ConnAnomalies(m[k])
  {
    hide ConnAnomalies;
    if ks != [] {
      AnomalyIff(m, ks[..|ks| - 1], x);
      assert ks == ks[..|ks| - 1] + [ks[|ks| - 1]];
    }
  }

  /**
   * A remark is made if and only if there is cause for it: the capture is unfinished, the cap was met, the packet was
   * noted, or some connection shows the anomaly.
   */
  lemma RemarkIff(r: Decoder.Report, maxPackets: nat, t: TrackState, x: Remark)
    requires EachOnce(t)
    ensures x in Remarks(r, maxPackets, AnomaliesOver(t.conns, t.order)) <==>
            match x
            case InProgress => r.truncated
            case CappedAt(n) => r.capped && n == maxPackets
            case OnPacket(note) => note in r.notes
            case OnConnection(a) => SomeAnomaly(t, a)
  {
    hide AnomaliesOver, ConnAnomalies;
    var xs := AnomaliesOver(t.conns, t.order);
    PartsOf(r, maxPackets, xs, x);
    match x
    case OnPacket(note) =>
      assert x in OnPackets(r.notes) <==> note in r.notes by { PacketIn(r.notes, note); }
    case OnConnection(a) =>
      assert x in OnConnections(xs) <==> a in xs by { ConnectionIn(xs, a); }
      AnomalyIff(t.conns, t.order, a);
    case _ =>
  }

  lemma PartsOf(r: Decoder.Report, maxPackets: nat, xs: seq<Anomaly>, x: Remark)
    ensures x in Remarks(r, maxPackets, xs) <==>
            || (r.truncated && x == InProgress) || x in OnPackets(r.notes)
            || (r.capped && x == CappedAt(maxPackets)) || x in OnConnections(xs)
  {
    hide OnPackets, OnConnections;
  }

  lemma PacketIn(ns: seq<Decoder.Note>, n: Decoder.Note)
    ensures OnPacket(n) in OnPackets(ns) <==> n in ns
  {
    if n in ns {
      var i :| 0 <= i < |ns| && ns[i] == n;
      assert OnPackets(ns)[i] == OnPacket(n);
    }
  }

  lemma ConnectionIn(xs: seq<Anomaly>, x: Anomaly)
    ensures OnConnection(x) in OnConnections(xs) <==> x in xs
  {
    if x in xs {
      var i :| 0 <= i < |xs| && xs[i] == x;
      assert OnConnections(xs)[i] == OnConnection(x);
    }
  }

  /** Exactly the connections of the table are listed, as many rows as there are connections. */
  lemma RowIff(t: TrackState, row: ConnRow)
    requires EachOnce(t)
    ensures var rows := ByBytes(ListedOver(t.conns, t.order));
            (row in rows <==> SomeRow(t, row)) && |rows| == |t.order|
  {
    hide ByBytes, ListedOver, InferState;
    var listed := ListedOver(t.conns, t.order);
    Sorted(listed, 0);
    ListedIff(t.conns, t.order, row);
    ListedSize(t.conns, t.order);
    assert row in ByBytes(listed) <==> row in multiset(ByBytes(listed));
    assert row in listed <==> row in multiset(listed);
    assert |multiset(ByBytes(listed))| == |multiset(listed)|;
  }

  lemma {:induction false} ListedSize(m: map<Key, ConnState>, ks: seq<Key>)
    requires forall i :: 0 <= i < |ks| ==> ks[i] in m
    ensures |ListedOver(m, ks)| == |ks|
  {
    hide InferState;
    if ks != [] {
      ListedSize(m, ks[..|ks| - 1]);
    }
  }
}
