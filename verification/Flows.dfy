/** What the tracker's per-connection state says about the segments that led to it, over every stream. */
module Flows {
  import opened Frames
  import opened Tracker

  // ----- one connection's share of the stream -----

  function Of(ps: seq<Arrival>, k: Key): seq<Arrival> {
    if ps == [] then [] else
    var rest, p := Of(ps[..|ps| - 1], k), ps[|ps| - 1];
    if KeyOf(p) == k then rest + [p] else rest
  }

  predicate OneConnection(ps: seq<Arrival>, k: Key) {
    forall i :: 0 <= i < |ps| ==> KeyOf(ps[i]) == k
  }

  /** One connection tracked on its own. */
  function ConnRun(ps: seq<Arrival>): ConnState
    requires ps != []
  {
    var p := ps[|ps| - 1];
    Step(if |ps| == 1 then Fresh(p.src, p.dst, p.ts) else ConnRun(ps[..|ps| - 1]), p)
  }

  lemma {:induction false} OfIsOne(ps: seq<Arrival>, k: Key)
    ensures OneConnection(Of(ps, k), k)
  {
    hide KeyOf;
    if ps != [] {
      OfIsOne(ps[..|ps| - 1], k);
    }
  }

  lemma ConnRunOn(ps: seq<Arrival>, p: Arrival)
    ensures ConnRun(ps + [p]) == Step(if ps == [] then Fresh(p.src, p.dst, p.ts) else ConnRun(ps), p)
  {
    assert (ps + [p])[..|ps|] == ps;
  }

  /**
   * Connections do not interfere: whatever the interleaving, each connection's state is the one its own segments
   * lead to, and exactly the connections that have a segment are in the table.
   */
  lemma {:induction false} Projection(ps: seq<Arrival>, k: Key)
    ensures k in Run(ps).conns <==> Of(ps, k) != []
    ensures Of(ps, k) != [] ==> Run(ps).conns[k] == ConnRun(Of(ps, k))
  {
    hide Step, KeyOf, PrematureRst, FlagStep;
    if ps != [] {
      var q, p := ps[..|ps| - 1], ps[|ps| - 1];
      Projection(q, k);
      ConnRunOn(Of(q, k), p);
    }
  }

  // ----- who opened the connection -----

  /** The sender of the latest pure SYN, or of the first segment if there is none. */
  function Opener(ps: seq<Arrival>): Endpoint
    requires ps != []
  {
    var p := ps[|ps| - 1];
    if PureSyn(p.seg) || |ps| == 1 then p.src else Opener(ps[..|ps| - 1])
  }

  lemma StepFlags(c: ConnState, p: Arrival)
    ensures var d, f := Step(c, p), FlagStep(c, p);
            && d.a == f.a && d.b == f.b && d.syn == f.syn && d.synack == f.synack && d.established == f.established
            && d.finA == f.finA && d.finB == f.finB && d.rst == f.rst && d.zeroWindow == f.zeroWindow
            && d.firstTs == c.firstTs && d.lastTs == p.ts
  {
    hide TlsStep, HttpStep, FromA, Count, NoteAck, IsRetransmit, IsOutOfOrder, IsDupAck;
    L7Only(AckStep(CountStep(FlagStep(c, p), p.seg, FromA(c, p)), p.seg, FromA(c, p)), p.seg);
  }

  /**
   * The stored endpoints are always the connection's own pair, and `a` is the active opener, across every re-tagging.
   */
  lemma {:induction false} OpenerTracked(ps: seq<Arrival>, k: Key)
    requires ps != [] && OneConnection(ps, k)
    ensures ConnRun(ps).a == Opener(ps) && ConnKey(ConnRun(ps).a, ConnRun(ps).b) == k
  {
    hide Step, ConnKey;
    var q, p := ps[..|ps| - 1], ps[|ps| - 1];
    assert KeyOf(p) == k;
    var c := if q == [] then Fresh(p.src, p.dst, p.ts) else ConnRun(q);
    if q != [] {
      OpenerTracked(q, k);
    }
    StepFlags(c, p);
    KeyIsPair(c.a, c.b, p.src, p.dst);
    KeyIsPair(c.b, c.a, p.src, p.dst);
  }

  // ----- the two directions -----

  /** The segments one side sent, as seen at arrival: `toServer` ones come from whoever is the opener by then. */
  function Bucket(ps: seq<Arrival>, toServer: bool): seq<Segment> {
    if ps == [] then [] else
    var rest, p := Bucket(ps[..|ps| - 1], toServer), ps[|ps| - 1];
    if (p.src == Opener(ps)) == toServer then rest + [p.seg] else rest
  }

  function SideRun(ss: seq<Segment>): Side {
    if ss == [] then EMPTY_SIDE else SideStep(SideRun(ss[..|ss| - 1]), ss[|ss| - 1])
  }

  function Retransmits(ss: seq<Segment>): nat {
    if ss == [] then 0
    else Retransmits(ss[..|ss| - 1]) + One(IsRetransmit(SideRun(ss[..|ss| - 1]), ss[|ss| - 1]))
  }

  function OutOfOrders(ss: seq<Segment>): nat {
    if ss == [] then 0
    else OutOfOrders(ss[..|ss| - 1]) + One(IsOutOfOrder(SideRun(ss[..|ss| - 1]), ss[|ss| - 1]))
  }

  function DupAcks(ss: seq<Segment>): nat {
    if ss == [] then 0
    else DupAcks(ss[..|ss| - 1]) + One(IsDupAck(SideRun(ss[..|ss| - 1]), ss[|ss| - 1]))
  }

  lemma StepSides(c: ConnState, p: Arrival)
    ensures var d, s, up := Step(c, p), p.seg, FromA(c, p);
            var side := if up then c.ab else c.ba;
            && d.ab == (if up then SideStep(c.ab, s) else c.ab) && d.ba == (if up then c.ba else SideStep(c.ba, s))
            && d.retransmits == c.retransmits + One(IsRetransmit(side, s))
            && d.outOfOrder == c.outOfOrder + One(IsOutOfOrder(side, s))
            && d.dupAcks == c.dupAcks + One(IsDupAck(side, s))
  {
    hide TlsStep, HttpStep, FromA;
    L7Only(AckStep(CountStep(FlagStep(c, p), p.seg, FromA(c, p)), p.seg, FromA(c, p)), p.seg);
  }

  lemma SideOn(ss: seq<Segment>, s: Segment)
    ensures SideRun(ss + [s]) == SideStep(SideRun(ss), s)
    ensures Retransmits(ss + [s]) == Retransmits(ss) + One(IsRetransmit(SideRun(ss), s))
    ensures OutOfOrders(ss + [s]) == OutOfOrders(ss) + One(IsOutOfOrder(SideRun(ss), s))
    ensures DupAcks(ss + [s]) == DupAcks(ss) + One(IsDupAck(SideRun(ss), s))
  {
    assert (ss + [s])[..|ss|] == ss;
  }

  /** Does `c` hold what the two directions, `up` towards the server and `down` from it, lead to on their own? */
  predicate Split(c: ConnState, up: seq<Segment>, down: seq<Segment>) {
    && c.ab == SideRun(up) && c.ba == SideRun(down)
    && c.retransmits == Retransmits(up) + Retransmits(down)
    && c.outOfOrder == OutOfOrders(up) + OutOfOrders(down)
    && c.dupAcks == DupAcks(up) + DupAcks(down)
  }

  lemma SplitStep(c: ConnState, p: Arrival, up: seq<Segment>, down: seq<Segment>)
    requires Split(c, up, down)
    ensures if FromA(c, p) then Split(Step(c, p), up + [p.seg], down) else Split(Step(c, p), up, down + [p.seg])
  {
    hide Step, SideStep, IsRetransmit, IsOutOfOrder, IsDupAck, FromA, SideRun;
    StepSides(c, p);
    SideOn(up, p.seg);
    SideOn(down, p.seg);
  }

  /** The counters of a connection are those of its two directions, and nothing mixes them. */
  lemma {:induction false} Directions(ps: seq<Arrival>, k: Key)
    requires ps != [] && OneConnection(ps, k)
    ensures Split(ConnRun(ps), Bucket(ps, true), Bucket(ps, false))
  {
    hide Step, Split;
    var q, p := ps[..|ps| - 1], ps[|ps| - 1];
    var c := if q == [] then Fresh(p.src, p.dst, p.ts) else ConnRun(q);
    if q == [] {
      FreshSplit(p);
    } else {
      assert OneConnection(q, k);
      Directions(q, k);
      OpenerTracked(q, k);
    }
    SplitStep(c, p, Bucket(q, true), Bucket(q, false));
  }

  function PayloadOf(ss: seq<Segment>): nat {
    if ss == [] then 0 else PayloadOf(ss[..|ss| - 1]) + |ss[|ss| - 1].payload|
  }

  lemma {:induction false} SideTotals(ss: seq<Segment>)
    ensures SideRun(ss).segs == |ss| && SideRun(ss).bytes == PayloadOf(ss)
  {
    if ss != [] {
      SideTotals(ss[..|ss| - 1]);
    }
  }

  /** The byte and segment counts of each direction, and the connection's first and last time, for any stream. */
  lemma VolumeReport(ps: seq<Arrival>, k: Key)
    requires k in Run(ps).conns
    ensures var c, qs := Run(ps).conns[k], Of(ps, k);
            var up, down := Bucket(qs, true), Bucket(qs, false);
            && c.ab.segs == |up| && c.ba.segs == |down| && |up| + |down| == |qs|
            && c.ab.bytes == PayloadOf(up) && c.ba.bytes == PayloadOf(down)
            && qs != [] && c.firstTs == qs[0].ts && c.lastTs == qs[|qs| - 1].ts
  {
    hide Run, ConnRun, SideRun, Of, Bucket, PayloadOf;
    var qs := Of(ps, k);
    Projection(ps, k);
    OfIsOne(ps, k);
    Directions(qs, k);
    SideTotals(Bucket(qs, true));
    SideTotals(Bucket(qs, false));
    EachInOne(qs);
    Times(qs);
  }

  lemma {:induction false} EachInOne(ps: seq<Arrival>)
    ensures |Bucket(ps, true)| + |Bucket(ps, false)| == |ps|
  {
    if ps != [] {
      EachInOne(ps[..|ps| - 1]);
    }
  }

  lemma {:induction false} Times(ps: seq<Arrival>)
    requires ps != []
    ensures ConnRun(ps).firstTs == ps[0].ts && ConnRun(ps).lastTs == ps[|ps| - 1].ts
  {
    hide Step;
    var q, p := ps[..|ps| - 1], ps[|ps| - 1];
    if q != [] {
      Times(q);
    }
    StepFlags(if q == [] then Fresh(p.src, p.dst, p.ts) else ConnRun(q), p);
  }

  lemma FreshSplit(p: Arrival)
    ensures Split(Fresh(p.src, p.dst, p.ts), [], [])
  {
  }
}
