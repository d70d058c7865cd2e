/** The retransmission and reordering counters against what they are meant to count. */
module Reordering {
  import opened Octets
  import opened Frames
  import opened Tracker
  import opened Flows

  /** The sequence numbers of the payload-bearing segments, in order of arrival. */
  function DataSeqs(ss: seq<Segment>): seq<nat> {
    if ss == [] then [] else
    var rest, s := DataSeqs(ss[..|ss| - 1]), ss[|ss| - 1];
    if s.payload == [] then rest else rest + [s.seqNo]
  }

  function Elems(xs: seq<nat>): set<nat> {
    set x | x in xs
  }

  predicate IsFirst(xs: seq<nat>, i: nat)
    requires i < |xs|
  {
    forall j :: 0 <= j < i ==> xs[j] != xs[i]
  }

  predicate Overtaken(xs: seq<nat>, i: nat)
    requires i < |xs|
  {
    exists j :: 0 <= j < i && xs[j] > xs[i]
  }

  /** The positions of first-time numbers that arrive after a larger one. */
  function Late(xs: seq<nat>): set<nat> {
    set i | 0 <= i < |xs| && IsFirst(xs, i) && Overtaken(xs, i)
  }

  predicate IsMax(m: Option<nat>, xs: seq<nat>) {
    if xs == [] then m.None? else m.Some? && m.value in xs && forall x :: x in xs ==> x <= m.value
  }

  predicate Increasing(xs: seq<nat>) {
    forall i, j :: 0 <= i < j < |xs| ==> xs[i] < xs[j]
  }

  lemma ElemsOn(xs: seq<nat>, x: nat)
    ensures Elems(xs + [x]) == Elems(xs) + {x}
  {
  }

  lemma LateOn(xs: seq<nat>, x: nat)
    ensures Late(xs + [x]) == Late(xs) + (if x !in xs && exists y :: y in xs && y > x then {|xs|} else {})
    ensures |xs| !in Late(xs)
  {
    var ys, n := xs + [x], |xs|;
    forall i | 0 <= i < n
      ensures IsFirst(ys, i) == IsFirst(xs, i) && Overtaken(ys, i) == Overtaken(xs, i)
    {
      assert forall j :: 0 <= j <= i ==> ys[j] == xs[j];
      if Overtaken(ys, i) {
        var j :| 0 <= j < i && ys[j] > ys[i];
        assert xs[j] > xs[i];
      }
      if Overtaken(xs, i) {
        var j :| 0 <= j < i && xs[j] > xs[i];
        assert ys[j] > ys[i];
      }
    }
    LastIsLate(xs, x);
  }

  lemma LastIsLate(xs: seq<nat>, x: nat)
    ensures IsFirst(xs + [x], |xs|) <==> x !in xs
    ensures Overtaken(xs + [x], |xs|) <==> exists y :: y in xs && y > x
  {
    var ys, n := xs + [x], |xs|;
    if x in xs {
      var j :| 0 <= j < n && xs[j] == x;
      assert ys[j] == ys[n];
    }
    if exists y :: y in xs && y > x {
      var y :| y in xs && y > x;
      var j :| 0 <= j < n && xs[j] == y;
      assert ys[j] > ys[n];
    }
    if Overtaken(ys, n) {
      var j :| 0 <= j < n && ys[j] > ys[n];
      assert xs[j] in xs;
    }
  }

  /** The cached set and maximum of one direction are those of its data sequence numbers. */
  predicate Caches(side: Side, xs: seq<nat>) {
    side.seen == Elems(xs) && IsMax(side.maxSeq, xs)
  }

  lemma CachesStep(side: Side, s: Segment, xs: seq<nat>)
    requires Caches(side, xs)
    ensures Caches(SideStep(side, s), if s.payload == [] then xs else xs + [s.seqNo])
    ensures IsRetransmit(side, s) <==> s.payload != [] && s.seqNo in xs
    ensures IsOutOfOrder(side, s) <==> s.payload != [] && s.seqNo !in xs && exists y :: y in xs && y > s.seqNo
  {
    ElemsOn(xs, s.seqNo);
    assert s.seqNo in Elems(xs) <==> s.seqNo in xs;
    if s.seqNo in xs {
      assert Elems(xs) + {s.seqNo} == Elems(xs);
    }
  }

  /** Each counter of one direction equals its specification. */
  lemma {:induction false} SideMeaning(ss: seq<Segment>)
    ensures Caches(SideRun(ss), DataSeqs(ss))
    ensures Retransmits(ss) == |DataSeqs(ss)| - |Elems(DataSeqs(ss))|
    ensures OutOfOrders(ss) == |Late(DataSeqs(ss))|
  {
    hide SideStep, Caches, IsRetransmit, IsOutOfOrder, Late;
    if ss == [] {
      NoData();
    } else {
      var q, s := ss[..|ss| - 1], ss[|ss| - 1];
      var xs := DataSeqs(q);
      SideMeaning(q);
      CachesStep(SideRun(q), s, xs);
      ElemsOn(xs, s.seqNo);
      LateOn(xs, s.seqNo);
      assert s.seqNo in xs ==> Elems(xs) + {s.seqNo} == Elems(xs);
      assert Late(xs) + {} == Late(xs);
    }
  }

  lemma NoData()
    ensures Caches(EMPTY_SIDE, []) && Late([]) == {}
  {
  }

  lemma IncreasingOn(xs: seq<nat>, x: nat)
    ensures Increasing(xs + [x]) <==> Increasing(xs) && forall y :: y in xs ==> y < x
  {
    var ys := xs + [x];
    if Increasing(ys) {
      forall y | y in xs
        ensures y < x
      {
        var j :| 0 <= j < |xs| && xs[j] == y;
        assert ys[j] < ys[|xs|];
      }
      assert forall i, j :: 0 <= i < j < |xs| ==> ys[i] < ys[j] && xs[i] == ys[i] && xs[j] == ys[j];
    } else if forall y :: y in xs ==> y < x {
      var i, j :| 0 <= i < j < |ys| && !(ys[i] < ys[j]);
      assert ys[i] == xs[i] && xs[i] in xs;
      assert j < |xs| && !(xs[i] < xs[j]);
    }
  }

  /** A direction is clean exactly when its data arrives in strictly increasing order, as plain integers. */
  lemma {:induction false} CleanSide(ss: seq<Segment>)
    ensures Retransmits(ss) == 0 && OutOfOrders(ss) == 0 <==> Increasing(DataSeqs(ss))
  {
    hide SideStep, Caches, IsRetransmit, IsOutOfOrder, Increasing;
    if ss == [] {
      NothingIncreases();
    } else {
      var q, s := ss[..|ss| - 1], ss[|ss| - 1];
      CleanSide(q);
      SideMeaning(q);
      CachesStep(SideRun(q), s, DataSeqs(q));
      IncreasingOn(DataSeqs(q), s.seqNo);
    }
  }

  lemma NothingIncreases()
    ensures Increasing([])
  {
  }

  /**
   * The report for one connection of any capture: what the sets and cached maxima hold, what the two counters count,
   * that every payload-bearing segment is either a new number or a retransmit, and when both counters are zero.
   */
  lemma ReorderReport(ps: seq<Arrival>, k: Key)
    requires k in Run(ps).conns
    ensures var c, up, down := Run(ps).conns[k], DataSeqs(Bucket(Of(ps, k), true)), DataSeqs(Bucket(Of(ps, k), false));
            && Caches(c.ab, up) && Caches(c.ba, down)
            && c.outOfOrder == |Late(up)| + |Late(down)|
            && |up| + |down| == |c.ab.seen| + |c.ba.seen| + c.retransmits
            && (c.retransmits == 0 && c.outOfOrder == 0 <==> Increasing(up) && Increasing(down))
  {
    hide Run, ConnRun, Late, Increasing, SideRun, Bucket, Of;
    var qs := Of(ps, k);
    Projection(ps, k);
    OfIsOne(ps, k);
    Directions(qs, k);
    SideMeaning(Bucket(qs, true));
    SideMeaning(Bucket(qs, false));
    CleanSide(Bucket(qs, true));
    CleanSide(Bucket(qs, false));
  }

  // ----- against the order of a sequence space that wraps -----

  const SPACE := 0x1_0000_0000
  const HALF := 0x8000_0000

  /** The comparison of section 3.3 of RFC 793: `x` comes before `y` in a space that wraps at 32 bits. */
  predicate WrapsBefore(x: nat, y: nat) {
    x != y && ((y as int) - x) % SPACE < HALF
  }

  predicate InOrder(xs: seq<nat>) {
    forall i, j :: 0 <= i < j < |xs| ==> WrapsBefore(xs[i], xs[j])
  }

  predicate Words(xs: seq<nat>) {
    forall i :: 0 <= i < |xs| ==> xs[i] < SPACE
  }

  /** From the first number to the last is a step forward of less than half the space, without a wrap. */
  predicate OneHalf(xs: seq<nat>) {
    xs == [] || 0 <= xs[|xs| - 1] - xs[0] < HALF
  }

  lemma WrapsBeforeIs(x: nat, y: nat)
    requires x < SPACE && y < SPACE
    ensures WrapsBefore(x, y) <==> (x < y && y - x < HALF) || (y < x && x - y > HALF)
  {
    var d := (y as int) - x;
    if d < 0 {
      assert d % SPACE == d + SPACE;
    }
  }

  /** Between two numbers less than half the space apart, what comes after the one and before the other lies between. */
  lemma Between(a: nat, x: nat, z: nat)
    requires a < SPACE && x < SPACE && z < SPACE && 0 <= z - a < HALF
    requires (x == a || WrapsBefore(a, x)) && (x == z || WrapsBefore(x, z))
    ensures a <= x <= z
  {
    WrapsBeforeIs(a, x);
    WrapsBeforeIs(x, z);
  }

  lemma InOrderRises(xs: seq<nat>, i: nat, j: nat)
    requires Words(xs) && InOrder(xs) && OneHalf(xs) && i < j < |xs|
    ensures xs[i] < xs[j]
  {
    hide WrapsBefore;
    Between(xs[0], xs[i], xs[|xs| - 1]);
    Between(xs[0], xs[j], xs[|xs| - 1]);
    WrapsBeforeIs(xs[i], xs[j]);
  }

  lemma RisesInOrder(xs: seq<nat>, i: nat, j: nat)
    requires Words(xs) && Increasing(xs) && OneHalf(xs) && i < j < |xs|
    ensures WrapsBefore(xs[i], xs[j])
  {
    hide WrapsBefore;
    assert xs[0] <= xs[i] && xs[j] <= xs[|xs| - 1];
    WrapsBeforeIs(xs[i], xs[j]);
  }

  /**
   * Plain order and wrapping order say the same of a direction if and only if it does not leave one half of the space.
   */
  lemma OrdersCompared(xs: seq<nat>)
    requires Words(xs)
    ensures InOrder(xs) ==> (Increasing(xs) <==> OneHalf(xs))
    ensures Increasing(xs) ==> (InOrder(xs) <==> OneHalf(xs))
  {
    hide WrapsBefore;
    if InOrder(xs) && OneHalf(xs) {
      forall i, j | 0 <= i < j < |xs|
        ensures xs[i] < xs[j]
      {
        InOrderRises(xs, i, j);
      }
    }
    if Increasing(xs) && OneHalf(xs) {
      forall i, j | 0 <= i < j < |xs|
        ensures WrapsBefore(xs[i], xs[j])
      {
        RisesInOrder(xs, i, j);
      }
    }
    if Increasing(xs) && InOrder(xs) && |xs| > 1 {
      WrapsBeforeIs(xs[0], xs[|xs| - 1]);
    }
  }

  /**
   * When a connection's report is right about the wrapping order: "no retransmission and no reordering" is reported
   * exactly for data in order if and only if data that looks in order one way or the other keeps to one half of the
   * space in each direction.
   */
  lemma CleanIsInOrderIff(ps: seq<Arrival>, k: Key)
    requires k in Run(ps).conns
    requires Words(DataSeqs(Bucket(Of(ps, k), true))) && Words(DataSeqs(Bucket(Of(ps, k), false)))
    ensures var c, up, down := Run(ps).conns[k], DataSeqs(Bucket(Of(ps, k), true)), DataSeqs(Bucket(Of(ps, k), false));
            (c.retransmits == 0 && c.outOfOrder == 0 <==> InOrder(up) && InOrder(down))
            <==>
            ((Increasing(up) && Increasing(down)) || (InOrder(up) && InOrder(down)) ==> OneHalf(up) && OneHalf(down))
  {
    hide Run, Of, Bucket, DataSeqs, Increasing, InOrder, Words, OneHalf, Caches, Late;
    ReorderReport(ps, k);
    OrdersCompared(DataSeqs(Bucket(Of(ps, k), true)));
    OrdersCompared(DataSeqs(Bucket(Of(ps, k), false)));
  }

  /** What two data segments of one direction come to. */
  lemma TwoSegments(s: Segment, t: Segment)
    requires s.payload != [] && t.payload != [] && s.seqNo != t.seqNo
    ensures DataSeqs([s, t]) == [s.seqNo, t.seqNo]
    ensures Retransmits([s, t]) == 0 && OutOfOrders([s, t]) == One(t.seqNo < s.seqNo)
  {
    assert [s, t][..1] == [s] && [s][..0] == [];
    assert DataSeqs([s]) == DataSeqs([]) + [s.seqNo];
    assert SideRun([s]) == SideStep(EMPTY_SIDE, s);
    assert Retransmits([s]) == 0 && OutOfOrders([s]) == 0;
  }

  /** Data that is in order across the wrap is reported as reordered, because the comparison is of plain integers. */
  lemma WrapIsMisread(s: Segment, t: Segment)
    requires s.payload != [] && t.payload != [] && s.seqNo == 0xFFFF_FFF0 && t.seqNo == 16
    ensures InOrder(DataSeqs([s, t])) && OutOfOrders([s, t]) == 1
  {
    TwoSegments(s, t);
  }

  /** And a segment from before the wrap that arrives late, a real reordering, is missed. */
  lemma ReorderingIsMissed(s: Segment, t: Segment)
    requires s.payload != [] && t.payload != [] && s.seqNo == 16 && t.seqNo == 0xFFFF_FFF0
    ensures !InOrder(DataSeqs([s, t])) && Retransmits([s, t]) == 0 && OutOfOrders([s, t]) == 0
  {
    TwoSegments(s, t);
    assert !WrapsBefore(DataSeqs([s, t])[0], DataSeqs([s, t])[1]);
  }
}
