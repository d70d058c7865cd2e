/** The duplicate-ACK counter in closed form. */
module Acks {
  import opened Octets
  import opened Frames
  import opened Tracker
  import opened Flows

  datatype Ack = Ack(ackNo: nat, isEmpty: bool)

  /** The ACK-bearing segments of one direction. */
  function AcksOf(ss: seq<Segment>): seq<Ack> {
    if ss == [] then [] else
    var rest, s := AcksOf(ss[..|ss| - 1]), ss[|ss| - 1];
    if s.ack then rest + [Ack(s.ackNo, IsEmptyAck(s))] else rest
  }

  /** A run goes on only with an empty segment that repeats the ACK number. */
  predicate Continues(x: Ack, y: Ack) {
    y.isEmpty && y.ackNo == x.ackNo
  }

  predicate IsRun(r: seq<Ack>) {
    r != [] && forall i :: 1 <= i < |r| ==> Continues(r[i - 1], r[i])
  }

  function Concat(rs: seq<seq<Ack>>): seq<Ack> {
    if rs == [] then [] else Concat(rs[..|rs| - 1]) + rs[|rs| - 1]
  }

  /** `rs` cuts the ACKs into maximal runs. */
  predicate IsRuns(rs: seq<seq<Ack>>, xs: seq<Ack>) {
    && Concat(rs) == xs
    && (forall i :: 0 <= i < |rs| ==> IsRun(rs[i]))
    && (forall i :: 1 <= i < |rs| ==> !Continues(rs[i - 1][|rs[i - 1]| - 1], rs[i][0]))
  }

  function Empties(r: seq<Ack>): nat {
    if r == [] then 0 else Empties(r[..|r| - 1]) + One(r[|r| - 1].isEmpty)
  }

  /** The closed form: in each run, every empty segment but the first. */
  function Repeats(rs: seq<seq<Ack>>): nat {
    if rs == [] then 0 else Repeats(rs[..|rs| - 1]) + Max(0, Empties(rs[|rs| - 1]) - 1)
  }

  // ----- the counter over the ACKs alone -----

  predicate LastContinues(xs: seq<Ack>) {
    |xs| >= 2 && Continues(xs[|xs| - 2], xs[|xs| - 1])
  }

  function Streak(xs: seq<Ack>): nat {
    if xs == [] then 0
    else if LastContinues(xs) then Streak(xs[..|xs| - 1]) + 1
    else One(xs[|xs| - 1].isEmpty)
  }

  function Dups(xs: seq<Ack>): nat {
    if xs == [] then 0
    else Dups(xs[..|xs| - 1]) + One(LastContinues(xs) && Streak(xs[..|xs| - 1]) >= 1)
  }

  lemma {:induction false} CounterOverAcks(ss: seq<Segment>)
    ensures var side, xs := SideRun(ss), AcksOf(ss);
            && side.lastAck == (if xs == [] then None else Some(xs[|xs| - 1].ackNo))
            && side.lastAckN == Streak(xs) && DupAcks(ss) == Dups(xs)
  {
    if ss != [] {
      var q, s := ss[..|ss| - 1], ss[|ss| - 1];
      CounterOverAcks(q);
      CountKeepsAcks(SideRun(q), s);
      if s.ack {
        var xs, x := AcksOf(q), Ack(s.ackNo, IsEmptyAck(s));
        assert (xs + [x])[..|xs|] == xs;
        assert RepeatsAck(SideRun(q), s) <==> LastContinues(xs + [x]);
      }
    }
  }

  lemma CountKeepsAcks(side: Side, s: Segment)
    ensures Count(side, s).lastAck == side.lastAck && Count(side, s).lastAckN == side.lastAckN
  {
  }

  // ----- the closed form -----

  predicate GoesOn(xs: seq<Ack>, x: Ack) {
    xs != [] && Continues(xs[|xs| - 1], x)
  }

  lemma StreakOn(xs: seq<Ack>, x: Ack)
    ensures Streak(xs + [x]) == if GoesOn(xs, x) then Streak(xs) + 1 else One(x.isEmpty)
    ensures Dups(xs + [x]) == Dups(xs) + One(GoesOn(xs, x) && Streak(xs) >= 1)
  {
    assert (xs + [x])[..|xs|] == xs;
  }

  lemma EmptiesOn(q: seq<Ack>, x: Ack)
    ensures Empties(q + [x]) == Empties(q) + One(x.isEmpty)
  {
    assert (q + [x])[..|q|] == q;
  }

  /** A run of two or more: the shorter run, and an empty segment that goes on from it. */
  lemma ShorterRun(r: seq<Ack>)
    requires IsRun(r) && |r| >= 2
    ensures var q, x := r[..|r| - 1], r[|r| - 1]; IsRun(q) && q[0] == r[0] && Continues(q[|q| - 1], x) && x.isEmpty
  {
    assert Continues(r[|r| - 2], r[|r| - 1]);
  }

  lemma {:induction false} OneRun(pre: seq<Ack>, r: seq<Ack>)
    requires IsRun(r) && (pre == [] || !Continues(pre[|pre| - 1], r[0]))
    ensures Streak(pre + r) == Empties(r) && Dups(pre + r) == Dups(pre) + Max(0, Empties(r) - 1)
    decreases |r|
  {
    hide Continues, Streak, Dups, Empties;
    var q, x := r[..|r| - 1], r[|r| - 1];
    assert r == q + [x] && pre + r == (pre + q) + [x];
    StreakOn(pre + q, x);
    EmptiesOn(q, x);
    if q == [] {
      NoTail(pre);
      NoEmpties();
    } else {
      ShorterRun(r);
      OneRun(pre, q);
      assert (pre + q)[|pre + q| - 1] == q[|q| - 1];
    }
  }

  lemma NoEmpties()
    ensures Empties([]) == 0
  {
  }

  /** For every way of cutting the ACKs into maximal runs, the counter is the closed form over them. */
  lemma {:induction false} DupsAreRepeats(rs: seq<seq<Ack>>, xs: seq<Ack>)
    requires IsRuns(rs, xs)
    ensures Dups(xs) == Repeats(rs)
    decreases |rs|
  {
    if rs != [] {
      var q, r := rs[..|rs| - 1], rs[|rs| - 1];
      var pre := Concat(q);
      assert IsRuns(q, pre);
      DupsAreRepeats(q, pre);
      assert IsRun(r);
      if q != [] {
        LastOfConcat(q);
        assert !Continues(rs[|rs| - 2][|rs[|rs| - 2]| - 1], rs[|rs| - 1][0]);
      }
      OneRun(pre, r);
    }
  }

  lemma LastOfConcat(rs: seq<seq<Ack>>)
    requires rs != [] && rs[|rs| - 1] != []
    ensures var xs, r := Concat(rs), rs[|rs| - 1]; xs != [] && xs[|xs| - 1] == r[|r| - 1]
  {
  }

  /** Such a cut always exists. */
  function Runs(xs: seq<Ack>): seq<seq<Ack>> {
    if xs == [] then [] else
    var rs, x := Runs(xs[..|xs| - 1]), xs[|xs| - 1];
    if LastContinues(xs) && rs != [] then rs[..|rs| - 1] + [rs[|rs| - 1] + [x]] else rs + [[x]]
  }

  lemma {:induction false} RunsExist(xs: seq<Ack>)
    ensures IsRuns(Runs(xs), xs)
  {
    if xs != [] {
      var q, x := xs[..|xs| - 1], xs[|xs| - 1];
      RunsExist(q);
      var rs := Runs(q);
      if rs != [] {
        LastOfConcat(rs);
        assert q[|q| - 1] == xs[|xs| - 2];
        if LastContinues(xs) {
          ExtendLast(rs, q, x);
        } else {
          AddRun(rs, q, x);
        }
      } else {
        assert q == [];
        AddRun(rs, q, x);
      }
      assert xs == q + [x];
    }
  }

  lemma ExtendLast(rs: seq<seq<Ack>>, q: seq<Ack>, x: Ack)
    requires IsRuns(rs, q) && rs != [] && q != [] && Continues(q[|q| - 1], x)
    ensures IsRuns(rs[..|rs| - 1] + [rs[|rs| - 1] + [x]], q + [x])
  {
    LastOfConcat(rs);
    var init, r := rs[..|rs| - 1], rs[|rs| - 1];
    var ext := init + [r + [x]];
    assert ext[..|ext| - 1] == init && ext[|ext| - 1] == r + [x];
    assert Concat(ext) == Concat(init) + (r + [x]) == (Concat(init) + r) + [x];
    assert IsRun(r + [x]);
    forall i | 1 <= i < |ext|
      ensures !Continues(ext[i - 1][|ext[i - 1]| - 1], ext[i][0])
    {
      assert ext[i - 1] == rs[i - 1] && ext[i][0] == rs[i][0];
      assert !Continues(rs[i - 1][|rs[i - 1]| - 1], rs[i][0]);
    }
  }

  lemma AddRun(rs: seq<seq<Ack>>, q: seq<Ack>, x: Ack)
    requires IsRuns(rs, q) && (q == [] || !Continues(q[|q| - 1], x))
    ensures IsRuns(rs + [[x]], q + [x])
  {
    var ext := rs + [[x]];
    assert ext[..|ext| - 1] == rs && ext[|ext| - 1] == [x];
    if rs != [] {
      LastOfConcat(rs);
    }
    forall i | 1 <= i < |ext|
      ensures !Continues(ext[i - 1][|ext[i - 1]| - 1], ext[i][0])
    {
      assert ext[i - 1] == rs[i - 1];
      if i < |rs| {
        assert !Continues(rs[i - 1][|rs[i - 1]| - 1], rs[i][0]);
      }
    }
  }

  // ----- against the third identical ACK -----

  /** What the source's comment describes: every segment of a run from the third on. */
  function Thirds(rs: seq<seq<Ack>>): nat {
    if rs == [] then 0 else Thirds(rs[..|rs| - 1]) + Max(0, |rs[|rs| - 1]| - 2)
  }

  predicate LaterEmpty(r: seq<Ack>) {
    r != [] && forall i :: 1 <= i < |r| ==> r[i].isEmpty
  }

  lemma {:induction false} EmptiesOfRun(r: seq<Ack>)
    requires LaterEmpty(r)
    ensures Empties(r) == |r| - 1 + One(r[0].isEmpty)
  {
    var q := r[..|r| - 1];
    if q != [] {
      EmptiesOfRun(q);
    } else {
      NoEmpties();
    }
  }

  /** A run of two or more begins with a segment that is not a bare ACK: it carries data, or a SYN or FIN. */
  predicate BeginsNonEmpty(r: seq<Ack>) {
    |r| >= 2 ==> !r[0].isEmpty
  }

  /**
   * The counter is never below the number of third and later identical ACKs, and equals it if and only if no run of
   * two or more begins with an empty segment.
   */
  lemma {:induction false} ThirdsCompared(rs: seq<seq<Ack>>)
    requires forall i :: 0 <= i < |rs| ==> IsRun(rs[i])
    ensures Repeats(rs) >= Thirds(rs)
    ensures Repeats(rs) == Thirds(rs) <==> forall i :: 0 <= i < |rs| ==> BeginsNonEmpty(rs[i])
  {
    hide Empties, IsRun;
    if rs != [] {
      var q, r := rs[..|rs| - 1], rs[|rs| - 1];
      ThirdsCompared(q);
      RunShape(r);
      EmptiesOfRun(r);
      assert forall i :: 0 <= i < |q| ==> q[i] == rs[i];
      assert (forall i :: 0 <= i < |rs| ==> BeginsNonEmpty(rs[i])) <==>
             (forall i :: 0 <= i < |q| ==> BeginsNonEmpty(q[i])) && BeginsNonEmpty(r);
    }
  }

  lemma RunShape(r: seq<Ack>)
    requires IsRun(r)
    ensures LaterEmpty(r)
  {
    forall i | 1 <= i < |r|
      ensures r[i].isEmpty
    {
      assert Continues(r[i - 1], r[i]);
    }
  }

  /** The counter of any connection against the comment, and exactly when the two agree. */
  lemma ThirdAckReport(ps: seq<Arrival>, k: Key, up: seq<seq<Ack>>, down: seq<seq<Ack>>)
    requires k in Run(ps).conns
    requires IsRuns(up, AcksOf(Bucket(Of(ps, k), true))) && IsRuns(down, AcksOf(Bucket(Of(ps, k), false)))
    ensures Run(ps).conns[k].dupAcks >= Thirds(up) + Thirds(down)
    ensures Run(ps).conns[k].dupAcks == Thirds(up) + Thirds(down) <==>
            && (forall i :: 0 <= i < |up| ==> BeginsNonEmpty(up[i]))
            && (forall i :: 0 <= i < |down| ==> BeginsNonEmpty(down[i]))
  {
    hide Run, Bucket, Of, Repeats, Thirds, AcksOf, Concat, BeginsNonEmpty;
    DupAckReport(ps, k, up, down);
    ThirdsCompared(up);
    ThirdsCompared(down);
  }

  /** Two equal empty ACKs already count one, where the comment waits for a third. */
  lemma SecondAckCounts(s: Segment)
    requires s.ack && IsEmptyAck(s)
    ensures DupAcks([s, s]) == 1 && IsRuns([AcksOf([s, s])], AcksOf([s, s])) && Thirds([AcksOf([s, s])]) == 0
  {
    var a := Ack(s.ackNo, true);
    assert [s, s][..1] == [s] && [s][..0] == [];
    assert AcksOf([s]) == AcksOf([]) + [a];
    assert AcksOf([s, s]) == [a, a];
    var rs := [[a, a]];
    assert rs[..0] == [] && Concat(rs) == Concat([]) + [a, a];
    assert SideRun([s]) == SideStep(EMPTY_SIDE, s);
    assert DupAcks([s]) == 0;
  }

  /** The duplicate-ACK counter of any connection, for any cut of each direction's ACKs into maximal runs. */
  lemma DupAckReport(ps: seq<Arrival>, k: Key, up: seq<seq<Ack>>, down: seq<seq<Ack>>)
    requires k in Run(ps).conns
    requires IsRuns(up, AcksOf(Bucket(Of(ps, k), true))) && IsRuns(down, AcksOf(Bucket(Of(ps, k), false)))
    ensures Run(ps).conns[k].dupAcks == Repeats(up) + Repeats(down)
  {
    hide Run, ConnRun, SideRun, Bucket, Of, IsRuns, Repeats, AcksOf;
    var qs := Of(ps, k);
    Projection(ps, k);
    OfIsOne(ps, k);
    Directions(qs, k);
    CounterOverAcks(Bucket(qs, true));
    CounterOverAcks(Bucket(qs, false));
    DupsAreRepeats(up, AcksOf(Bucket(qs, true)));
    DupsAreRepeats(down, AcksOf(Bucket(qs, false)));
  }
}
