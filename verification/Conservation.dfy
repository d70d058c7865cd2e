/** Nothing is lost or counted twice: totals over all connections equal totals over the stream. */
module Conservation {
  import opened Tracker
  import opened Flows

  predicate EachOnce(t: TrackState) {
    && (forall i :: 0 <= i < |t.order| ==> t.order[i] in t.conns)
    && (forall k :: k in t.conns ==> k in t.order)
    && (forall i, j :: 0 <= i < j < |t.order| ==> t.order[i] != t.order[j])
  }

  function Sum(m: map<Key, ConnState>, ks: seq<Key>, weight: ConnState -> nat): nat
    requires forall i :: 0 <= i < |ks| ==> ks[i] in m
  {
    if ks == [] then 0 else Sum(m, ks[..|ks| - 1], weight) + weight(m[ks[|ks| - 1]])
  }

  function BytesOf(c: ConnState): nat {
    c.ab.bytes + c.ba.bytes
  }

  function SegsOf(c: ConnState): nat {
    c.ab.segs + c.ba.segs
  }

  function PayloadBytes(ps: seq<Arrival>): nat {
    if ps == [] then 0 else PayloadBytes(ps[..|ps| - 1]) + |ps[|ps| - 1].seg.payload|
  }

  lemma {:induction false} SumUntouched(m: map<Key, ConnState>, ks: seq<Key>, weight: ConnState -> nat, k: Key,
                                        c: ConnState)
    requires (forall i :: 0 <= i < |ks| ==> ks[i] in m) && k !in ks
    ensures Sum(m[k := c], ks, weight) == Sum(m, ks, weight)
    decreases |ks|
  {
    if ks != [] {
      SumUntouched(m, ks[..|ks| - 1], weight, k, c);
    }
  }

  lemma {:induction false} SumReplaced(m: map<Key, ConnState>, ks: seq<Key>, weight: ConnState -> nat, k: Key,
                                       c: ConnState)
    requires (forall i :: 0 <= i < |ks| ==> ks[i] in m) && k in ks
    requires forall i, j :: 0 <= i < j < |ks| ==> ks[i] != ks[j]
    ensures Sum(m[k := c], ks, weight) == Sum(m, ks, weight) - weight(m[k]) + weight(c)
    decreases |ks|
  {
    var q, last := ks[..|ks| - 1], ks[|ks| - 1];
    if last == k {
      SumUntouched(m, q, weight, k, c);
    } else {
      assert k in q;
      SumReplaced(m, q, weight, k, c);
    }
  }

  lemma SumOn(t: TrackState, p: Arrival, weight: ConnState -> nat)
    requires EachOnce(t) && EachOnce(Feed(t, p))
    ensures var u := Feed(t, p); var c := Known(t, p);
            Sum(u.conns, u.order, weight) ==
            Sum(t.conns, t.order, weight) + weight(Step(c, p)) - (if KeyOf(p) in t.conns then weight(c) else 0)
  {
    hide Step, KeyOf, PrematureRst, FlagStep;
    var u, k, c := Feed(t, p), KeyOf(p), Known(t, p);
    if k in t.conns {
      SumReplaced(t.conns, t.order, weight, k, Step(c, p));
    } else {
      assert u.order[..|u.order| - 1] == t.order;
      SumUntouched(t.conns, t.order, weight, k, Step(c, p));
    }
  }

  lemma ListedOn(t: TrackState, p: Arrival)
    requires EachOnce(t)
    ensures EachOnce(Feed(t, p))
  {
    hide Step, KeyOf, PrematureRst, FlagStep;
    var u, k := Feed(t, p), KeyOf(p);
    assert k in u.order by {
      if k !in t.conns {
        assert u.order[|t.order|] == k;
      }
    }
    assert forall j :: j in t.order ==> j in u.order;
  }

  lemma Weights(c: ConnState, p: Arrival)
    ensures BytesOf(Step(c, p)) == BytesOf(c) + |p.seg.payload|
    ensures SegsOf(Step(c, p)) == SegsOf(c) + 1
  {
    hide Step;
    StepSides(c, p);
  }

  /**
   * For every stream: the connection table lists each connection once, the payload bytes of all connections add up
   * to the payload bytes of the stream, and their segments to its length.
   */
  lemma {:induction false} Conserved(ps: seq<Arrival>)
    ensures var t := Run(ps);
            && EachOnce(t)
            && Sum(t.conns, t.order, BytesOf) == PayloadBytes(ps)
            && Sum(t.conns, t.order, SegsOf) == |ps|
  {
    hide Feed, Step, KeyOf, EachOnce;
    if ps == [] {
      NothingListed();
    } else {
      var q, p := ps[..|ps| - 1], ps[|ps| - 1];
      var t := Run(q);
      Conserved(q);
      ListedOn(t, p);
      SumOn(t, p, BytesOf);
      SumOn(t, p, SegsOf);
      Weights(Known(t, p), p);
    }
  }

  lemma NothingListed()
    ensures EachOnce(NOTHING)
  {
  }

  /** Both directions of a connection reach one entry, stored under the key of its own endpoints. */
  lemma EntryIsItsPair(ps: seq<Arrival>, k: Key)
    requires k in Run(ps).conns
    ensures var c := Run(ps).conns[k]; ConnKey(c.a, c.b) == k && ConnKey(c.b, c.a) == k
  {
    hide Run, ConnRun, ConnKey;
    Projection(ps, k);
    OfIsOne(ps, k);
    OpenerTracked(Of(ps, k), k);
    var c := Run(ps).conns[k];
    KeyIsPair(c.a, c.b, c.b, c.a);
  }
}
