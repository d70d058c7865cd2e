/** Phase durations read off an anchor scan, and when they add up. */
module Phases {
  import opened Octets
  import opened Ladder

  const PHASES := 13
  const MS_PER_TICK := 10

  /** A phase boundary as the span table names it. */
  datatype Bound = Nowhere | Anchor(i: nat) | RenderOrPng

  /**
   * Which anchors phase `p` runs between: BUILD, FIRMWARE/OVMF, ..., RENDER-SETUP at 9, RENDER at 10, ENCODE, TEARDOWN.
   */
  function Span(p: nat): (Bound, Bound) {
    if p == 0 then (Nowhere, Anchor(1))
    else if p == 9 then (Anchor(SCREENSHOT), RenderOrPng)
    else (Anchor(p - 1), Anchor(p))
  }

  /** The two records phases are read from: the anchors of the ordered scan, and the free-standing render marker. */
  datatype Marks = Marks(found: map<nat, Hit>, free: Option<Hit>)

  function MarksOf(start: nat, log: seq<Line>): Marks {
    Marks(ScanLog(NextOnly, ANCHORS, start, log).found, FirstShow(ANCHORS, start, RENDER_START, log))
  }

  /** The render mark in use: the anchor the ordered scan recorded, else the free-standing record. */
  function RenderMark(m: Marks): Option<Hit> {
    if RENDER_START in m.found then Some(m.found[RENDER_START]) else m.free
  }

  function Resolve(m: Marks, b: Bound): Option<Hit> {
    match b
    case Nowhere => None
    case Anchor(i) => if i == RENDER_START then RenderMark(m) else Get(m.found, i)
    case RenderOrPng => if RenderMark(m).Some? then RenderMark(m) else Get(m.found, OUT_PNG_OPEN)
  }

  function FromTick(m: Marks, p: nat): Option<nat> {
    TickOf(Resolve(m, Span(p).0))
  }

  function ToTick(m: Marks, p: nat): Option<nat> {
    TickOf(Resolve(m, Span(p).1))
  }

  /** Does phase `p` get a duration? */
  predicate Timed(m: Marks, p: nat) {
    FromTick(m, p).Some? && ToTick(m, p).Some? && FromTick(m, p).value <= ToTick(m, p).value
  }

  function PhaseMs(m: Marks, p: nat): Option<nat> {
    if Timed(m, p) then Some((ToTick(m, p).value - FromTick(m, p).value) * MS_PER_TICK) else None
  }

  function SumMs(m: Marks, n: nat): nat {
    if n == 0 then 0 else SumMs(m, n - 1) + match PhaseMs(m, n - 1) { case Some(ms) => ms case None => 0 }
  }

  /** The smallest tick on any recorded anchor. */
  function MinTick(found: map<nat, Hit>, n: nat): Option<nat> {
    if n == 0 then None else
    var was, t := MinTick(found, n - 1), TickOf(Get(found, n - 1));
    if t.Some? && (was.None? || t.value < was.value) then t else was
  }

  method FirstTick(found: map<nat, Hit>) returns (first: Option<nat>)
    ensures first == MinTick(found, ANCHORS.n)
  {
    first := None;
    for i := 0 to ANCHORS.n
      invariant first == MinTick(found, i)
    {
      if i in found {
        var t := found[i].tick;
        if t.Some? && (first.None? || t.value < first.value) {
          first := t;
        }
      }
    }
  }

  /**
   * It is the tick of some recorded anchor and of none a larger one; there is none if and only if no anchor has a tick.
   */
  lemma {:induction false} MinTickLeast(found: map<nat, Hit>, n: nat)
    ensures MinTick(found, n).Some? ==> exists i :: 0 <= i < n && TickOf(Get(found, i)) == MinTick(found, n)
    ensures forall i :: 0 <= i < n && TickOf(Get(found, i)).Some? ==>
              MinTick(found, n).Some? && MinTick(found, n).value <= TickOf(Get(found, i)).value
  {
    if n > 0 {
      MinTickLeast(found, n - 1);
    }
  }

  /** The run's length on the tick axis: last tick seen anywhere minus the first tick on any anchor. */
  function TotalMs(s: Scan): Option<nat> {
    var first := MinTick(s.found, ANCHORS.n);
    if first.Some? && s.tick.Some? && s.tick.value >= first.value
    then Some((s.tick.value - first.value) * MS_PER_TICK)
    else None
  }

  // ----- where a stray render marker can stand -----

  lemma ScanGrows(start: nat, log: seq<Line>, k: nat, j: nat)
    requires k <= |log| && j in ScanLog(NextOnly, ANCHORS, start, log[..k]).found
    ensures var s, t := ScanLog(NextOnly, ANCHORS, start, log[..k]), ScanLog(NextOnly, ANCHORS, start, log);
            s.idx <= t.idx && j in t.found && t.found[j] == s.found[j]
    decreases |log| - k
  {
    hide ScanLog, Advance, Hits;
    if k == |log| {
      assert log[..k] == log;
    } else {
      ScanOn(NextOnly, ANCHORS, start, log, k);
      ScanSound(NextOnly, ANCHORS, start, log[..k]);
      NewHits(NextOnly, ANCHORS, ScanLog(NextOnly, ANCHORS, start, log[..k]), log[k], j);
      ScanGrows(start, log, k + 1, j);
    }
  }

  /** A hit recorded only after line `k` is on a later line. */
  lemma {:induction false} FoundLater(start: nat, log: seq<Line>, k: nat, j: nat)
    requires k < |log| && j in ScanLog(NextOnly, ANCHORS, start, log).found
    requires j !in ScanLog(NextOnly, ANCHORS, start, log[..k]).found
    ensures ScanLog(NextOnly, ANCHORS, start, log).found[j].line > k
    decreases |log|
  {
    hide Advance, Hits;
    var q := log[..|log| - 1];
    NewHits(NextOnly, ANCHORS, ScanLog(NextOnly, ANCHORS, start, q), log[|log| - 1], j);
    ScanSound(NextOnly, ANCHORS, start, q);
    assert q[..k] == log[..k];
    if k < |q| && j in ScanLog(NextOnly, ANCHORS, start, q).found {
      FoundLater(start, q, k, j);
    } else if k == |q| {
      assert q[..k] == q;
    }
  }

  /** A render marker the ordered scan did not take stands before the screenshot anchor or after the PNG was opened. */
  lemma StrayMarker(start: nat, log: seq<Line>, k: nat)
    requires start <= SCREENSHOT && k < |log| && RENDER_START in log[k].matches
    requires var s := ScanLog(NextOnly, ANCHORS, start, log); RENDER_START !in s.found && OUT_PNG_OPEN in s.found
    ensures var s := ScanLog(NextOnly, ANCHORS, start, log);
            && SCREENSHOT in s.found
            && (k + 1 < s.found[SCREENSHOT].line || s.found[OUT_PNG_OPEN].line < k + 1)
  {
    hide ScanLog, Advance, Hits;
    var s := ScanLog(NextOnly, ANCHORS, start, log);
    var a, b := ScanLog(NextOnly, ANCHORS, start, log[..k]), ScanLog(NextOnly, ANCHORS, start, log[..k + 1]);
    ScanSound(NextOnly, ANCHORS, start, log);
    ScanSound(NextOnly, ANCHORS, start, log[..k]);
    ScanSound(NextOnly, ANCHORS, start, log[..k + 1]);
    assert GapAllowed(NextOnly, s.found.Keys, SCREENSHOT);
    ScanOn(NextOnly, ANCHORS, start, log, k);
    NewHits(NextOnly, ANCHORS, a, log[k], RENDER_START);
    if k + 1 == |log| {
      assert log[..k + 1] == log;
    }
    if RENDER_START in b.found {
      ScanGrows(start, log, k + 1, RENDER_START);
    } else if b.idx <= RENDER_START {
      BeforeShot(start, log, k, a, b);
      if k + 1 < |log| {
        FoundLater(start, log, k + 1, SCREENSHOT);
      }
    } else {
      assert a.idx > RENDER_START;
      assert GapAllowed(NextOnly, a.found.Keys, RENDER_START);
      ScanGrows(start, log, k, OUT_PNG_OPEN);
    }
  }

  lemma BeforeShot(start: nat, log: seq<Line>, k: nat, a: Scan, b: Scan)
    requires k < |log| && RENDER_START in log[k].matches && b == Feed(NextOnly, ANCHORS, a, log[k])
    requires b.idx <= RENDER_START && start <= SCREENSHOT && Sound(NextOnly, ANCHORS, start, log[..k + 1], b)
    ensures SCREENSHOT !in b.found
  {
  }

  // ----- what a log can lead to -----

  function Tick(m: Marks, i: nat): Option<nat> {
    TickOf(Get(m.found, i))
  }

  /** Anchor ticks never decrease along the ladder, and once there is a tick every deeper anchor has one. */
  predicate TicksFollow(m: Marks) {
    forall i, j :: i in m.found && j in m.found && i < j ==> NoLater(Tick(m, i), Tick(m, j))
  }

  /** Before the screenshot, recorded anchors up to libxul leave no gap. */
  predicate BootIsWhole(m: Marks) {
    SCREENSHOT in m.found ==> forall i, j :: i in m.found && i <= j < TCP ==> j in m.found
  }

  /**
   * Without a render anchor: behind a screenshot there is nothing unless the PNG was opened; and if it was, anything
   * before it includes a screenshot, and a stray marker's tick is not before it if that screenshot has none.
   */
  predicate RenderGap(m: Marks) {
    RENDER_START !in m.found ==>
      && (SCREENSHOT in m.found && OUT_PNG_OPEN !in m.found ==> forall j :: j in m.found ==> j <= SCREENSHOT)
      && (OUT_PNG_OPEN in m.found && SCREENSHOT !in m.found ==> forall j :: j in m.found ==> j > SCREENSHOT)
      && (OUT_PNG_OPEN in m.found && SCREENSHOT in m.found && TickOf(m.free).Some? && Tick(m, SCREENSHOT).None? ==>
            NoLater(Tick(m, OUT_PNG_OPEN), TickOf(m.free)))
  }

  predicate Plausible(m: Marks) {
    && TicksFollow(m) && BootIsWhole(m) && RenderGap(m)
    && (OUT_PNG_OPEN in m.found && 12 in m.found ==> PNG_WRITTEN in m.found)
  }

  /** A stray marker's tick, when the screenshot has none, is not before the PNG is opened. */
  lemma StrayTick(start: nat, log: seq<Line>)
    requires start <= SCREENSHOT && TicksRise(log)
    requires var m := MarksOf(start, log); RENDER_START !in m.found && OUT_PNG_OPEN in m.found && m.free.Some?
    ensures var m := MarksOf(start, log);
            && SCREENSHOT in m.found
            && (TickOf(m.free).Some? && Tick(m, SCREENSHOT).None? ==> NoLater(Tick(m, OUT_PNG_OPEN), TickOf(m.free)))
  {
    hide ScanLog, TickAt, TicksRise, FirstShow, Sound;
    var m := MarksOf(start, log);
    HitsStamped(NextOnly, ANCHORS, start, log);
    ShowStamped(ANCHORS, start, RENDER_START, log);
    var n := m.free.value.line;
    StrayMarker(start, log, n - 1);
    if n < m.found[SCREENSHOT].line {
      TickOrder(log, n, m.found[SCREENSHOT].line);
    } else {
      TickOrder(log, m.found[OUT_PNG_OPEN].line, n);
    }
  }

  /** Every log with ticks that never decrease, scanned from any anchor on, leads to plausible marks. */
  lemma LogsArePlausible(start: nat, log: seq<Line>)
    requires TicksRise(log)
    ensures Plausible(MarksOf(start, log))
  {
    hide ScanLog, TicksRise, FirstShow, NoLater, Tick;
    var m, s := MarksOf(start, log), ScanLog(NextOnly, ANCHORS, start, log);
    ScanSound(NextOnly, ANCHORS, start, log);
    assert start <= RENDER_START && RENDER_START + 1 < s.idx ==> GapAllowed(NextOnly, s.found.Keys, RENDER_START);
    assert start <= SCREENSHOT && SCREENSHOT + 1 < s.idx ==> GapAllowed(NextOnly, s.found.Keys, SCREENSHOT);
    if RENDER_START !in m.found && OUT_PNG_OPEN in m.found && SCREENSHOT in m.found && m.free.Some? {
      StrayTick(start, log);
    }
    forall i, j | i in m.found && j in m.found && i < j
      ensures NoLater(Tick(m, i), Tick(m, j))
    {
      HitTicks(NextOnly, ANCHORS, start, log, i, j);
      assert Tick(m, i) == m.found[i].tick && Tick(m, j) == m.found[j].tick by { TickIs(m, i); TickIs(m, j); }
    }
    assert m.free.None? ==> TickOf(m.free).None?;
  }

  lemma TickIs(m: Marks, i: nat)
    requires i in m.found
    ensures Tick(m, i) == m.found[i].tick
  {
  }

  // ----- timed phases keep apart -----

  /** Timed phases come in taxonomy order and do not overlap. */
  predicate Apart(m: Marks) {
    forall p, q :: 0 <= p < q < PHASES && Timed(m, p) && Timed(m, q) ==> ToTick(m, p).value <= FromTick(m, q).value
  }

  /** The ticks of the screenshot, the free-standing marker and the opening of the PNG. */
  function Shot(m: Marks): Option<nat> {
    Tick(m, SCREENSHOT)
  }

  function Free(m: Marks): Option<nat> {
    TickOf(m.free)
  }

  function Open(m: Marks): Option<nat> {
    Tick(m, OUT_PNG_OPEN)
  }

  /**
   * The render mark is where the taxonomy wants it: taken from the ordered scan, absent, untimed, or between the
   * screenshot and the opening of the PNG.
   */
  predicate RenderInPlace(m: Marks) {
    || RENDER_START in m.found
    || Free(m).None? || Shot(m).None? || Open(m).None?
    || Shot(m).value <= Free(m).value <= Open(m).value
  }

  /**
   * It is out of place, but there is no timed phase for it to run into: before the screenshot, no TCP tick and no boot
   * phase that ends after the marker; after the opening of the PNG, no written PNG.
   */
  predicate Harmless(m: Marks) {
    && RENDER_START !in m.found && Shot(m).Some? && Free(m).Some? && Open(m).Some?
    && if Free(m).value < Shot(m).value
       then && Tick(m, TCP).None?
            && (Tick(m, 5).None? || Tick(m, 6).None? || Tick(m, 6).value <= Free(m).value)
       else PNG_WRITTEN !in m.found
  }

  predicate Plain(p: nat) {
    p < PHASES && p != 0 && p != 9 && p != 10
  }

  lemma PlainBounds(m: Marks, p: nat)
    requires Plain(p)
    ensures FromTick(m, p) == Tick(m, p - 1) && ToTick(m, p) == Tick(m, p)
  {
  }

  /** The bounds of the two render phases, and that BUILD has none. */
  lemma RenderBounds(m: Marks)
    ensures !Timed(m, 0) && FromTick(m, 9) == Shot(m) && ToTick(m, 10) == Open(m)
    ensures FromTick(m, 10) == if RENDER_START in m.found then Tick(m, RENDER_START) else Free(m)
    ensures ToTick(m, 9) == if RENDER_START in m.found then Tick(m, RENDER_START)
                            else if m.free.Some? then Free(m) else Open(m)
  {
  }

  lemma PlainApart(m: Marks, p: nat, q: nat)
    requires TicksFollow(m) && Plain(p) && Plain(q) && p < q && Timed(m, p) && Timed(m, q)
    ensures ToTick(m, p).value <= FromTick(m, q).value
  {
    PlainBounds(m, p);
    PlainBounds(m, q);
    assert p < q - 1 ==> NoLater(Tick(m, p), Tick(m, q - 1));
  }

  /** RENDER-SETUP and RENDER themselves never overlap. */
  lemma RenderPairApart(m: Marks)
    requires TicksFollow(m) && Timed(m, 9) && Timed(m, 10)
    ensures ToTick(m, 9).value <= FromTick(m, 10).value
  {
    RenderBounds(m);
  }

  /** A timed phase before the render phases ends by the screenshot. */
  lemma EndsByShot(m: Marks, p: nat)
    requires TicksFollow(m) && Plain(p) && p < 9 && Timed(m, p) && SCREENSHOT in m.found
    ensures Shot(m).Some? && ToTick(m, p).value <= Shot(m).value
  {
    PlainBounds(m, p);
    assert p < SCREENSHOT ==> NoLater(Tick(m, p), Tick(m, SCREENSHOT));
  }

  /** A timed phase behind them begins no earlier than the opening of the PNG. */
  lemma BeginsAfterOpen(m: Marks, q: nat)
    requires TicksFollow(m) && Plain(q) && q > 10 && Timed(m, q) && OUT_PNG_OPEN in m.found && Open(m).Some?
    ensures Open(m).value <= FromTick(m, q).value
  {
    PlainBounds(m, q);
    assert q > 11 ==> NoLater(Tick(m, OUT_PNG_OPEN), Tick(m, q - 1));
  }

  /** Phase `p` against the render phase `q`. */
  lemma BeforeRender(m: Marks, p: nat, q: nat)
    requires Plausible(m) && (RenderInPlace(m) || Harmless(m))
    requires Plain(p) && p < 9 <= q <= 10 && Timed(m, p) && Timed(m, q)
    ensures ToTick(m, p).value <= FromTick(m, q).value
  {
    RenderBounds(m);
    PlainBounds(m, p);
    if SCREENSHOT in m.found {
      EndsByShot(m, p);
    }
    if RENDER_START in m.found {
      assert NoLater(Tick(m, p), Tick(m, RENDER_START));
    } else if q == 10 && Harmless(m) && Free(m).value < Shot(m).value {
      BootBeforeMarker(m, p);
    }
  }

  /** With a harmless marker before the screenshot, every phase before it ends by the marker. */
  lemma BootBeforeMarker(m: Marks, p: nat)
    requires Plausible(m) && Harmless(m) && Free(m).value < Shot(m).value && Plain(p) && p < 9 && Timed(m, p)
    ensures ToTick(m, p).value <= Free(m).value
  {
    PlainBounds(m, p);
    assert p != TCP && p - 1 != TCP;
    assert p <= 6 && p in m.found && SCREENSHOT in m.found;
    assert 6 in m.found && 5 in m.found by { assert BootIsWhole(m) && p - 1 in m.found; }
    assert p < 6 ==> NoLater(Tick(m, p), Tick(m, 6));
    assert p - 1 < 5 ==> NoLater(Tick(m, p - 1), Tick(m, 5));
  }

  /** The render phase `p` against phase `q`. */
  lemma AfterRender(m: Marks, p: nat, q: nat)
    requires Plausible(m) && (RenderInPlace(m) || Harmless(m))
    requires Plain(q) && 9 <= p <= 10 < q && Timed(m, p) && Timed(m, q)
    ensures ToTick(m, p).value <= FromTick(m, q).value
  {
    RenderBounds(m);
    PlainBounds(m, q);
    if OUT_PNG_OPEN in m.found && Open(m).Some? {
      BeginsAfterOpen(m, q);
    }
    if RENDER_START in m.found {
      assert NoLater(Tick(m, RENDER_START), Tick(m, q - 1));
    } else if OUT_PNG_OPEN in m.found {
      assert NoLater(Tick(m, SCREENSHOT), Tick(m, OUT_PNG_OPEN));
      assert PNG_WRITTEN in m.found;
    }
  }

  lemma InPlaceIsApart(m: Marks)
    requires Plausible(m) && (RenderInPlace(m) || Harmless(m))
    ensures Apart(m)
  {
    hide FromTick, ToTick, Plausible, RenderInPlace, Harmless;
    forall p, q | 0 <= p < q < PHASES && Timed(m, p) && Timed(m, q)
      ensures ToTick(m, p).value <= FromTick(m, q).value
    {
      assert TicksFollow(m) by { Follows(m); }
      RenderBounds(m);
      if Plain(p) && Plain(q) {
        PlainApart(m, p, q);
      } else if Plain(p) {
        BeforeRender(m, p, q);
      } else if Plain(q) {
        AfterRender(m, p, q);
      } else {
        RenderPairApart(m);
      }
    }
  }

  lemma Follows(m: Marks)
    requires Plausible(m)
    ensures TicksFollow(m)
  {
  }

  /** The other half: a marker out of place and not harmless runs into NETWORK/TLS, into FF-STARTUP, or into ENCODE. */
  lemma RunsInto(m: Marks)
    requires Plausible(m) && !RenderInPlace(m) && !Harmless(m)
    ensures if Free(m).value < Shot(m).value
            then && Timed(m, 10)
                 && ((Timed(m, 8) && ToTick(m, 8).value > FromTick(m, 10).value) ||
                     (Timed(m, 6) && ToTick(m, 6).value > FromTick(m, 10).value))
            else Timed(m, 9) && Timed(m, 11) && ToTick(m, 9).value > FromTick(m, 11).value
  {
    RenderBounds(m);
    PlainBounds(m, 6);
    PlainBounds(m, 8);
    PlainBounds(m, 11);
    assert NoLater(Tick(m, SCREENSHOT), Tick(m, OUT_PNG_OPEN));
    if Free(m).value < Shot(m).value {
      assert TCP in m.found ==> NoLater(Tick(m, TCP), Tick(m, SCREENSHOT));
      assert 5 in m.found && 6 in m.found ==> NoLater(Tick(m, 5), Tick(m, 6));
    } else {
      assert NoLater(Tick(m, OUT_PNG_OPEN), Tick(m, PNG_WRITTEN));
    }
  }

  /** Timed phases keep apart if and only if the render mark is in place or harmless. */
  lemma ApartIff(m: Marks)
    requires Plausible(m)
    ensures Apart(m) <==> RenderInPlace(m) || Harmless(m)
  {
    hide Timed, FromTick, ToTick, Plausible, RenderInPlace, Harmless;
    if RenderInPlace(m) || Harmless(m) {
      InPlaceIsApart(m);
    } else {
      RunsInto(m);
    }
  }

  /** The same for the scan of any log with ticks that never decrease, from any anchor on. */
  lemma PhasesInOrder(start: nat, log: seq<Line>)
    requires TicksRise(log)
    ensures var m := MarksOf(start, log); Apart(m) <==> RenderInPlace(m) || Harmless(m)
  {
    hide TicksRise, Plausible, Apart, RenderInPlace, Harmless, MarksOf;
    LogsArePlausible(start, log);
    ApartIff(MarksOf(start, log));
  }

  // ----- adding up -----

  /** Where the timed phases among the first `n` end, or `base` if there are none. */
  function EndOf(m: Marks, n: nat, base: nat): nat {
    if n == 0 then base else if Timed(m, n - 1) then ToTick(m, n - 1).value else EndOf(m, n - 1, base)
  }

  predicate BeginsFrom(m: Marks, base: nat) {
    forall p :: 0 <= p < PHASES && Timed(m, p) ==> base <= FromTick(m, p).value
  }

  lemma {:induction false} EndsBefore(m: Marks, n: nat, q: nat, base: nat)
    requires Apart(m) && BeginsFrom(m, base) && n <= q < PHASES && Timed(m, q)
    ensures EndOf(m, n, base) <= FromTick(m, q).value
  {
    hide Timed, FromTick, ToTick;
    if n > 0 && !Timed(m, n - 1) {
      EndsBefore(m, n - 1, q, base);
    }
  }

  /** Phases that keep apart and begin no earlier than `base` together take no longer than from there to their end. */
  lemma {:induction false} SumTelescopes(m: Marks, n: nat, base: nat)
    requires Apart(m) && BeginsFrom(m, base) && n <= PHASES
    ensures base * MS_PER_TICK + SumMs(m, n) <= EndOf(m, n, base) * MS_PER_TICK
  {
    hide FromTick, ToTick, Apart, BeginsFrom;
    if n > 0 {
      SumTelescopes(m, n - 1, base);
      if Timed(m, n - 1) {
        EndsBefore(m, n - 1, n - 1, base);
      }
    }
  }

  /** No recorded tick, free-standing marker included, is after `last`. */
  predicate EndsBy(m: Marks, last: Option<nat>) {
    && (forall i :: i in m.found ==> NoLater(Tick(m, i), last))
    && NoLater(Free(m), last)
  }

  lemma LogEnds(start: nat, log: seq<Line>)
    requires TicksRise(log)
    ensures EndsBy(MarksOf(start, log), ScanLog(NextOnly, ANCHORS, start, log).tick)
  {
    hide ScanLog, TickAt, TicksRise, FirstShow;
    var m := MarksOf(start, log);
    HitsStamped(NextOnly, ANCHORS, start, log);
    ShowStamped(ANCHORS, start, RENDER_START, log);
    forall i | i in m.found
      ensures NoLater(Tick(m, i), TickAt(log, |log|))
    {
      TickOrder(log, m.found[i].line, |log|);
    }
    if m.free.Some? {
      TickOrder(log, m.free.value.line, |log|);
    }
  }

  lemma PhaseEnds(m: Marks, last: Option<nat>, p: nat)
    requires EndsBy(m, last) && p < PHASES && Timed(m, p)
    ensures last.Some? && ToTick(m, p).value <= last.value
  {
    RenderBounds(m);
    if Plain(p) {
      PlainBounds(m, p);
    }
  }

  lemma {:induction false} EndWithin(m: Marks, last: nat, n: nat, base: nat)
    requires EndsBy(m, Some(last)) && base <= last && n <= PHASES
    ensures EndOf(m, n, base) <= last
  {
    hide Timed, ToTick, EndsBy;
    if n > 0 {
      if Timed(m, n - 1) {
        PhaseEnds(m, Some(last), n - 1);
      } else {
        EndWithin(m, last, n - 1, base);
      }
    }
  }

  /** RENDER, if it is timed, begins no earlier than the first tick on any anchor. */
  predicate RenderInRun(m: Marks) {
    Timed(m, 10) ==> MinTick(m.found, ANCHORS.n).Some? && MinTick(m.found, ANCHORS.n).value <= FromTick(m, 10).value
  }

  /** A timed phase begins on an anchor's tick; only RENDER may begin on the free-standing marker's. */
  lemma BeginsInRun(m: Marks, p: nat)
    requires RenderInRun(m) && p < PHASES && Timed(m, p)
    ensures MinTick(m.found, ANCHORS.n).Some? && MinTick(m.found, ANCHORS.n).value <= FromTick(m, p).value
  {
    hide MinTick;
    RenderBounds(m);
    MinTickLeast(m.found, ANCHORS.n);
    if p == 9 {
      assert TickOf(Get(m.found, SCREENSHOT)).Some?;
    } else if Plain(p) {
      PlainBounds(m, p);
      assert TickOf(Get(m.found, p - 1)).Some?;
    }
  }

  lemma SumWithin(m: Marks, last: nat, base: nat)
    requires Apart(m) && BeginsFrom(m, base) && EndsBy(m, Some(last)) && base <= last
    ensures SumMs(m, PHASES) <= (last - base) * MS_PER_TICK
  {
    hide Apart, BeginsFrom, EndsBy, SumMs, EndOf;
    SumTelescopes(m, PHASES, base);
    EndWithin(m, last, PHASES, base);
  }

  lemma {:induction false} NoneTimed(m: Marks, n: nat)
    requires forall p :: 0 <= p < n ==> !Timed(m, p)
    ensures SumMs(m, n) == 0
  {
    hide Timed;
    if n > 0 {
      NoneTimed(m, n - 1);
    }
  }

  /**
   * Phases that keep apart, with RENDER begun within the run, together take no longer than the run; and there is a
   * duration for the run if any phase has one.
   */
  lemma MarksFit(m: Marks, s: Scan)
    requires m.found == s.found && EndsBy(m, s.tick) && Apart(m) && RenderInRun(m)
    ensures Fits(m, s)
  {
    hide Apart, EndsBy, RenderInRun, FromTick, ToTick, SumMs, MinTick;
    if p :| 0 <= p < PHASES && Timed(m, p) {
      BeginsInRun(m, p);
      PhaseEnds(m, s.tick, p);
      var lo := MinTick(m.found, ANCHORS.n).value;
      forall q | 0 <= q < PHASES && Timed(m, q)
        ensures lo <= FromTick(m, q).value
      {
        BeginsInRun(m, q);
      }
      SumWithin(m, s.tick.value, lo);
    } else {
      NoneTimed(m, PHASES);
    }
  }

  /** In place, and not before the opening of the PNG if that is the first there is. */
  predicate Settled(m: Marks) {
    && RenderInPlace(m)
    && (RENDER_START !in m.found && Shot(m).None? && Free(m).Some? && Open(m).Some? ==> Open(m).value <= Free(m).value)
  }

  /** A settled render mark is within the run. */
  lemma SettledInRun(m: Marks)
    requires Plausible(m) && Settled(m)
    ensures RenderInRun(m)
  {
    hide MinTick;
    RenderBounds(m);
    MinTickLeast(m.found, ANCHORS.n);
    if Timed(m, 10) {
      assert TickOf(Get(m.found, OUT_PNG_OPEN)).Some?;
      assert RENDER_START in m.found ==> TickOf(Get(m.found, RENDER_START)).Some?;
      assert Shot(m).Some? ==> TickOf(Get(m.found, SCREENSHOT)).Some?;
    }
  }

  // ----- exactly when they fit -----

  /** With a tick at anchor `n` of the boot, the phases up to it take the time from the first anchor tick to it. */
  lemma {:induction false} BootSum(m: Marks, n: nat)
    requires Plausible(m) && SCREENSHOT in m.found && n < TCP
    ensures Tick(m, n).None? ==>
              SumMs(m, n + 1) == 0 && MinTick(m.found, n + 1).None? && forall i :: 0 <= i <= n ==> Tick(m, i).None?
    ensures Tick(m, n).Some? ==>
              && MinTick(m.found, n + 1).Some? && MinTick(m.found, n + 1).value <= Tick(m, n).value
              && SumMs(m, n + 1) == (Tick(m, n).value - MinTick(m.found, n + 1).value) * MS_PER_TICK
  {
    if n == 0 {
      RenderBounds(m);
      assert SumMs(m, 1) == SumMs(m, 0) && SumMs(m, 0) == 0 && MinTick(m.found, 0).None?;
    } else {
      BootSum(m, n - 1);
      PlainBounds(m, n);
      assert n - 1 in m.found ==> n in m.found && NoLater(Tick(m, n - 1), Tick(m, n)) by { assert BootIsWhole(m); }
    }
  }

  /** The boot and the network: up to the screenshot if TCP has a tick, up to libxul if only that has one. */
  lemma ShotSum(m: Marks)
    requires Plausible(m) && SCREENSHOT in m.found && Shot(m).Some?
    ensures var lo := MinTick(m.found, 9);
            && lo.Some? && lo.value <= Shot(m).value
            && SumMs(m, 9) ==
               if Tick(m, TCP).Some? || Tick(m, 6).None? then (Shot(m).value - lo.value) * MS_PER_TICK
               else (Tick(m, 6).value - lo.value) * MS_PER_TICK
  {
    BootSum(m, 6);
    PlainBounds(m, 7);
    PlainBounds(m, 8);
    assert 6 in m.found ==> NoLater(Tick(m, 6), Tick(m, SCREENSHOT));
    assert TCP in m.found ==> NoLater(Tick(m, TCP), Tick(m, SCREENSHOT));
    assert 6 in m.found && TCP in m.found ==> NoLater(Tick(m, 6), Tick(m, TCP));
    assert MinTick(m.found, 8) == if Tick(m, 6).Some? then MinTick(m.found, 7) else Tick(m, TCP);
  }

  /** The tick of the deepest anchor, once the PNG was opened. */
  function LastAnchor(m: Marks): nat {
    if Tick(m, 12).Some? then Tick(m, 12).value
    else if Tick(m, PNG_WRITTEN).Some? then Tick(m, PNG_WRITTEN).value
    else if Open(m).Some? then Open(m).value else 0
  }

  lemma TailSum(m: Marks)
    requires Plausible(m) && OUT_PNG_OPEN in m.found && Open(m).Some?
    ensures Open(m).value <= LastAnchor(m)
    ensures SumMs(m, PHASES) == SumMs(m, 11) + (LastAnchor(m) - Open(m).value) * MS_PER_TICK
  {
    PlainBounds(m, 11);
    PlainBounds(m, 12);
    assert PNG_WRITTEN in m.found ==> NoLater(Tick(m, OUT_PNG_OPEN), Tick(m, PNG_WRITTEN));
    assert 12 in m.found ==> PNG_WRITTEN in m.found && NoLater(Tick(m, PNG_WRITTEN), Tick(m, 12));
    assert SumMs(m, 13) == SumMs(m, 12) + match PhaseMs(m, 12) { case Some(ms) => ms case None => 0 };
  }

  /** Anchors behind the screenshot do not lower the first anchor tick. */
  lemma MinIsEarly(m: Marks)
    requires Plausible(m) && SCREENSHOT in m.found && Shot(m).Some? && MinTick(m.found, 9).Some?
    requires MinTick(m.found, 9).value <= Shot(m).value
    ensures MinTick(m.found, ANCHORS.n) == MinTick(m.found, 9)
  {
    assert forall i :: SCREENSHOT < i < 13 && i in m.found ==> NoLater(Tick(m, SCREENSHOT), Tick(m, i));
    KeepsMin(m, 10);
    KeepsMin(m, 11);
    KeepsMin(m, 12);
    KeepsMin(m, 13);
  }

  lemma KeepsMin(m: Marks, n: nat)
    requires n > 0 && MinTick(m.found, n - 1).Some?
    requires Tick(m, n - 1).Some? ==> MinTick(m.found, n - 1).value <= Tick(m, n - 1).value
    ensures MinTick(m.found, n) == MinTick(m.found, n - 1)
  {
  }

  /**
   * How much an unsettled marker makes the phases count beyond the anchors. Before the screenshot: from the marker to
   * where the timed phases before it end. After the opening of the PNG: from there to the marker, less the time between
   * libxul and the screenshot if, for want of a TCP tick, no phase counts it. Where the opening of the PNG comes first:
   * from the marker to there.
   */
  function Overrun(m: Marks): int {
    if Free(m).None? || Open(m).None? then 0 else
    if Shot(m).None? then Open(m).value - Free(m).value else
    var whole := Tick(m, TCP).Some? || Tick(m, 6).None?;
    if Free(m).value < Shot(m).value
    then (if whole then Shot(m).value else Tick(m, 6).value) - Free(m).value
    else Free(m).value - Open(m).value - (if whole then 0 else Shot(m).value - Tick(m, 6).value)
  }

  /** What the phases add up to with an unsettled marker. */
  lemma StraySum(m: Marks)
    requires Plausible(m) && !Settled(m)
    ensures var lo := MinTick(m.found, ANCHORS.n);
            && lo.Some? && lo.value <= LastAnchor(m)
            && SumMs(m, PHASES) == (LastAnchor(m) + Overrun(m) - lo.value) * MS_PER_TICK
  {
    hide MinTick, LastAnchor, Plausible, Overrun;
    if RenderInPlace(m) {
      EarlySum(m);
    } else {
      LateSum(m);
    }
  }

  lemma LateSum(m: Marks)
    requires Plausible(m) && !RenderInPlace(m)
    ensures var lo := MinTick(m.found, ANCHORS.n);
            && lo.Some? && lo.value <= LastAnchor(m)
            && SumMs(m, PHASES) == (LastAnchor(m) + Overrun(m) - lo.value) * MS_PER_TICK
  {
    hide MinTick, LastAnchor, Plausible;
    assert TicksFollow(m) by { Follows(m); }
    assert SCREENSHOT in m.found && OUT_PNG_OPEN in m.found;
    assert NoLater(Tick(m, SCREENSHOT), Tick(m, OUT_PNG_OPEN));
    ShotSum(m);
    MinIsEarly(m);
    TailSum(m);
    RenderBounds(m);
    RenderSum(m);
  }

  /** Where the opening of the PNG comes first, RENDER begins before the run does. */
  lemma EarlySum(m: Marks)
    requires Plausible(m) && RenderInPlace(m) && !Settled(m)
    ensures var lo := MinTick(m.found, ANCHORS.n);
            && lo.Some? && lo.value <= LastAnchor(m)
            && SumMs(m, PHASES) == (LastAnchor(m) + Overrun(m) - lo.value) * MS_PER_TICK
  {
    hide LastAnchor, SumMs;
    RenderBounds(m);
    TailSum(m);
    assert OUT_PNG_OPEN in m.found && SCREENSHOT !in m.found;
    assert forall i :: 0 <= i < OUT_PNG_OPEN ==> Tick(m, i).None?;
    NoTickBelow(m, OUT_PNG_OPEN);
    assert MinTick(m.found, 11) == Open(m);
    assert PNG_WRITTEN in m.found ==> NoLater(Tick(m, OUT_PNG_OPEN), Tick(m, PNG_WRITTEN));
    assert 12 in m.found ==> NoLater(Tick(m, OUT_PNG_OPEN), Tick(m, 12));
    KeepsMin(m, 12);
    KeepsMin(m, 13);
    forall p | 0 <= p < 10
      ensures !Timed(m, p)
    {
      if Plain(p) {
        PlainBounds(m, p);
      }
    }
    NoneTimed(m, 10);
    assert SumMs(m, 11) == SumMs(m, 10) + (Open(m).value - Free(m).value) * MS_PER_TICK by { RenderAlone(m); }
  }

  lemma {:induction false} NoTickBelow(m: Marks, n: nat)
    requires forall i :: 0 <= i < n ==> Tick(m, i).None?
    ensures MinTick(m.found, n).None?
  {
    if n > 0 {
      NoTickBelow(m, n - 1);
      assert Tick(m, n - 1).None?;
    }
  }

  lemma RenderAlone(m: Marks)
    requires Timed(m, 10) && FromTick(m, 10) == Free(m) && ToTick(m, 10) == Open(m)
    ensures SumMs(m, 11) == SumMs(m, 10) + (Open(m).value - Free(m).value) * MS_PER_TICK
  {
  }

  lemma RenderSum(m: Marks)
    requires !RenderInPlace(m) && Shot(m).value <= Open(m).value
    ensures var s, r, o := Shot(m).value, Free(m).value, Open(m).value;
            SumMs(m, 11) == SumMs(m, 9) + (if r < s then o - r else r - s) * MS_PER_TICK
  {
    RenderBounds(m);
    assert SumMs(m, 11) == SumMs(m, 10) + match PhaseMs(m, 10) { case Some(ms) => ms case None => 0 };
    assert SumMs(m, 10) == SumMs(m, 9) + match PhaseMs(m, 9) { case Some(ms) => ms case None => 0 };
  }

  /** Do the phases together take no longer than the run, and nothing if it has no duration? */
  predicate Fits(m: Marks, s: Scan) {
    match TotalMs(s) case Some(ms) => SumMs(m, PHASES) <= ms case None => SumMs(m, PHASES) == 0
  }

  /**
   * For any log with ticks that never decrease, scanned from any anchor on: the phases fit the run if and only if the
   * render mark is settled, or what it overruns is made up for by the time the log goes on after its deepest anchor.
   */
  lemma PhasesFit(start: nat, log: seq<Line>)
    requires TicksRise(log)
    ensures var m, s := MarksOf(start, log), ScanLog(NextOnly, ANCHORS, start, log);
            Fits(m, s) <==> Settled(m) || (s.tick.Some? && LastAnchor(m) + Overrun(m) <= s.tick.value)
  {
    hide TicksRise, Plausible, Apart, RenderInPlace, Settled, Harmless, RenderInRun, EndsBy, SumMs, LastAnchor, Overrun,
         MinTick, ScanLog, FirstShow;
    var m, s := MarksOf(start, log), ScanLog(NextOnly, ANCHORS, start, log);
    LogsArePlausible(start, log);
    LogEnds(start, log);
    if Settled(m) {
      assert RenderInPlace(m) by { SettledInPlace(m); }
      ApartIff(m);
      SettledInRun(m);
      MarksFit(m, s);
    } else {
      StraySum(m);
      AnchorWithin(m, s.tick);
    }
  }

  lemma SettledInPlace(m: Marks)
    requires Settled(m)
    ensures RenderInPlace(m)
  {
  }

  lemma AnchorWithin(m: Marks, last: Option<nat>)
    requires EndsBy(m, last) && !Settled(m)
    ensures last.Some? && LastAnchor(m) <= last.value
  {
    assert NoLater(Tick(m, OUT_PNG_OPEN), last);
  }

  // ----- exactly when the render phases stay in their place -----

  /** RENDER-SETUP and RENDER, when timed, lie between the screenshot and the opening of the PNG. */
  predicate RenderContained(m: Marks) {
    Shot(m).Some? && Open(m).Some? ==>
      forall p :: 9 <= p <= 10 && Timed(m, p) ==>
        Shot(m).value <= FromTick(m, p).value && ToTick(m, p).value <= Open(m).value
  }

  lemma RenderContainedIff(start: nat, log: seq<Line>)
    requires TicksRise(log)
    ensures RenderContained(MarksOf(start, log)) <==> RenderInPlace(MarksOf(start, log))
  {
    hide ScanLog, TicksRise, FirstShow;
    var m := MarksOf(start, log);
    RenderBounds(m);
    if SCREENSHOT in m.found && OUT_PNG_OPEN in m.found {
      HitTicks(NextOnly, ANCHORS, start, log, SCREENSHOT, OUT_PNG_OPEN);
      if RENDER_START in m.found {
        HitTicks(NextOnly, ANCHORS, start, log, SCREENSHOT, RENDER_START);
        HitTicks(NextOnly, ANCHORS, start, log, RENDER_START, OUT_PNG_OPEN);
      } else if Free(m).Some? && Shot(m).Some? && Open(m).Some? {
        assert Free(m).value < Shot(m).value ==> Timed(m, 10);
        assert Open(m).value < Free(m).value ==> Timed(m, 9);
      }
    }
  }

  /** With no render marker at all, RENDER-SETUP runs to the opening of the PNG and RENDER has no duration. */
  lemma NoMarkerNoRender(start: nat, log: seq<Line>)
    requires RENDER_START !in MarksOf(start, log).found && MarksOf(start, log).free.None?
    ensures var m := MarksOf(start, log);
            PhaseMs(m, 10).None? && ToTick(m, 9) == Tick(m, OUT_PNG_OPEN) && RenderInPlace(m)
  {
    hide MarksOf;
  }

  // ----- what a stray marker does -----

  /** The scan of the first `k` lines. */
  function After(log: seq<Line>, k: nat): Scan
    requires k <= |log|
  {
    ScanLog(NextOnly, ANCHORS, 0, log[..k])
  }

  lemma Reads(log: seq<Line>, k: nat, r: nat)
    requires k < |log| && After(log, k).idx <= r && !Passes(NextOnly, ANCHORS, log[k].matches, r)
    requires forall j :: After(log, k).idx <= j < r ==> Passes(NextOnly, ANCHORS, log[k].matches, j)
    ensures var s, t, l := After(log, k), After(log, k + 1), log[k];
            && t.idx == r && t.lines == s.lines + 1 && t.tick == Latest(s.tick, l.tick)
            && forall j :: 0 <= j < 13 ==>
                 && (j in t.found <==> j in s.found || (s.idx <= j < r && j in l.matches))
                 && (j in t.found ==>
                       t.found[j].tick == if s.idx <= j < r && j in l.matches then t.tick else s.found[j].tick)
  {
    hide ScanLog, Hits, Passes;
    ScanOn(NextOnly, ANCHORS, 0, log, k);
    var a := Advance(NextOnly, ANCHORS, log[k].matches, After(log, k).idx);
    assert a == r;
    forall j | 0 <= j < 13 {
      NewHits(NextOnly, ANCHORS, After(log, k), log[k], j);
    }
  }

  lemma {:induction false} ShowKept(log: seq<Line>, k: nat)
    requires k <= |log| && FirstShow(ANCHORS, 0, RENDER_START, log[..k]).Some?
    ensures FirstShow(ANCHORS, 0, RENDER_START, log) == FirstShow(ANCHORS, 0, RENDER_START, log[..k])
    decreases |log|
  {
    if k == |log| {
      assert log[..k] == log;
    } else {
      assert log[..|log| - 1][..k] == log[..k];
      ShowKept(log[..|log| - 1], k);
    }
  }

  lemma {:induction false} SumHas(m: Marks, p: nat, n: nat)
    requires p < n
    ensures SumMs(m, n) >= match PhaseMs(m, p) { case Some(ms) => ms case None => 0 }
  {
    hide PhaseMs;
    if p < n - 1 {
      SumHas(m, p, n - 1);
    }
  }

  lemma {:induction false} SumHasBoth(m: Marks, p: nat, q: nat, n: nat)
    requires p < q < n && PhaseMs(m, p).Some? && PhaseMs(m, q).Some?
    ensures SumMs(m, n) >= PhaseMs(m, p).value + PhaseMs(m, q).value
  {
    hide PhaseMs;
    if q < n - 1 {
      SumHasBoth(m, p, q, n - 1);
    } else {
      SumHas(m, p, n - 1);
    }
  }

  /** The render marker shows up before anything else; then the boot, the screenshot at tick 100, and the PNG. */
  function StrayLog(): seq<Line> {
    [Showing({9}, Some(0)), Showing({0, 1, 2, 3, 4, 5, 6, 7}, None), Showing({8}, Some(100)), Showing({10}, None)]
  }

  lemma StrayMarks()
    ensures var m, s := MarksOf(0, StrayLog()), ScanLog(NextOnly, ANCHORS, 0, StrayLog());
            && Tick(m, 0) == Some(0) && Tick(m, TCP) == Some(0) && Shot(m) == Some(100) && Open(m) == Some(100)
            && RENDER_START !in m.found && s.tick == Some(100)
  {
    hide ScanLog, FirstShow, Hits, Advance;
    var log := StrayLog();
    Start(NextOnly, ANCHORS, 0, log);
    Reads(log, 0, 0);
    Reads(log, 1, 8);
    Reads(log, 2, 9);
    assert Passes(NextOnly, ANCHORS, log[3].matches, 9) && Passes(NextOnly, ANCHORS, log[3].matches, 10);
    Reads(log, 3, 11);
    assert log[..4] == log;
  }

  lemma StrayFree()
    ensures Free(MarksOf(0, StrayLog())) == Some(0)
  {
    hide ScanLog, Hits, Advance;
    var log := StrayLog();
    Start(NextOnly, ANCHORS, 0, log);
    StartFlags(ANCHORS, 0, RENDER_START, log);
    ShowOn(ANCHORS, 0, RENDER_START, log, 0);
    ScanOn(NextOnly, ANCHORS, 0, log, 0);
    ShowKept(log, 1);
  }

  /**
   * Without the ordered anchor, the free-standing marker can make RENDER overlap NETWORK/TLS and exceed the whole run.
   */
  lemma StrayMarkerInflates()
    ensures var m, total := MarksOf(0, StrayLog()), TotalMs(ScanLog(NextOnly, ANCHORS, 0, StrayLog()));
            TicksRise(StrayLog()) && !Apart(m) && total.Some? && SumMs(m, PHASES) > total.value
  {
    hide ScanLog, FirstShow, SumMs, MinTick;
    var m := MarksOf(0, StrayLog());
    StrayMarks();
    StrayFree();
    RenderBounds(m);
    PlainBounds(m, 8);
    assert Timed(m, 8) && Timed(m, 10) && ToTick(m, 8).value > FromTick(m, 10).value;
    SumHasBoth(m, 8, 10, PHASES);
    MinTickLeast(m.found, ANCHORS.n);
    assert TickOf(Get(m.found, 0)).Some?;
  }

  /** A boot without any tick and without TCP, then the render marker at tick 0, the screenshot at 100, and the PNG. */
  function EarlyLog(): seq<Line> {
    [Showing({0, 1, 2, 3, 4, 5, 6}, None), Showing({9}, Some(0)), Showing({8}, Some(100)), Showing({10}, None)]
  }

  lemma EarlyMarks()
    ensures var m, s := MarksOf(0, EarlyLog()), ScanLog(NextOnly, ANCHORS, 0, EarlyLog());
            && (forall i :: 0 <= i <= TCP ==> Tick(m, i).None?) && Shot(m) == Some(100) && Open(m) == Some(100)
            && (forall i :: 0 <= i < 13 && i in m.found ==> i <= OUT_PNG_OPEN)
            && RENDER_START !in m.found && s.tick == Some(100)
  {
    hide ScanLog, FirstShow, Hits, Advance;
    var log := EarlyLog();
    Start(NextOnly, ANCHORS, 0, log);
    Reads(log, 0, 7);
    Reads(log, 1, 7);
    assert Passes(NextOnly, ANCHORS, log[2].matches, 7);
    Reads(log, 2, 9);
    assert Passes(NextOnly, ANCHORS, log[3].matches, 9) && Passes(NextOnly, ANCHORS, log[3].matches, 10);
    Reads(log, 3, 11);
    assert log[..4] == log;
  }

  lemma EarlyFree()
    ensures Free(MarksOf(0, EarlyLog())) == Some(0)
  {
    hide ScanLog, Hits, Advance;
    var log := EarlyLog();
    Start(NextOnly, ANCHORS, 0, log);
    StartFlags(ANCHORS, 0, RENDER_START, log);
    ShowOn(ANCHORS, 0, RENDER_START, log, 0);
    ShowOn(ANCHORS, 0, RENDER_START, log, 1);
    ScanOn(NextOnly, ANCHORS, 0, log, 0);
    ScanOn(NextOnly, ANCHORS, 0, log, 1);
    ShowKept(log, 2);
  }

  /** A marker that keeps the phases apart but lies before the first anchor tick still makes RENDER exceed the run. */
  lemma EarlyMarkerInflates()
    ensures var m, total := MarksOf(0, EarlyLog()), TotalMs(ScanLog(NextOnly, ANCHORS, 0, EarlyLog()));
            && TicksRise(EarlyLog()) && Harmless(m) && !RenderInPlace(m) && !RenderInRun(m)
            && total.Some? && SumMs(m, PHASES) > total.value
  {
    hide ScanLog, FirstShow, SumMs, MinTick;
    var m := MarksOf(0, EarlyLog());
    EarlyMarks();
    EarlyFree();
    RenderBounds(m);
    assert Timed(m, 10);
    SumHas(m, 10, PHASES);
    MinTickLeast(m.found, ANCHORS.n);
    assert TickOf(Get(m.found, SCREENSHOT)) == Some(100);
    var i :| 0 <= i < ANCHORS.n && TickOf(Get(m.found, i)) == MinTick(m.found, ANCHORS.n);
    assert i > TCP && Tick(m, i) == Some(100);
  }
}
