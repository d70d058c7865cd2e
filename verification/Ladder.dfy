/**
 * Forward-only matching of a log against an ordered ladder of markers, some of them optional. Three scanners do this,
 * each with its own rule for stepping over an optional entry that has not been seen.
 */
module Ladder {
  import opened Octets

  /**
   * Which ladder entries a log line matches, the kernel tick and syscall count it carries, if any, and whether it shows
   * a panic or the PNG magic.
   */
  datatype Line = Line(matches: set<nat>, tick: Option<nat>, sc: Option<nat>, panic: bool, png: bool)

  datatype Rungs = Rungs(n: nat, optional: set<nat>)

  datatype Rule = Strict | NextOnly | AnyDeeper

  datatype Hit = Hit(line: nat, tick: Option<nat>, sc: Option<nat>)

  datatype Scan = Scan(idx: nat, found: map<nat, Hit>, lines: nat, tick: Option<nat>, sc: Option<nat>)

  // ----- what the scanners compute -----

  /** May an unseen optional entry be stepped over on this line? */
  predicate Skips(rule: Rule, lad: Rungs, m: set<nat>, i: nat) {
    match rule
    case Strict => false
    case NextOnly => i in lad.optional && i + 1 < lad.n && i + 1 in m
    case AnyDeeper => i in lad.optional && exists j :: i < j < lad.n && j in m
  }

  predicate Passes(rule: Rule, lad: Rungs, m: set<nat>, i: nat) {
    i < lad.n && (i in m || Skips(rule, lad, m, i))
  }

  function Advance(rule: Rule, lad: Rungs, m: set<nat>, i: nat): (r: nat)
    ensures i <= r && (i <= lad.n ==> r <= lad.n) && !Passes(rule, lad, m, r)
    ensures forall j :: i <= j < r ==> Passes(rule, lad, m, j)
    decreases lad.n - i
  {
    if Passes(rule, lad, m, i) then Advance(rule, lad, m, i + 1) else i
  }

  function Latest(was: Option<nat>, seen: Option<nat>): Option<nat> {
    if seen.Some? then seen else was
  }

  function Hits(m: set<nat>, lo: nat, hi: nat, h: Hit): map<nat, Hit> {
    map j | lo <= j < hi && j in m :: h
  }

  function Feed(rule: Rule, lad: Rungs, s: Scan, l: Line): Scan {
    var idx, tick, sc := Advance(rule, lad, l.matches, s.idx), Latest(s.tick, l.tick), Latest(s.sc, l.sc);
    Scan(idx, s.found + Hits(l.matches, s.idx, idx, Hit(s.lines + 1, tick, sc)), s.lines + 1, tick, sc)
  }

  function ScanLog(rule: Rule, lad: Rungs, start: nat, log: seq<Line>): Scan {
    if log == [] then Scan(start, map[], 0, None, None)
    else Feed(rule, lad, ScanLog(rule, lad, start, log[..|log| - 1]), log[|log| - 1])
  }

  /** The first line that shows `mark`, whatever the cursor makes of it. */
  function FirstShow(lad: Rungs, start: nat, mark: nat, log: seq<Line>): Option<Hit> {
    if log == [] then None else
    var was, l := FirstShow(lad, start, mark, log[..|log| - 1]), log[|log| - 1];
    if was.Some? then was
    else if mark in l.matches then
      var s := ScanLog(NextOnly, lad, start, log);
      Some(Hit(|log|, s.tick, s.sc))
    else None
  }

  predicate Panicked(log: seq<Line>) {
    exists i :: 0 <= i < |log| && log[i].panic
  }

  predicate ShowsPng(log: seq<Line>) {
    exists i :: 0 <= i < |log| && log[i].png
  }

  /** The first tick on any line. */
  function FirstTickOf(log: seq<Line>): Option<nat> {
    if log == [] then None else
    var was := FirstTickOf(log[..|log| - 1]);
    if was.Some? then was else log[|log| - 1].tick
  }

  // ----- the timeline -----

  /** An entry's hit, if any, and the ticks since the last hit before it that carries one. */
  datatype Row = Row(hit: Option<Hit>, dtick: Option<int>)

  function Get(found: map<nat, Hit>, i: nat): Option<Hit> {
    if i in found then Some(found[i]) else None
  }

  function TickOf(h: Option<Hit>): Option<nat> {
    if h.Some? then h.value.tick else None
  }

  /** The tick of the last hit with one among the first `n` entries. */
  function PrevTick(found: map<nat, Hit>, n: nat): Option<nat> {
    if n == 0 then None else Latest(PrevTick(found, n - 1), TickOf(Get(found, n - 1)))
  }

  function RowAt(found: map<nat, Hit>, i: nat): Row {
    var t, prev := TickOf(Get(found, i)), PrevTick(found, i);
    Row(Get(found, i), if t.Some? && prev.Some? then Some(t.value - prev.value) else None)
  }

  predicate IsDeepest(gate: Option<nat>, found: map<nat, Hit>, n: nat) {
    match gate
    case None => forall j :: 0 <= j < n ==> j !in found
    case Some(g) => g < n && g in found && forall j :: g < j < n ==> j !in found
  }

  method Timeline(found: map<nat, Hit>, n: nat) returns (rows: seq<Row>, gate: Option<nat>)
    ensures |rows| == n && forall i :: 0 <= i < n ==> rows[i] == RowAt(found, i)
    ensures IsDeepest(gate, found, n)
  {
    rows, gate := [], None;
    var prev: Option<nat> := None;
    for i := 0 to n
      invariant |rows| == i && forall j :: 0 <= j < i ==> rows[j] == RowAt(found, j)
      invariant prev == PrevTick(found, i) && IsDeepest(gate, found, i)
    {
      var h := Get(found, i);
      var delta := if h.Some? && h.value.tick.Some? && prev.Some? then Some(h.value.tick.value - prev.value) else None;
      if h.Some? && h.value.tick.Some? {
        prev := h.value.tick;
      }
      if h.Some? {
        gate := Some(i);
      }
      rows := rows + [Row(h, delta)];
    }
  }

  // ----- the three scanning loops -----

  lemma HitsOn(m: set<nat>, lo: nat, i: nat, h: Hit, found: map<nat, Hit>)
    requires lo <= i
    ensures i in m ==> (found + Hits(m, lo, i, h))[i := h] == found + Hits(m, lo, i + 1, h)
    ensures i !in m ==> found + Hits(m, lo, i, h) == found + Hits(m, lo, i + 1, h)
  {
    var a, b := Hits(m, lo, i, h), Hits(m, lo, i + 1, h);
    if i in m {
      assert b == a[i := h];
    } else {
      assert b == a;
    }
  }

  lemma NoHits(m: set<nat>, i: nat, h: Hit, found: map<nat, Hit>)
    ensures found + Hits(m, i, i, h) == found
  {
  }

  lemma ScanOn(rule: Rule, lad: Rungs, start: nat, log: seq<Line>, i: nat)
    requires i < |log|
    ensures ScanLog(rule, lad, start, log[..i + 1]) == Feed(rule, lad, ScanLog(rule, lad, start, log[..i]), log[i])
  {
    assert log[..i + 1][..i] == log[..i];
  }

  lemma FlagsOn(log: seq<Line>, i: nat)
    requires i < |log|
    ensures Panicked(log[..i + 1]) <==> Panicked(log[..i]) || log[i].panic
    ensures ShowsPng(log[..i + 1]) <==> ShowsPng(log[..i]) || log[i].png
    ensures FirstTickOf(log[..i + 1]) == if FirstTickOf(log[..i]).Some? then FirstTickOf(log[..i]) else log[i].tick
  {
    var q, r := log[..i], log[..i + 1];
    assert r[..i] == q && r[i] == log[i];
    assert forall j :: 0 <= j < i ==> q[j] == r[j];
  }

  lemma ShowOn(lad: Rungs, start: nat, mark: nat, log: seq<Line>, i: nat)
    requires i < |log|
    ensures var was, s := FirstShow(lad, start, mark, log[..i]), ScanLog(NextOnly, lad, start, log[..i + 1]);
            FirstShow(lad, start, mark, log[..i + 1]) ==
            if was.None? && mark in log[i].matches then Some(Hit(i + 1, s.tick, s.sc)) else was
  {
    hide ScanLog;
    assert log[..i + 1][..i] == log[..i];
  }

  lemma Start(rule: Rule, lad: Rungs, start: nat, log: seq<Line>)
    ensures ScanLog(rule, lad, start, log[..0]) == Scan(start, map[], 0, None, None)
  {
  }

  lemma StartFlags(lad: Rungs, start: nat, mark: nat, log: seq<Line>)
    ensures !Panicked(log[..0]) && !ShowsPng(log[..0]) && FirstTickOf(log[..0]).None?
    ensures FirstShow(lad, start, mark, log[..0]).None?
  {
  }

  /**
   * Phase boundaries: an unseen optional anchor is stepped over only when the very next anchor is on this line. The
   * flags and the first line that shows the render marker `mark` do not depend on the cursor.
   */
  method ScanPhaseBoundaries(lad: Rungs, mark: nat, log: seq<Line>, start: nat)
    returns (s: Scan, deepest: Option<nat>, panic: bool, png: bool, render: Option<Hit>)
    ensures s == ScanLog(NextOnly, lad, start, log)
    ensures deepest == if s.idx > start then Some(s.idx - 1) else None
    ensures panic == Panicked(log) && png == ShowsPng(log) && render == FirstShow(lad, start, mark, log)
  {
    hide ScanLog, Hits, FirstShow, Panicked, ShowsPng, FirstTickOf;
    var idx: nat, found: map<nat, Hit>, tick, sc := start, map[], None, None;
    panic, png, render := false, false, None;
    Start(NextOnly, lad, start, log);
    StartFlags(lad, start, mark, log);
    for n := 0 to |log|
      invariant Scan(idx, found, n, tick, sc) == ScanLog(NextOnly, lad, start, log[..n])
      invariant panic == Panicked(log[..n]) && png == ShowsPng(log[..n])
      invariant render == FirstShow(lad, start, mark, log[..n])
    {
      var m := log[n].matches;
      tick, sc := Latest(tick, log[n].tick), Latest(sc, log[n].sc);
      if !panic && log[n].panic {
        panic := true;
      }
      if !png && log[n].png {
        png := true;
      }
      var h := Hit(n + 1, tick, sc);
      if render.None? && mark in m {
        render := Some(h);
      }
      FlagsOn(log, n);
      ShowOn(lad, start, mark, log, n);
      ghost var lo, was := idx, found;
      NoHits(m, lo, h, was);
      while idx < lad.n
        invariant lo <= idx && found == was + Hits(m, lo, idx, h)
        invariant Advance(NextOnly, lad, m, idx) == Advance(NextOnly, lad, m, lo)
        decreases lad.n - idx
      {
        HitsOn(m, lo, idx, h, was);
        if idx in m {
          found := found[idx := h];
          idx := idx + 1;
          continue;
        }
        if idx in lad.optional && idx + 1 < lad.n && idx + 1 in m {
          idx := idx + 1;
          continue;
        }
        break;
      }
      assert idx == Advance(NextOnly, lad, m, lo);
      ScanOn(NextOnly, lad, start, log, n);
    }
    assert log[..|log|] == log;
    s := Scan(idx, found, |log|, tick, sc);
    deepest := if idx > start then Some(idx - 1) else None;
  }

  /** Milestone progress: an unseen optional milestone is stepped over when any deeper one is on this line. */
  method ScanProgress(lad: Rungs, log: seq<Line>)
    returns (s: Scan, timeline: seq<Row>, gate: Option<nat>, firstTick: Option<nat>, panic: bool)
    ensures s == ScanLog(AnyDeeper, lad, 0, log)
    ensures |timeline| == lad.n && forall i :: 0 <= i < lad.n ==> timeline[i] == RowAt(s.found, i)
    ensures IsDeepest(gate, s.found, lad.n)
    ensures firstTick == FirstTickOf(log) && panic == Panicked(log)
  {
    hide ScanLog, Hits, FirstTickOf, Panicked, ShowsPng, RowAt, IsDeepest;
    var idx: nat, found: map<nat, Hit>, tick, sc := 0, map[], None, None;
    firstTick, panic := None, false;
    Start(AnyDeeper, lad, 0, log);
    StartFlags(lad, 0, 0, log);
    for n := 0 to |log|
      invariant Scan(idx, found, n, tick, sc) == ScanLog(AnyDeeper, lad, 0, log[..n])
      invariant firstTick == FirstTickOf(log[..n]) && panic == Panicked(log[..n])
    {
      var m := log[n].matches;
      if firstTick.None? {
        firstTick := log[n].tick;
      }
      if !panic && log[n].panic {
        panic := true;
      }
      FlagsOn(log, n);
      tick, sc := Latest(tick, log[n].tick), Latest(sc, log[n].sc);
      var h := Hit(n + 1, tick, sc);
      ghost var lo, was := idx, found;
      NoHits(m, lo, h, was);
      while idx < lad.n
        invariant lo <= idx && found == was + Hits(m, lo, idx, h)
        invariant Advance(AnyDeeper, lad, m, idx) == Advance(AnyDeeper, lad, m, lo)
        decreases lad.n - idx
      {
        HitsOn(m, lo, idx, h, was);
        if idx in m {
          found := found[idx := h];
          idx := idx + 1;
          continue;
        }
        if idx in lad.optional && exists j :: idx < j < lad.n && j in m {
          idx := idx + 1;
          continue;
        }
        break;
      }
      assert idx == Advance(AnyDeeper, lad, m, lo);
      ScanOn(AnyDeeper, lad, 0, log, n);
    }
    assert log[..|log|] == log;
    s := Scan(idx, found, |log|, tick, sc);
    timeline, gate := Timeline(found, lad.n);
  }

  /** The fallback timeline: no entry is ever stepped over. */
  method FallbackTimeline(lad: Rungs, log: seq<Line>) returns (timeline: seq<Row>, firstTick: nat)
    ensures |timeline| == lad.n
    ensures forall i :: 0 <= i < lad.n ==> timeline[i] == RowAt(ScanLog(Strict, lad, 0, log).found, i)
    ensures firstTick == if FirstTickOf(log).Some? then FirstTickOf(log).value else 0
  {
    hide ScanLog, Hits, FirstTickOf, Panicked, ShowsPng, RowAt, IsDeepest;
    var idx: nat, found: map<nat, Hit>, tick, sc := 0, map[], None, None;
    var seen: Option<nat> := None;
    Start(Strict, lad, 0, log);
    StartFlags(lad, 0, 0, log);
    for n := 0 to |log|
      invariant Scan(idx, found, n, tick, sc) == ScanLog(Strict, lad, 0, log[..n])
      invariant seen == FirstTickOf(log[..n])
    {
      var m := log[n].matches;
      if seen.None? {
        seen := log[n].tick;
      }
      FlagsOn(log, n);
      tick, sc := Latest(tick, log[n].tick), Latest(sc, log[n].sc);
      var h := Hit(n + 1, tick, sc);
      ghost var lo, was := idx, found;
      NoHits(m, lo, h, was);
      while idx < lad.n && idx in m
        invariant lo <= idx && found == was + Hits(m, lo, idx, h)
        invariant Advance(Strict, lad, m, idx) == Advance(Strict, lad, m, lo)
        decreases lad.n - idx
      {
        HitsOn(m, lo, idx, h, was);
        found := found[idx := h];
        idx := idx + 1;
      }
      assert idx == Advance(Strict, lad, m, lo);
      ScanOn(Strict, lad, 0, log, n);
    }
    assert log[..|log|] == log;
    firstTick := if seen.Some? then seen.value else 0;
    var gate;
    timeline, gate := Timeline(found, lad.n);
  }

  // ----- what a timeline adds up to -----

  function Deltas(found: map<nat, Hit>, n: nat): int {
    if n == 0 then 0 else
    Deltas(found, n - 1) + match RowAt(found, n - 1).dtick { case Some(d) => d case None => 0 }
  }

  /** The tick of the first hit with one among the first `n` entries. */
  function LeadTick(found: map<nat, Hit>, n: nat): Option<nat> {
    if n == 0 then None else
    if LeadTick(found, n - 1).Some? then LeadTick(found, n - 1) else TickOf(Get(found, n - 1))
  }

  /** The timeline's differences add up to the whole span of its ticks. */
  lemma {:induction false} DeltasAddUp(found: map<nat, Hit>, n: nat)
    ensures LeadTick(found, n).Some? <==> PrevTick(found, n).Some?
    ensures Deltas(found, n) ==
            if LeadTick(found, n).Some? then PrevTick(found, n).value - LeadTick(found, n).value else 0
  {
    if n > 0 {
      DeltasAddUp(found, n - 1);
    }
  }

  // ----- ticks along the log -----

  predicate TicksRise(log: seq<Line>) {
    forall i, j :: 0 <= i < j < |log| && log[i].tick.Some? && log[j].tick.Some? ==>
      log[i].tick.value <= log[j].tick.value
  }

  /** The latest kernel tick at or before line `n`. */
  function TickAt(log: seq<Line>, n: nat): Option<nat>
    requires n <= |log|
  {
    if n == 0 then None else Latest(TickAt(log, n - 1), log[n - 1].tick)
  }

  predicate NoLater(x: Option<nat>, y: Option<nat>) {
    x.Some? ==> y.Some? && x.value <= y.value
  }

  lemma {:induction false} TickFrom(log: seq<Line>, n: nat)
    requires n <= |log| && TickAt(log, n).Some?
    ensures exists i :: 0 <= i < n && log[i].tick == TickAt(log, n)
  {
    if log[n - 1].tick.None? {
      TickFrom(log, n - 1);
    }
  }

  lemma {:induction false} TickOrder(log: seq<Line>, m: nat, n: nat)
    requires m <= n <= |log| && TicksRise(log)
    ensures NoLater(TickAt(log, m), TickAt(log, n))
  {
    if m < n {
      TickOrder(log, m, n - 1);
      if log[n - 1].tick.Some? && TickAt(log, n - 1).Some? {
        TickFrom(log, n - 1);
      }
    }
  }

  lemma {:induction false} TickPrefix(log: seq<Line>, n: nat, k: nat)
    requires n <= k <= |log|
    ensures TickAt(log[..k], n) == TickAt(log, n)
  {
    if n > 0 {
      TickPrefix(log, n - 1, k);
    }
  }

  predicate Stamped(log: seq<Line>, h: Hit) {
    1 <= h.line <= |log| && h.tick == TickAt(log, h.line)
  }

  /** Every recorded hit carries the tick of its line. */
  lemma {:induction false} HitsStamped(rule: Rule, lad: Rungs, start: nat, log: seq<Line>)
    ensures var s := ScanLog(rule, lad, start, log);
            && s.tick == TickAt(log, |log|)
            && (forall j :: j in s.found ==> Stamped(log, s.found[j]))
  {
    hide Hits, Advance;
    if log != [] {
      var q, l := log[..|log| - 1], log[|log| - 1];
      HitsStamped(rule, lad, start, q);
      ScanSound(rule, lad, start, q);
      var s, t := ScanLog(rule, lad, start, q), ScanLog(rule, lad, start, log);
      TickPrefix(log, |q|, |q|);
      forall j | j in t.found
        ensures Stamped(log, t.found[j])
      {
        NewHits(rule, lad, s, l, j);
        if j in s.found && t.found[j] == s.found[j] {
          TickPrefix(log, s.found[j].line, |q|);
        }
      }
    }
  }

  lemma {:induction false} ShowStamped(lad: Rungs, start: nat, mark: nat, log: seq<Line>)
    ensures var h := FirstShow(lad, start, mark, log);
            h.Some? ==> Stamped(log, h.value) && mark in log[h.value.line - 1].matches
  {
    hide ScanLog;
    if log != [] {
      var q := log[..|log| - 1];
      ShowStamped(lad, start, mark, q);
      if FirstShow(lad, start, mark, q).Some? {
        TickPrefix(log, FirstShow(lad, start, mark, q).value.line, |q|);
      } else {
        HitsStamped(NextOnly, lad, start, log);
      }
    }
  }

  /** Along the ladder, recorded ticks never decrease, and once there is a tick every deeper hit has one. */
  lemma HitTicks(rule: Rule, lad: Rungs, start: nat, log: seq<Line>, i: nat, j: nat)
    requires TicksRise(log)
    requires var f := ScanLog(rule, lad, start, log).found; i in f && j in f && i < j
    ensures var f := ScanLog(rule, lad, start, log).found; NoLater(f[i].tick, f[j].tick)
  {
    hide ScanLog, TickAt, TicksRise, Covered;
    var f := ScanLog(rule, lad, start, log).found;
    ScanSound(rule, lad, start, log);
    HitsStamped(rule, lad, start, log);
    TickOrder(log, f[i].line, f[j].line);
  }

  lemma {:induction false} PrevIsHit(found: map<nat, Hit>, n: nat)
    requires PrevTick(found, n).Some?
    ensures exists i :: 0 <= i < n && TickOf(Get(found, i)) == PrevTick(found, n)
  {
    if TickOf(Get(found, n - 1)).None? {
      PrevIsHit(found, n - 1);
    }
  }

  /** With ticks that never decrease, no difference on a timeline is negative. */
  lemma DeltasRise(rule: Rule, lad: Rungs, start: nat, log: seq<Line>, i: nat)
    requires TicksRise(log)
    ensures var d := RowAt(ScanLog(rule, lad, start, log).found, i).dtick; d.Some? ==> d.value >= 0
  {
    hide ScanLog, TicksRise;
    var f := ScanLog(rule, lad, start, log).found;
    if RowAt(f, i).dtick.Some? {
      PrevIsHit(f, i);
      var j :| 0 <= j < i && TickOf(Get(f, j)) == PrevTick(f, i);
      HitTicks(rule, lad, start, log, j, i);
    }
  }

  // ----- how the rules compare -----

  predicate Weaker(r1: Rule, r2: Rule) {
    r1 == r2 || r1.Strict? || r2.AnyDeeper?
  }

  lemma {:induction false} AdvanceOrder(r1: Rule, r2: Rule, lad: Rungs, m: set<nat>, i1: nat, i2: nat)
    requires Weaker(r1, r2) && i1 <= i2
    ensures Advance(r1, lad, m, i1) <= Advance(r2, lad, m, i2)
  {
    hide Advance, Passes;
    PassesWeaker(r1, r2, lad, m, Advance(r2, lad, m, i2));
  }

  lemma PassesWeaker(r1: Rule, r2: Rule, lad: Rungs, m: set<nat>, i: nat)
    requires Weaker(r1, r2)
    ensures Passes(r1, lad, m, i) ==> Passes(r2, lad, m, i)
  {
  }

  /** On one ladder and any log, the cursor of a laxer scanner is never behind that of a stricter one. */
  lemma {:induction false} CursorOrder(r1: Rule, r2: Rule, lad: Rungs, start: nat, log: seq<Line>)
    requires Weaker(r1, r2)
    ensures ScanLog(r1, lad, start, log).idx <= ScanLog(r2, lad, start, log).idx
  {
    hide Hits, Advance;
    if log != [] {
      var q, l := log[..|log| - 1], log[|log| - 1];
      CursorOrder(r1, r2, lad, start, q);
      AdvanceOrder(r1, r2, lad, l.matches, ScanLog(r1, lad, start, q).idx, ScanLog(r2, lad, start, q).idx);
    }
  }

  // ----- safety -----

  /** May the entries `i` and `i + 1` both be left out, as far as the rule is concerned? */
  predicate GapAllowed(rule: Rule, seen: set<nat>, i: nat) {
    match rule
    case Strict => i in seen
    case NextOnly => i in seen || i + 1 in seen
    case AnyDeeper => true
  }

  /** Every hit is of an entry passed, from a line that shows it, and the hits' lines follow ladder order. */
  predicate Ordered(start: nat, log: seq<Line>, s: Scan) {
    && s.lines == |log| && start <= s.idx
    && (forall j :: j in s.found ==>
          start <= j < s.idx && 1 <= s.found[j].line <= |log| && j in log[s.found[j].line - 1].matches)
    && (forall i, j :: i in s.found && j in s.found && i < j ==> s.found[i].line <= s.found[j].line)
  }

  /** Of the entries passed, only optional ones are missing, and only as the rule allows. */
  predicate Covered(rule: Rule, lad: Rungs, start: nat, s: Scan) {
    && (forall j :: start <= j < s.idx && j !in lad.optional ==> j in s.found)
    && (forall j :: start <= j && j + 1 < s.idx ==> GapAllowed(rule, s.found.Keys, j))
    && (!rule.AnyDeeper? && start < s.idx ==> s.idx - 1 in s.found)
  }

  predicate Sound(rule: Rule, lad: Rungs, start: nat, log: seq<Line>, s: Scan) {
    Ordered(start, log, s) && Covered(rule, lad, start, s)
  }

  lemma NewHits(rule: Rule, lad: Rungs, s: Scan, l: Line, j: nat)
    ensures var t := Feed(rule, lad, s, l);
            && (j in t.found <==> j in s.found || (s.idx <= j < t.idx && j in l.matches))
            && (j in t.found ==>
                  t.found[j] ==
                  if s.idx <= j < t.idx && j in l.matches then Hit(s.lines + 1, t.tick, t.sc) else s.found[j])
  {
    hide Advance, Passes;
  }

  lemma OrderedOn(rule: Rule, lad: Rungs, start: nat, log: seq<Line>, s: Scan, l: Line)
    requires Ordered(start, log, s)
    ensures Ordered(start, log + [l], Feed(rule, lad, s, l))
  {
    hide Hits, Passes, Advance;
    var t, all := Feed(rule, lad, s, l), log + [l];
    forall j | j in t.found
      ensures start <= j < t.idx && 1 <= t.found[j].line <= |all| && j in all[t.found[j].line - 1].matches
    {
      NewHits(rule, lad, s, l, j);
    }
    forall i, j | i in t.found && j in t.found && i < j
      ensures t.found[i].line <= t.found[j].line
    {
      NewHits(rule, lad, s, l, i);
      NewHits(rule, lad, s, l, j);
    }
  }

  lemma CoveredOn(rule: Rule, lad: Rungs, start: nat, log: seq<Line>, s: Scan, l: Line)
    requires Sound(rule, lad, start, log, s)
    ensures Covered(rule, lad, start, Feed(rule, lad, s, l))
  {
    hide Hits, Advance, GapAllowed;
    var t := Feed(rule, lad, s, l);
    forall j | start <= j < t.idx && j !in lad.optional
      ensures j in t.found
    {
      NewHits(rule, lad, s, l, j);
      if s.idx <= j {
        assert Passes(rule, lad, l.matches, j);
      }
    }
    forall j | start <= j && j + 1 < t.idx
      ensures GapAllowed(rule, t.found.Keys, j)
    {
      GapKept(rule, lad, start, log, s, l, j);
    }
    if start < t.idx {
      NewHits(rule, lad, s, l, t.idx - 1);
      if s.idx < t.idx {
        assert Passes(rule, lad, l.matches, t.idx - 1);
      }
    }
  }

  lemma GapKept(rule: Rule, lad: Rungs, start: nat, log: seq<Line>, s: Scan, l: Line, j: nat)
    requires Sound(rule, lad, start, log, s) && start <= j && j + 1 < Feed(rule, lad, s, l).idx
    ensures GapAllowed(rule, Feed(rule, lad, s, l).found.Keys, j)
  {
    hide Hits;
    var t := Feed(rule, lad, s, l);
    NewHits(rule, lad, s, l, j);
    NewHits(rule, lad, s, l, j + 1);
    if j >= s.idx {
      assert Passes(rule, lad, l.matches, j) && Passes(rule, lad, l.matches, j + 1);
    } else if j + 1 < s.idx {
      assert GapAllowed(rule, s.found.Keys, j);
    }
  }

  lemma {:induction false} ScanSound(rule: Rule, lad: Rungs, start: nat, log: seq<Line>)
    ensures Sound(rule, lad, start, log, ScanLog(rule, lad, start, log))
  {
    hide Ordered, Covered, Feed;
    if log == [] {
      StartSound(rule, lad, start);
    } else {
      var q, l := log[..|log| - 1], log[|log| - 1];
      ScanSound(rule, lad, start, q);
      OrderedOn(rule, lad, start, q, ScanLog(rule, lad, start, q), l);
      CoveredOn(rule, lad, start, q, ScanLog(rule, lad, start, q), l);
      assert log == q + [l];
    }
  }

  lemma StartSound(rule: Rule, lad: Rungs, start: nat)
    ensures Sound(rule, lad, start, [], Scan(start, map[], 0, None, None))
  {
  }

  // ----- completeness -----

  /**
   * The log contains, in ladder order and whatever else surrounds them, lines for a chain of entries up to `t` that
   * leaves out only optional ones, and only as the rule allows; `at` says which line shows which entry.
   */
  predicate Embeds(rule: Rule, lad: Rungs, start: nat, log: seq<Line>, t: nat, at: map<nat, nat>) {
    && start <= t < lad.n && t in at
    && (forall j :: j in at ==> start <= j <= t && at[j] < |log| && j in log[at[j]].matches)
    && (forall i, j :: i in at && j in at && i < j ==> at[i] <= at[j])
    && (forall j :: start <= j < t && j !in at ==> j in lad.optional && GapAllowed(rule, at.Keys, j))
  }

  /** After line `k`, the cursor is past every entry the chain has shown by then. */
  predicate PastChain(rule: Rule, lad: Rungs, start: nat, log: seq<Line>, at: map<nat, nat>, k: nat)
    requires k <= |log|
  {
    forall j :: j in at && at[j] < k ==> ScanLog(rule, lad, start, log[..k]).idx > j
  }

  lemma PastEntry(rule: Rule, lad: Rungs, start: nat, log: seq<Line>, t: nat, at: map<nat, nat>, k: nat, e: nat)
    requires Embeds(rule, lad, start, log, t, at) && k < |log| && PastChain(rule, lad, start, log, at, k)
    requires e in at && at[e] <= k
    ensures ScanLog(rule, lad, start, log[..k + 1]).idx > e
  {
    hide ScanLog, Hits, Advance;
    ScanOn(rule, lad, start, log, k);
    CursorAtLeast(rule, lad, start, log, k);
    var was, m := ScanLog(rule, lad, start, log[..k]).idx, log[k].matches;
    forall j | was <= j <= e
      ensures Passes(rule, lad, m, j)
    {
      assert j in at ==> at[j] == k;
      assert j + 1 in at && j < e ==> at[j + 1] == k;
    }
  }

  lemma {:induction false} CursorAtLeast(rule: Rule, lad: Rungs, start: nat, log: seq<Line>, k: nat)
    requires k <= |log|
    ensures ScanLog(rule, lad, start, log[..k]).idx >= start
  {
    ScanSound(rule, lad, start, log[..k]);
  }

  lemma {:induction false} PastWholeChain(rule: Rule, lad: Rungs, start: nat, log: seq<Line>, t: nat,
                                          at: map<nat, nat>, k: nat)
    requires Embeds(rule, lad, start, log, t, at) && k <= |log|
    ensures PastChain(rule, lad, start, log, at, k)
  {
    hide ScanLog, Embeds;
    if k > 0 {
      PastWholeChain(rule, lad, start, log, t, at, k - 1);
      forall j | j in at && at[j] < k
        ensures ScanLog(rule, lad, start, log[..k]).idx > j
      {
        PastEntry(rule, lad, start, log, t, at, k - 1, j);
      }
    }
  }

  /** Greedy completeness: whatever noise surrounds the chain, the cursor ends past its last entry. */
  lemma Complete(rule: Rule, lad: Rungs, start: nat, log: seq<Line>, t: nat, at: map<nat, nat>)
    requires Embeds(rule, lad, start, log, t, at)
    ensures ScanLog(rule, lad, start, log).idx > t
  {
    hide ScanLog;
    PastWholeChain(rule, lad, start, log, t, at, |log|);
    assert log[..|log|] == log;
  }

  /**
   * Greedy is optimal: a required entry is reached if and only if the log contains some admissible chain up to it,
   * and then it is recorded.
   */
  lemma GreedyIsOptimal(rule: Rule, lad: Rungs, start: nat, log: seq<Line>, t: nat)
    requires start <= t < lad.n && t !in lad.optional
    ensures ScanLog(rule, lad, start, log).idx > t <==> exists at :: Embeds(rule, lad, start, log, t, at)
    ensures ScanLog(rule, lad, start, log).idx > t <==> t in ScanLog(rule, lad, start, log).found
  {
    hide ScanLog, Embeds;
    ScanSound(rule, lad, start, log);
    var s := ScanLog(rule, lad, start, log);
    if s.idx > t {
      var at := ChainFound(rule, lad, start, log, s, t);
    }
    forall at | Embeds(rule, lad, start, log, t, at) {
      Complete(rule, lad, start, log, t, at);
    }
  }

  lemma ChainFound(rule: Rule, lad: Rungs, start: nat, log: seq<Line>, s: Scan, t: nat) returns (at: map<nat, nat>)
    requires Sound(rule, lad, start, log, s) && start <= t < lad.n && t !in lad.optional && s.idx > t
    ensures Embeds(rule, lad, start, log, t, at)
  {
    at := map j | j in s.found && j <= t :: (s.found[j].line - 1) as int;
    forall j | start <= j < t && j !in at
      ensures j in lad.optional && GapAllowed(rule, at.Keys, j)
    {
      assert GapAllowed(rule, s.found.Keys, j);
    }
  }

  // ----- the two ladders -----

  /**
   * firmware_start, bootloader, apic, blk_probe, x11_ready, ff_launch, libxul, tcp?, screenshot?, render_start?,
   * out_png_open?, png_written, exit_group.
   */
  const ANCHORS := Rungs(13, {7, 8, 9, 10})

  const TCP := 7
  const SCREENSHOT := 8
  const RENDER_START := 9
  const OUT_PNG_OPEN := 10
  const PNG_WRITTEN := 11

  /**
   * kernel entry, ..., init? at 6, ..., TLS? at 9, content procs, screenshot-actors?, drawSnapshot?, PNG write,
   * exit_group.
   */
  const MILESTONES := Rungs(15, {6, 9, 11, 12})

  /** The log shows the required milestones up to `t` on lines in ladder order; `at` says where. */
  predicate ShowsRequired(lad: Rungs, log: seq<Line>, t: nat, at: map<nat, nat>) {
    && (forall j :: 0 <= j <= t && j !in lad.optional ==> j in at)
    && (forall j :: j in at ==> j <= t && j !in lad.optional && at[j] < |log| && j in log[at[j]].matches)
    && (forall i, j :: i in at && j in at && i < j ==> at[i] <= at[j])
  }

  /**
   * What is documented of the milestones holds: a required one is reached if and only if the required ones up to it
   * come in order, and no optional one, absent or out of order, makes a difference.
   */
  lemma MilestonesNeverStall(log: seq<Line>, t: nat)
    requires t < MILESTONES.n && t !in MILESTONES.optional
    ensures t in ScanLog(AnyDeeper, MILESTONES, 0, log).found <==> exists at :: ShowsRequired(MILESTONES, log, t, at)
  {
    hide ScanLog;
    GreedyIsOptimal(AnyDeeper, MILESTONES, 0, log, t);
    forall at | Embeds(AnyDeeper, MILESTONES, 0, log, t, at)
      ensures exists at' :: ShowsRequired(MILESTONES, log, t, at')
    {
      var at' := map j | j in at && j !in MILESTONES.optional :: at[j];
      assert ShowsRequired(MILESTONES, log, t, at');
    }
    forall at | ShowsRequired(MILESTONES, log, t, at)
      ensures Embeds(AnyDeeper, MILESTONES, 0, log, t, at)
    {
    }
  }

  /** With the lookahead of one, two neighbouring entries that no line shows block the cursor, optional or not. */
  lemma {:induction false} NeighboursBlock(lad: Rungs, start: nat, log: seq<Line>, i: nat)
    requires start <= i < lad.n
    requires forall k :: 0 <= k < |log| ==> i !in log[k].matches && i + 1 !in log[k].matches
    ensures ScanLog(NextOnly, lad, start, log).idx <= i
  {
    hide Hits, Advance;
    if log != [] {
      var q, l := log[..|log| - 1], log[|log| - 1];
      NeighboursBlock(lad, start, q, i);
      assert !Passes(NextOnly, lad, l.matches, i);
    }
  }

  function Showing(matches: set<nat>, tick: Option<nat>): Line {
    Line(matches, tick, None, false, false)
  }

  /** A log that shows every required anchor, in order, and no optional one. */
  function NoOptionals(): seq<Line> {
    [Showing({0, 1, 2, 3, 4, 5, 6}, None), Showing({PNG_WRITTEN}, None), Showing({12}, None)]
  }

  predicate RequiredAnchor(j: nat) {
    j < TCP || j >= PNG_WRITTEN
  }

  lemma NoOptionalsEmbeds()
    ensures exists at :: Embeds(AnyDeeper, ANCHORS, 0, NoOptionals(), 12, at)
  {
    var log := NoOptionals();
    var at := map j: nat | j <= 12 && RequiredAnchor(j) :: (if j < TCP then 0 else j - 10) as nat;
    assert forall j :: 0 <= j < 12 && j !in at ==> j in ANCHORS.optional;
    assert Embeds(AnyDeeper, ANCHORS, 0, log, 12, at);
  }

  /**
   * The anchor table is documented as one in which a missing optional anchor never stalls the required ones behind it.
   * It does when two neighbours are missing: here the PNG is written but its anchor is never recorded, while the rule
   * that looks at any deeper entry reaches the end.
   */
  lemma MissingOptionalsStall()
    ensures PNG_WRITTEN !in ScanLog(NextOnly, ANCHORS, 0, NoOptionals()).found
    ensures 12 in ScanLog(AnyDeeper, ANCHORS, 0, NoOptionals()).found
  {
    hide ScanLog, Embeds;
    var log := NoOptionals();
    NeighboursBlock(ANCHORS, 0, log, TCP);
    GreedyIsOptimal(NextOnly, ANCHORS, 0, log, PNG_WRITTEN);
    NoOptionalsEmbeds();
    GreedyIsOptimal(AnyDeeper, ANCHORS, 0, log, 12);
  }
}
