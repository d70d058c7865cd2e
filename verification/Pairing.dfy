/** Pairing of syscall entry and return lines from interleaved threads. */
module Pairing {
  import opened Octets
  import opened Syscalls

  /** A serial-log line, already recognised: a syscall entry, a syscall return with its raw 64-bit value, or neither. */
  datatype Event = Entry(key: CallKey, fields: Fields) | Ret(key: CallKey, raw: nat) | Noise

  // ----- what is meant -----

  const TWO63 := 0x8000_0000_0000_0000
  const TWO64 := 0x1_0000_0000_0000_0000

  function SignExtend(raw: nat): int {
    if raw / TWO63 % 2 == 1 then raw - TWO64 else raw
  }

  /** The signed value is the two's-complement reading of the raw one. */
  lemma SignExtendIsTwosComplement(raw: nat)
    requires raw < TWO64
    ensures -TWO63 <= SignExtend(raw) < TWO63
    ensures SignExtend(raw) == raw || SignExtend(raw) + TWO64 == raw
    ensures SignExtend(raw) < 0 <==> raw >= TWO63
  {
  }

  predicate Concerns(e: Event, k: CallKey) {
    !e.Noise? && e.key == k
  }

  /** What the next line for `k` says: a return's value, or nothing if that line is another entry or is not there. */
  function RetAfter(rest: seq<Event>, k: CallKey): Option<int> {
    if rest == [] then None
    else if Concerns(rest[0], k) then (if rest[0].Ret? then Some(SignExtend(rest[0].raw)) else None)
    else RetAfter(rest[1..], k)
  }

  /** One record per entry line, in log order, with the return its next line shows. */
  function Paired(log: seq<Event>): seq<Call> {
    if log == [] then []
    else if log[0].Entry? then
      [Call(log[0].key, log[0].fields, RetAfter(log[1..], log[0].key), None)] + Paired(log[1..])
    else Paired(log[1..])
  }

  predicate Wanted(pid: nat, filter: Option<nat>) {
    filter.None? || filter.value == pid
  }

  function Keep(cs: seq<Call>, filter: Option<nat>): seq<Call> {
    if cs == [] then []
    else if Wanted(cs[0].key.pid, filter) then [cs[0]] + Keep(cs[1..], filter)
    else Keep(cs[1..], filter)
  }

  /** How many lines are read: all of them, unless `max` records cap it; `have` records exist already. */
  function Lines(log: seq<Event>, filter: Option<nat>, max: nat, have: nat): (n: nat)
    ensures n <= |log|
  {
    if log == [] then 0
    else if log[0].Entry? && Wanted(log[0].key.pid, filter) then
      if max != 0 && have + 1 >= max then 1 else 1 + Lines(log[1..], filter, max, have + 1)
    else 1 + Lines(log[1..], filter, max, have)
  }

  /** What the parse of a log delivers. */
  function Delivered(log: seq<Event>, filter: Option<nat>, max: nat): seq<Call> {
    Keep(Paired(log[..Lines(log, filter, max, 0)]), filter)
  }

  // ----- the pending-table algorithm -----

  /** Each pending key points at its own record, still without a return. */
  predicate Pends(records: seq<Call>, pending: map<CallKey, nat>, filter: Option<nat>) {
    forall k :: k in pending ==>
      pending[k] < |records| && records[pending[k]].key == k && records[pending[k]].ret.None? && Wanted(k.pid, filter)
  }

  /** The records once the pending ones have been given what the rest of the log says about them. */
  function Settled(records: seq<Call>, pending: map<CallKey, nat>, rest: seq<Event>): (r: seq<Call>)
    ensures |r| == |records|
    ensures forall i :: 0 <= i < |records| ==> r[i] == Settle(records, pending, rest, i)
  {
    seq(|records|, i requires 0 <= i < |records| => Settle(records, pending, rest, i))
  }

  function Settle(records: seq<Call>, pending: map<CallKey, nat>, rest: seq<Event>, i: nat): Call
    requires i < |records|
  {
    var c := records[i];
    if c.key in pending && pending[c.key] == i then c.(ret := RetAfter(rest, c.key)) else c
  }

  /** What the algorithm should still deliver from this point. */
  function Outcome(records: seq<Call>, pending: map<CallKey, nat>, rest: seq<Event>, filter: Option<nat>): seq<Call> {
    Settled(records, pending, rest) + Keep(Paired(rest), filter)
  }

  lemma SkipEvent(records: seq<Call>, pending: map<CallKey, nat>, rest: seq<Event>, filter: Option<nat>)
    requires Pends(records, pending, filter) && rest != []
    requires || rest[0].Noise? || (rest[0].Entry? && !Wanted(rest[0].key.pid, filter))
             || (rest[0].Ret? && rest[0].key !in pending)
    ensures Outcome(records, pending, rest, filter) == Outcome(records, pending, rest[1..], filter)
  {
    forall i | 0 <= i < |records|
      ensures Settle(records, pending, rest, i) == Settle(records, pending, rest[1..], i)
    {
      var k := records[i].key;
      assert k in pending && pending[k] == i ==> !Concerns(rest[0], k);
    }
    assert Settled(records, pending, rest) == Settled(records, pending, rest[1..]);
    if rest[0].Entry? {
      var c := Call(rest[0].key, rest[0].fields, RetAfter(rest[1..], rest[0].key), None);
      assert ([c] + Paired(rest[1..]))[1..] == Paired(rest[1..]);
    }
  }

  lemma TakeEntry(records: seq<Call>, pending: map<CallKey, nat>, rest: seq<Event>, filter: Option<nat>)
    requires Pends(records, pending, filter) && rest != [] && rest[0].Entry? && Wanted(rest[0].key.pid, filter)
    ensures var e := rest[0];
            var rs, pd := records + [Call(e.key, e.fields, None, None)], pending[e.key := |records|];
            Pends(rs, pd, filter) && Outcome(records, pending, rest, filter) == Outcome(rs, pd, rest[1..], filter)
  {
    var e := rest[0];
    var rs, pd := records + [Call(e.key, e.fields, None, None)], pending[e.key := |records|];
    var c := Call(e.key, e.fields, RetAfter(rest[1..], e.key), None);
    forall i | 0 <= i < |records|
      ensures Settle(records, pending, rest, i) == Settle(rs, pd, rest[1..], i)
    {
      assert rs[i] == records[i];
      if records[i].key == e.key {
        assert Concerns(rest[0], e.key);
        assert records[i].key in pending && pending[e.key] == i ==> records[i].ret.None?;
      }
    }
    assert Settle(rs, pd, rest[1..], |records|) == c;
    assert Settled(rs, pd, rest[1..]) == Settled(records, pending, rest) + [c];
    assert Paired(rest)[0] == c && Paired(rest)[1..] == Paired(rest[1..]);
    Snoc(Settled(records, pending, rest), c, Keep(Paired(rest[1..]), filter));
  }

  lemma TakeReturn(records: seq<Call>, pending: map<CallKey, nat>, rest: seq<Event>, filter: Option<nat>)
    requires Pends(records, pending, filter) && rest != [] && rest[0].Ret? && rest[0].key in pending
    ensures var e := rest[0];
            var at := pending[e.key];
            var rs, pd := records[at := records[at].(ret := Some(SignExtend(e.raw)))], pending - {e.key};
            Pends(rs, pd, filter) && Outcome(records, pending, rest, filter) == Outcome(rs, pd, rest[1..], filter)
  {
    hide SignExtend;
    var e := rest[0];
    var at := pending[e.key];
    var rs, pd := records[at := records[at].(ret := Some(SignExtend(e.raw)))], pending - {e.key};
    assert Pends(rs, pd, filter) by {
      forall k | k in pd
        ensures pd[k] < |rs| && rs[pd[k]].key == k && rs[pd[k]].ret.None? && Wanted(k.pid, filter)
      {
        assert pd[k] != at;
      }
    }
    forall i | 0 <= i < |records|
      ensures Settle(records, pending, rest, i) == Settle(rs, pd, rest[1..], i)
    {
      if i == at {
        assert Concerns(rest[0], e.key);
      }
    }
    assert Settled(records, pending, rest) == Settled(rs, pd, rest[1..]);
  }

  /** Reading stops right after the entry that reaches the cap: what is pending then stays without a return. */
  lemma NothingLeft(records: seq<Call>, pending: map<CallKey, nat>, filter: Option<nat>)
    requires Pends(records, pending, filter)
    ensures Outcome(records, pending, [], filter) == records
  {
    forall i | 0 <= i < |records|
      ensures Settle(records, pending, [], i) == records[i]
    {
      assert records[i].key in pending && pending[records[i].key] == i ==> records[i].ret.None?;
    }
    assert Settled(records, pending, []) == records;
    NoTail(records);
  }

  lemma LinesOn(log: seq<Event>, i: nat, filter: Option<nat>, max: nat, have: nat)
    requires i < |log|
    ensures log[i..][1..] == log[i + 1..]
    ensures var n := Lines(log[i..], filter, max, have);
            && n > 0 && log[i..][..n] != [] && log[i..][..n][0] == log[i]
            && log[i..][..n][1..] == log[i + 1..][..n - 1]
  {
  }

  /**
   * Walks the log once, with a table of pending entries. The result, for any pid filter and any cap, is one record
   * per wanted entry line read, paired with the next line of the same thread and call.
   */
  method ParseSerial(log: seq<Event>, filter: Option<nat>, max: nat) returns (records: seq<Call>)
    ensures records == Delivered(log, filter, max)
  {
    hide SignExtend, Outcome, Pends, Paired, Keep;
    records := [];
    var pending: map<CallKey, nat> := map[];
    ghost var goal := Keep(Paired(log[..Lines(log, filter, max, 0)]), filter);
    assert log[0..] == log;
    Begin(log[..Lines(log, filter, max, 0)], filter);
    for i := 0 to |log|
      invariant Pends(records, pending, filter)
      invariant Outcome(records, pending, log[i..][..Lines(log[i..], filter, max, |records|)], filter) == goal
    {
      LinesOn(log, i, filter, max, |records|);
      ghost var rest := log[i..][..Lines(log[i..], filter, max, |records|)];
      var e := log[i];
      if e.Entry? && Wanted(e.key.pid, filter) {
        TakeEntry(records, pending, rest, filter);
        records := records + [Call(e.key, e.fields, None, None)];
        pending := pending[e.key := |records| - 1];
        if max != 0 && |records| >= max {
          assert rest[1..] == [];
          NothingLeft(records, pending, filter);
          return;
        }
      } else if e.Ret? && e.key in pending {
        TakeReturn(records, pending, rest, filter);
        PendsAt(records, pending, filter, e.key);
        var at := pending[e.key];
        records := records[at := records[at].(ret := Some(SignExtend(e.raw)))];
        pending := pending - {e.key};
      } else {
        SkipEvent(records, pending, rest, filter);
      }
    }
    NothingLeft(records, pending, filter);
    assert log[|log|..][..0] == [];
  }

  lemma PendsAt(records: seq<Call>, pending: map<CallKey, nat>, filter: Option<nat>, k: CallKey)
    requires Pends(records, pending, filter) && k in pending
    ensures pending[k] < |records|
  {
  }

  lemma Begin(log: seq<Event>, filter: Option<nat>)
    ensures Pends([], map[], filter) && Outcome([], map[], log, filter) == Keep(Paired(log), filter)
  {
    assert Settled([], map[], log) == [];
  }

  // ----- what pairing means -----

  /** A record's return, by position: decided by the first later line for its call, and by nothing else. */
  lemma {:induction false} NextLineDecides(rest: seq<Event>, k: CallKey, j: nat)
    requires j < |rest| && Concerns(rest[j], k) && forall i :: 0 <= i < j ==> !Concerns(rest[i], k)
    ensures RetAfter(rest, k) == if rest[j].Ret? then Some(SignExtend(rest[j].raw)) else None
    decreases j
  {
    hide SignExtend;
    if j > 0 {
      assert forall i :: 0 <= i < j - 1 ==> rest[1..][i] == rest[i + 1];
      NextLineDecides(rest[1..], k, j - 1);
    }
  }

  lemma {:induction false} NoLineNoReturn(rest: seq<Event>, k: CallKey)
    requires forall i :: 0 <= i < |rest| ==> !Concerns(rest[i], k)
    ensures RetAfter(rest, k) == None
  {
    if rest != [] {
      NoLineNoReturn(rest[1..], k);
    }
  }

  // ----- parts of a log -----

  /** Whose lines and calls are meant. */
  datatype Scope = Everyone | Process(pid: nat) | Thread(pid: nat, tid: nat)

  predicate Within(k: CallKey, scope: Scope) {
    match scope
    case Everyone => true
    case Process(pid) => k.pid == pid
    case Thread(pid, tid) => k.pid == pid && k.tid == tid
  }

  function LinesOf(log: seq<Event>, scope: Scope): seq<Event> {
    if log == [] then []
    else if !log[0].Noise? && Within(log[0].key, scope) then [log[0]] + LinesOf(log[1..], scope)
    else LinesOf(log[1..], scope)
  }

  function CallsOf(cs: seq<Call>, scope: Scope): seq<Call> {
    if cs == [] then []
    else if Within(cs[0].key, scope) then [cs[0]] + CallsOf(cs[1..], scope)
    else CallsOf(cs[1..], scope)
  }

  lemma {:induction false} RetInScope(rest: seq<Event>, k: CallKey, scope: Scope)
    requires Within(k, scope)
    ensures RetAfter(LinesOf(rest, scope), k) == RetAfter(rest, k)
  {
    hide SignExtend;
    if rest != [] {
      RetInScope(rest[1..], k, scope);
      if !rest[0].Noise? && Within(rest[0].key, scope) {
        var t := LinesOf(rest, scope);
        assert t[1..] == LinesOf(rest[1..], scope);
      }
    }
  }

  /** Pairing one thread's or one process's lines alone gives exactly its records of the whole log. */
  lemma {:induction false} PairingCommutes(log: seq<Event>, scope: Scope)
    ensures Paired(LinesOf(log, scope)) == CallsOf(Paired(log), scope)
  {
    hide RetAfter;
    if log != [] {
      var rest := log[1..];
      PairingCommutes(rest, scope);
      if log[0].Entry? {
        var c := Call(log[0].key, log[0].fields, RetAfter(rest, log[0].key), None);
        assert Paired(log) == [c] + Paired(rest);
        assert Paired(log)[1..] == Paired(rest);
      }
      if !log[0].Noise? && Within(log[0].key, scope) {
        var t := LinesOf(log, scope);
        assert t[1..] == LinesOf(rest, scope);
        RetInScope(rest, log[0].key, scope);
      }
    }
  }

  /** Interleaving does not matter: two logs with the same lines of a thread, or process, pair its calls alike. */
  lemma InterleavingIndependent(log1: seq<Event>, log2: seq<Event>, scope: Scope)
    requires LinesOf(log1, scope) == LinesOf(log2, scope)
    ensures CallsOf(Paired(log1), scope) == CallsOf(Paired(log2), scope)
  {
    hide Paired, CallsOf, LinesOf;
    PairingCommutes(log1, scope);
    PairingCommutes(log2, scope);
  }

  function ScopeOf(filter: Option<nat>): Scope {
    if filter.Some? then Process(filter.value) else Everyone
  }

  /** A pid filter keeps exactly the calls of that process, and no filter keeps all. */
  lemma {:induction false} KeepIsScope(cs: seq<Call>, filter: Option<nat>)
    ensures Keep(cs, filter) == CallsOf(cs, ScopeOf(filter))
    ensures filter.None? ==> Keep(cs, filter) == cs
  {
    if cs != [] {
      KeepIsScope(cs[1..], filter);
      assert cs == [cs[0]] + cs[1..];
    }
  }

  /** With no cap the whole log is read. */
  lemma {:induction false} NoCapReadsAll(log: seq<Event>, filter: Option<nat>, have: nat)
    ensures Lines(log, filter, 0, have) == |log|
  {
    if log != [] {
      NoCapReadsAll(log[1..], filter, have);
      NoCapReadsAll(log[1..], filter, have + 1);
    }
  }

  /** So without a cap a pid filter is filtering the unfiltered result, and reading that process's lines alone. */
  lemma FilterCommutes(log: seq<Event>, filter: Option<nat>)
    ensures Delivered(log, filter, 0) == CallsOf(Delivered(log, None, 0), ScopeOf(filter))
    ensures Delivered(log, filter, 0) == Delivered(LinesOf(log, ScopeOf(filter)), None, 0)
  {
    hide Paired, Keep, CallsOf, LinesOf, Lines, ScopeOf;
    var own := LinesOf(log, ScopeOf(filter));
    NoCapReadsAll(log, filter, 0);
    NoCapReadsAll(log, None, 0);
    NoCapReadsAll(own, None, 0);
    assert log[..|log|] == log && own[..|own|] == own;
    KeepIsScope(Paired(log), filter);
    KeepIsScope(Paired(log), None);
    KeepIsScope(Paired(own), None);
    PairingCommutes(log, ScopeOf(filter));
  }
}
