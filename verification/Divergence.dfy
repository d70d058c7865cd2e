/** Lock-step comparison of two syscall streams, up to the first call on which they disagree. */
module Divergence {
  import opened Octets
  import opened Syscalls

  datatype Class = LinuxTruncated | AstryxTruncated | MissingOrExtraCall | RetvalSign | RetvalValue | ArgsOrSeq

  /** Calls whose return value depends on the run and is not compared. */
  const RUNTIME_DEPENDENT: set<string> := {
    "set_tid_address", "gettid", "getpid", "getppid", "getuid", "geteuid", "getgid", "getegid", "getpgid",
    "getsid", "brk", "mmap", "mmap2", "mremap", "getrandom", "clock_gettime", "clock_getres", "gettimeofday",
    "time", "getcwd", "readlink", "readlinkat"
  }

  const ERRNO: map<string, nat> := map[
    "EPERM" := 1, "ENOENT" := 2, "ESRCH" := 3, "EINTR" := 4, "EIO" := 5, "ENXIO" := 6, "E2BIG" := 7,
    "ENOEXEC" := 8, "EBADF" := 9, "ECHILD" := 10, "EAGAIN" := 11, "EWOULDBLOCK" := 11, "ENOMEM" := 12,
    "EACCES" := 13, "EFAULT" := 14, "ENOTBLK" := 15, "EBUSY" := 16, "EEXIST" := 17, "EXDEV" := 18, "ENODEV" := 19,
    "ENOTDIR" := 20, "EISDIR" := 21, "EINVAL" := 22, "ENFILE" := 23, "EMFILE" := 24, "ENOTTY" := 25,
    "ETXTBSY" := 26, "EFBIG" := 27, "ENOSPC" := 28, "ESPIPE" := 29, "EROFS" := 30, "EMLINK" := 31, "EPIPE" := 32,
    "EDOM" := 33, "ERANGE" := 34, "EDEADLK" := 35, "ENAMETOOLONG" := 36, "ENOLCK" := 37, "ENOSYS" := 38,
    "ENOTEMPTY" := 39, "ELOOP" := 40, "ENOMSG" := 42, "EIDRM" := 43, "ENOTSOCK" := 88, "EDESTADDRREQ" := 89,
    "EMSGSIZE" := 90, "EPROTOTYPE" := 91, "ENOPROTOOPT" := 92, "EPROTONOSUPPORT" := 93, "ESOCKTNOSUPPORT" := 94,
    "EOPNOTSUPP" := 95, "EPFNOSUPPORT" := 96, "EAFNOSUPPORT" := 97, "EADDRINUSE" := 98, "EADDRNOTAVAIL" := 99,
    "ENETDOWN" := 100, "ENETUNREACH" := 101, "ENETRESET" := 102, "ECONNABORTED" := 103, "ECONNRESET" := 104,
    "ENOBUFS" := 105, "EISCONN" := 106, "ENOTCONN" := 107, "ESHUTDOWN" := 108, "ETIMEDOUT" := 110,
    "ECONNREFUSED" := 111, "EHOSTDOWN" := 112, "EHOSTUNREACH" := 113, "EALREADY" := 114, "EINPROGRESS" := 115
  ]

  /** strace's `-1` with a symbolic errno, put the way the kernel returns it. */
  function NormalRet(c: Call): Option<int> {
    if c.ret == Some(-1) && c.errno.Some? && c.errno.value in ERRNO then Some(-(ERRNO[c.errno.value] as int)) else c.ret
  }

  /** Same call and, where both returns are known and comparable, the same return. */
  predicate Agree(l: Call, a: Call) {
    && l.key.nr == a.key.nr
    && (l.fields.name in RUNTIME_DEPENDENT || NormalRet(l).None? || a.ret.None? || NormalRet(l) == a.ret)
  }

  predicate SameNr(l: Call, a: Call) {
    l.key.nr == a.key.nr
  }

  function Classify(l: Option<Call>, a: Option<Call>): Class {
    if l.None? then LinuxTruncated
    else if a.None? then AstryxTruncated
    else if l.value.key.nr != a.value.key.nr then MissingOrExtraCall
    else if l.value.fields.name in RUNTIME_DEPENDENT then ArgsOrSeq
    else
      var x, y := NormalRet(l.value), a.value.ret;
      if x.Some? && y.Some? && (x.value < 0) != (y.value < 0) then RetvalSign
      else if x.Some? && y.Some? && x.value != y.value then RetvalValue
      else ArgsOrSeq
  }

  /** `n` is the length of the longest common prefix on which the streams agree. */
  predicate IsAgreement(agree: (Call, Call) -> bool, linux: seq<Call>, astryx: seq<Call>, n: nat) {
    && n <= |linux| && n <= |astryx|
    && (forall i :: 0 <= i < n ==> agree(linux[i], astryx[i]))
    && (n < |linux| && n < |astryx| ==> !agree(linux[n], astryx[n]))
  }

  lemma AgreementUnique(agree: (Call, Call) -> bool, linux: seq<Call>, astryx: seq<Call>, m: nat, n: nat)
    requires IsAgreement(agree, linux, astryx, m) && IsAgreement(agree, linux, astryx, n)
    ensures m == n
  {
  }

  /** Where the streams part, how, the two calls there, and the calls around them. */
  datatype Divergence = Divergence(index: nat, kind: Class, linux: Option<Call>, astryx: Option<Call>, around: Window)

  datatype Window = Window(start: nat, linux: seq<Call>, astryx: seq<Call>)

  function CallAt(cs: seq<Call>, i: nat): Option<Call> {
    if i < |cs| then Some(cs[i]) else None
  }

  function Around(linux: seq<Call>, astryx: seq<Call>, i: nat, context: nat): Window {
    var lo := Max(0, i - context);
    Window(lo, Slice(linux, lo, i + context + 1), Slice(astryx, lo, i + context + 1))
  }

  /** `d` says what is to be said of index `i`, apart from the class. */
  predicate Shows(d: Divergence, linux: seq<Call>, astryx: seq<Call>, i: nat, context: nat) {
    && d.index == i && d.linux == CallAt(linux, i) && d.astryx == CallAt(astryx, i)
    && d.around == Around(linux, astryx, i, context)
  }

  /** Call `j` of a stream is in the window if and only if it is at most `context` away from `i`, at its own place. */
  lemma AroundHolds(linux: seq<Call>, astryx: seq<Call>, i: nat, context: nat, j: nat)
    ensures var w := Around(linux, astryx, i, context);
            && (j < |linux| && i - context <= j <= i + context ==>
                  w.start <= j < w.start + |w.linux| && w.linux[j - w.start] == linux[j])
            && (w.start <= j < w.start + |w.linux| ==> i - context <= j <= i + context && j < |linux|)
            && (j < |astryx| && i - context <= j <= i + context ==>
                  w.start <= j < w.start + |w.astryx| && w.astryx[j - w.start] == astryx[j])
            && (w.start <= j < w.start + |w.astryx| ==> i - context <= j <= i + context && j < |astryx|)
  {
  }

  // ----- snapshot points -----

  /** A configured point: the call it watches, and a text one of that call's arguments must contain. */
  datatype Snapshot = Snapshot(name: string, syscall: string, argMatch: string)

  predicate Contains(a: string, wanted: string) {
    exists i :: 0 <= i <= |a| && wanted <= a[i..]
  }

  predicate Fires(s: Snapshot, c: Call) {
    && s.syscall == c.fields.name
    && (s.argMatch == "" || exists i :: 0 <= i < |c.fields.args| && Contains(c.fields.args[i], s.argMatch))
  }

  function FiredBy(c: Call, snaps: seq<Snapshot>, i: nat): seq<(nat, Snapshot)> {
    if snaps == [] then [] else
    var rest, s := FiredBy(c, snaps[..|snaps| - 1], i), snaps[|snaps| - 1];
    if Fires(s, c) then rest + [(i, s)] else rest
  }

  /** The points fired by the first `n` calls. */
  function Fired(linux: seq<Call>, snaps: seq<Snapshot>, n: nat): seq<(nat, Snapshot)>
    requires n <= |linux|
  {
    if n == 0 then [] else Fired(linux, snaps, n - 1) + FiredBy(linux[n - 1], snaps, n - 1)
  }

  method NoteSnapshots(c: Call, snaps: seq<Snapshot>, i: nat) returns (hits: seq<(nat, Snapshot)>)
    ensures hits == FiredBy(c, snaps, i)
  {
    hits := [];
    for k := 0 to |snaps|
      invariant hits == FiredBy(c, snaps[..k], i)
    {
      assert snaps[..k + 1][..k] == snaps[..k];
      if Fires(snaps[k], c) {
        hits := hits + [(i, snaps[k])];
      }
    }
    assert snaps[..|snaps|] == snaps;
  }

  /** A point is among them if and only if it is configured and one of those calls fires it. */
  lemma {:induction false} FiredIff(linux: seq<Call>, snaps: seq<Snapshot>, n: nat, i: nat, s: Snapshot)
    requires n <= |linux|
    ensures (i, s) in Fired(linux, snaps, n) <==> i < n && s in snaps && Fires(s, linux[i])
  {
    if n > 0 {
      FiredIff(linux, snaps, n - 1, i, s);
      FiredByIff(linux[n - 1], snaps, n - 1, i, s);
    }
  }

  lemma {:induction false} FiredByIff(c: Call, snaps: seq<Snapshot>, k: nat, i: nat, s: Snapshot)
    ensures (i, s) in FiredBy(c, snaps, k) <==> i == k && s in snaps && Fires(s, c)
  {
    hide Fires;
    if snaps != [] {
      FiredByIff(c, snaps[..|snaps| - 1], k, i, s);
      assert snaps == snaps[..|snaps| - 1] + [snaps[|snaps| - 1]];
    }
  }

  const MAX_HITS := 32

  /**
   * The first divergence is exactly where the longest agreeing prefix ends, if it ends before both streams do. Within
   * both streams it is a different call, a different sign or a different value, and never left unexplained.
   */
  method DiffStreams(linux: seq<Call>, astryx: seq<Call>, snaps: seq<Snapshot>, context: nat)
    returns (aligned: nat, first: Option<Divergence>, hitCount: nat, hits: seq<(nat, Snapshot)>)
    ensures IsAgreement(Agree, linux, astryx, aligned)
    ensures first.None? <==> aligned == |linux| == |astryx|
    ensures first.Some? ==> Shows(first.value, linux, astryx, aligned, context)
    ensures var fired := Fired(linux, snaps, Min(Min(|linux|, |astryx|), aligned + 1));
            hitCount == |fired| && hits == fired[..Min(|fired|, MAX_HITS)]
    ensures first.Some? && aligned == |linux| ==> first.value.kind == LinuxTruncated
    ensures first.Some? && aligned == |astryx| ==> first.value.kind == AstryxTruncated
    ensures first.Some? && aligned < |linux| && aligned < |astryx| ==>
              var l, a, kind := linux[aligned], astryx[aligned], first.value.kind;
              && kind in {MissingOrExtraCall, RetvalSign, RetvalValue}
              && (kind.MissingOrExtraCall? <==> l.key.nr != a.key.nr)
              && (!kind.MissingOrExtraCall? ==>
                    && l.fields.name !in RUNTIME_DEPENDENT && NormalRet(l).Some? && a.ret.Some? && NormalRet(l) != a.ret
                    && (kind.RetvalSign? <==> (NormalRet(l).value < 0) != (a.ret.value < 0)))
  {
    hide Fires, Around;
    var n := Min(|linux|, |astryx|);
    aligned := 0;
    var firstIdx: Option<nat> := None;
    var fired := [];
    while aligned < n && firstIdx.None?
      invariant aligned <= n
      invariant forall i :: 0 <= i < aligned ==> Agree(linux[i], astryx[i])
      invariant firstIdx.Some? ==> firstIdx.value == aligned < n && !Agree(linux[aligned], astryx[aligned])
      invariant fired == Fired(linux, snaps, if firstIdx.Some? then aligned + 1 else aligned)
      decreases n - aligned, firstIdx.None?
    {
      var l, a := linux[aligned], astryx[aligned];
      var now := NoteSnapshots(l, snaps, aligned);
      fired := fired + now;
      if l.key.nr != a.key.nr {
        firstIdx := Some(aligned);
      } else if l.fields.name !in RUNTIME_DEPENDENT && NormalRet(l).Some? && a.ret.Some? && NormalRet(l) != a.ret {
        firstIdx := Some(aligned);
      } else {
        aligned := aligned + 1;
      }
    }
    if firstIdx.Some? {
      var kind := Classify(Some(linux[aligned]), Some(astryx[aligned]));
      first := Some(Divergence(aligned, kind, Some(linux[aligned]), Some(astryx[aligned]),
                               Around(linux, astryx, aligned, context)));
    } else if |linux| != |astryx| {
      first := Some(Divergence(n, if |linux| < |astryx| then LinuxTruncated else AstryxTruncated,
                               CallAt(linux, n), CallAt(astryx, n), Around(linux, astryx, n, context)));
    } else {
      first := None;
    }
    hitCount, hits := |fired|, fired[..Min(|fired|, MAX_HITS)];
  }

  /** The older comparison, by syscall number only; it reports the step and whether a stream just ended. */
  method DiffByNumber(linux: seq<Call>, astryx: seq<Call>, context: nat)
    returns (aligned: nat, first: Option<Divergence>)
    ensures IsAgreement(SameNr, linux, astryx, aligned)
    ensures first.None? <==> aligned == |linux| == |astryx|
    ensures first.Some? ==> Shows(first.value, linux, astryx, aligned, context)
    ensures first.Some? && aligned < |linux| && aligned < |astryx| ==> first.value.kind == MissingOrExtraCall
    ensures first.Some? && aligned == |linux| ==> first.value.kind == LinuxTruncated
    ensures first.Some? && aligned == |astryx| ==> first.value.kind == AstryxTruncated
  {
    var n := Min(|linux|, |astryx|);
    aligned := 0;
    while aligned < n && linux[aligned].key.nr == astryx[aligned].key.nr
      invariant aligned <= n
      invariant forall i :: 0 <= i < aligned ==> SameNr(linux[i], astryx[i])
    {
      aligned := aligned + 1;
    }
    var around := Around(linux, astryx, aligned, context);
    if aligned < n {
      first := Some(Divergence(aligned, MissingOrExtraCall, Some(linux[aligned]), Some(astryx[aligned]), around));
    } else if |linux| > |astryx| {
      first := Some(Divergence(|astryx|, AstryxTruncated, Some(linux[|astryx|]), None, around));
    } else if |astryx| > |linux| {
      first := Some(Divergence(|linux|, LinuxTruncated, None, Some(astryx[|linux|]), around));
    } else {
      first := None;
    }
  }

  /** Comparing returns as well never reports later, and reports nothing only if comparing numbers reports nothing. */
  lemma NeverLater(linux: seq<Call>, astryx: seq<Call>, n: nat, m: nat)
    requires IsAgreement(Agree, linux, astryx, n) && IsAgreement(SameNr, linux, astryx, m)
    ensures n <= m
    ensures n == |linux| == |astryx| ==> m == |linux|
    ensures n == m || (n < m && linux[n].key.nr == astryx[n].key.nr && NormalRet(linux[n]) != astryx[n].ret)
  {
    assert forall i :: 0 <= i < n ==> Agree(linux[i], astryx[i]) && SameNr(linux[i], astryx[i]);
    if n < m {
      assert SameNr(linux[n], astryx[n]);
    }
  }
}
