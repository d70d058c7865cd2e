/** The differential soak: a serial log paired into calls, and compared with a recorded stream. */
module Soak {
  import opened Octets
  import opened Syscalls
  import opened Pairing
  import opened Divergence

  /** Parsing and comparing in one go; the verdict is about the calls the log delivers. */
  method Compare(linux: seq<Call>, log: seq<Event>, filter: Option<nat>, max: nat, snaps: seq<Snapshot>, context: nat)
    returns (aligned: nat, first: Option<Divergence>)
    ensures IsAgreement(Agree, linux, Delivered(log, filter, max), aligned)
    ensures first.None? <==> aligned == |linux| == |Delivered(log, filter, max)|
    ensures first.Some? ==> Shows(first.value, linux, Delivered(log, filter, max), aligned, context)
  {
    hide Delivered, IsAgreement, Shows;
    var astryx := ParseSerial(log, filter, max);
    var hitCount, hits;
    aligned, first, hitCount, hits := DiffStreams(linux, astryx, snaps, context);
  }

  /**
   * The verdict on one process depends on that process's own lines alone: for two logs in which it wrote the same
   * lines, whatever other processes wrote in between, the streams part at the same call.
   */
  lemma VerdictIsOwn(linux: seq<Call>, log1: seq<Event>, log2: seq<Event>, pid: nat, n1: nat, n2: nat)
    requires LinesOf(log1, Process(pid)) == LinesOf(log2, Process(pid))
    requires IsAgreement(Agree, linux, Delivered(log1, Some(pid), 0), n1)
    requires IsAgreement(Agree, linux, Delivered(log2, Some(pid), 0), n2)
    ensures n1 == n2 && Delivered(log1, Some(pid), 0) == Delivered(log2, Some(pid), 0)
  {
    hide Delivered, LinesOf, IsAgreement;
    FilterCommutes(log1, Some(pid));
    FilterCommutes(log2, Some(pid));
    AgreementUnique(Agree, linux, Delivered(log1, Some(pid), 0), n1, n2);
  }
}
