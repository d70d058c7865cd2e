/** The partial-safe libpcap reader and the writer that goes with it. */
module Capture {
  import opened Octets

  const PCAP_MAGIC_LE := 0xA1B2C3D4
  const PCAP_MAGIC_BE := 0xD4C3B2A1
  const PCAP_MAGIC_NS_LE := 0xA1B23C4D
  const PCAP_MAGIC_NS_BE := 0x4D3CB2A1
  const PCAPNG_MAGIC := 0x0A0D0D0A
  const GLOBAL_HDR_LEN := 24
  const RECORD_HDR_LEN := 16
  const MAX_SNAPLEN := 262144

  datatype PcapError = TooShort | PcapNg | BadMagic(magic: nat) | TruncatedHeader

  datatype Header = Header(big: bool, tsDiv: nat, verMajor: nat, verMinor: nat,
                           thiszone: int, sigfigs: nat, snaplen: nat, linktype: nat)

  /** What the reader yields for one packet; its link type is the header's. */
  datatype Record = Record(ts: real, data: Bytes, origLen: nat)

  /** What the writer is given for one packet; `struct.pack` takes nothing wider than 32 bits. */
  datatype AnyFrame = Frame(sec: nat, usec: nat, data: Bytes)

  type Frame = f: AnyFrame | f.sec < 0x1_0000_0000 && f.usec < 0x1_0000_0000 && |f.data| < 0x1_0000_0000
    witness Frame(0, 0, [])

  function Order16(big: bool, b: Bytes, i: nat): nat
    requires i + 2 <= |b|
  {
    if big then At16(b, i) else At16Le(b, i)
  }

  function Order32(big: bool, b: Bytes, i: nat): nat
    requires i + 4 <= |b|
  {
    if big then At32(b, i) else At32Le(b, i)
  }

  function Signed32(v: nat): int {
    if v < 0x8000_0000 then v else v - 0x1_0000_0000
  }

  /** The checks and unpacking of the global header, in the order the reader makes them. */
  function ParseHeader(file: Bytes): (r: Result<Header, PcapError>)
    ensures r.Ok? ==> |file| >= GLOBAL_HDR_LEN
  {
    var hdr := Slice(file, 0, GLOBAL_HDR_LEN);
    if |hdr| < 4 then Err(TooShort) else
    var magic := At32Le(hdr, 0);
    if magic == PCAPNG_MAGIC then Err(PcapNg) else
    if magic !in {PCAP_MAGIC_LE, PCAP_MAGIC_NS_LE, PCAP_MAGIC_BE, PCAP_MAGIC_NS_BE} then Err(BadMagic(magic)) else
    var big := magic == PCAP_MAGIC_BE || magic == PCAP_MAGIC_NS_BE;
    var div := if magic == PCAP_MAGIC_NS_LE || magic == PCAP_MAGIC_NS_BE then 1_000_000_000 else 1_000_000;
    if |hdr| < GLOBAL_HDR_LEN then Err(TruncatedHeader) else
    Ok(Header(big, div, Order16(big, hdr, 4), Order16(big, hdr, 6), Signed32(Order32(big, hdr, 8)),
              Order32(big, hdr, 12), Order32(big, hdr, 16), Order32(big, hdr, 20)))
  }

  function Stamp(sec: nat, frac: nat, div: nat): real {
    if div == 0 then sec as real else sec as real + frac as real / div as real
  }

  /** The next record of the unread bytes, if a whole, sanely sized one is there. */
  function FirstRecord(h: Header, rest: Bytes): (r: Option<Record>)
    ensures r.Some? ==> RECORD_HDR_LEN + |r.value.data| <= |rest|
  {
    if |rest| < RECORD_HDR_LEN then None else
    var incl := Order32(h.big, rest, 8);
    if incl > MAX_SNAPLEN || |rest| < RECORD_HDR_LEN + incl then None else
    Some(Record(Stamp(Order32(h.big, rest, 0), Order32(h.big, rest, 4), h.tsDiv),
                rest[RECORD_HDR_LEN..RECORD_HDR_LEN + incl], Order32(h.big, rest, 12)))
  }

  function AfterFirst(h: Header, rest: Bytes): Bytes
    requires FirstRecord(h, rest).Some?
  {
    rest[RECORD_HDR_LEN + |FirstRecord(h, rest).value.data|..]
  }

  /** Every record the reader yields from `rest`. */
  function Records(h: Header, rest: Bytes): seq<Record>
    decreases |rest|
  {
    match FirstRecord(h, rest)
    case None => []
    case Some(r) => [r] + Records(h, AfterFirst(h, rest))
  }

  /** Does the reader stop anywhere else than at a clean end of file? */
  predicate Torn(h: Header, rest: Bytes)
    decreases |rest|
  {
    if FirstRecord(h, rest).Some? then Torn(h, AfterFirst(h, rest)) else rest != []
  }

  lemma SameHeader(big: bool, rest: Bytes)
    requires |rest| >= RECORD_HDR_LEN
    ensures var rh := rest[..RECORD_HDR_LEN];
            && Order32(big, rh, 0) == Order32(big, rest, 0) && Order32(big, rh, 4) == Order32(big, rest, 4)
            && Order32(big, rh, 8) == Order32(big, rest, 8) && Order32(big, rh, 12) == Order32(big, rest, 12)
  {
  }

  /** The reader object: a cursor over the file, advanced one record at a time. */
  class PcapReader {
    const file: Bytes
    const header: Header
    var pos: nat
    var truncated: bool

    ghost predicate Valid()
      reads this
    {
      pos <= |file|
    }

    ghost function Unread(): Bytes
      reads this
      requires Valid()
    {
      file[pos..]
    }

    constructor (file: Bytes)
      requires ParseHeader(file).Ok?
      ensures Valid() && this.file == file && header == ParseHeader(file).value
      ensures Unread() == file[GLOBAL_HDR_LEN..] && !truncated
    {
      this.file := file;
      this.header := ParseHeader(file).value;
      this.pos := GLOBAL_HDR_LEN;
      this.truncated := false;
    }

    method Read(n: nat) returns (b: Bytes)
      requires Valid()
      modifies this`pos
      ensures Valid()
      ensures b == Slice(old(Unread()), 0, n)
      ensures Unread() == old(Unread())[|b|..]
    {
      var end := Min(|file|, pos + n);
      b := file[pos..end];
      assert b == Slice(Unread(), 0, n);
      pos := end;
    }

    /** One turn of the iterator: the next record, or `None` once it has stopped. */
    method Next() returns (r: Option<Record>)
      requires Valid()
      modifies this
      ensures Valid()
      ensures r.Some? ==>
                && Records(header, old(Unread())) == [r.value] + Records(header, Unread())
                && Torn(header, old(Unread())) == Torn(header, Unread())
                && truncated == old(truncated) && |Unread()| < |old(Unread())|
      ensures r.None? ==>
                && Records(header, old(Unread())) == []
                && truncated == (old(truncated) || Torn(header, old(Unread())))
    {
      hide Order32, Stamp;
      ghost var was := Unread();
      var rh := Read(RECORD_HDR_LEN);
      if |rh| == 0 {
        return None;
      }
      if |rh| < RECORD_HDR_LEN {
        truncated := true;
        return None;
      }
      SameHeader(header.big, was);
      var big := header.big;
      var incl := Order32(big, rh, 8);
      if incl > MAX_SNAPLEN {
        truncated := true;
        return None;
      }
      var data := Read(incl);
      if |data| < incl {
        truncated := true;
        return None;
      }
      assert data == was[RECORD_HDR_LEN..RECORD_HDR_LEN + incl];
      r := Some(Record(Stamp(Order32(big, rh, 0), Order32(big, rh, 4), header.tsDiv), data, Order32(big, rh, 12)));
      assert FirstRecord(header, was) == r;
      assert Unread() == AfterFirst(header, was);
    }
  }

  /** Opening a file: a reader at its first record, or the first thing wrong with its header. */
  method OpenReader(file: Bytes) returns (r: Result<PcapReader, PcapError>)
    ensures r.Err? <==> ParseHeader(file).Err?
    ensures r.Err? ==> r.error == ParseHeader(file).error
    ensures r.Ok? ==> fresh(r.value) && r.value.Valid() && r.value.file == file
    ensures r.Ok? ==> Ok(r.value.header) == ParseHeader(file)
    ensures r.Ok? ==> r.value.Unread() == file[GLOBAL_HDR_LEN..] && !r.value.truncated
  {
    var header := ParseHeader(file);
    if header.Err? {
      return Err(header.error);
    }
    var reader := new PcapReader(file);
    r := Ok(reader);
  }

  // ----- the writer -----

  function FrameBytes(f: Frame): (r: Bytes)
    ensures |r| == RECORD_HDR_LEN + |f.data|
  {
    U32Le(f.sec) + U32Le(f.usec) + U32Le(|f.data|) + U32Le(|f.data|) + f.data
  }

  function Body(fs: seq<Frame>): Bytes
  {
    if fs == [] then [] else FrameBytes(fs[0]) + Body(fs[1..])
  }

  function GlobalHeader(linktype: nat): (r: Bytes)
    requires linktype < 0x1_0000_0000
    ensures |r| == GLOBAL_HDR_LEN
  {
    U32Le(PCAP_MAGIC_LE) + U16Le(2) + U16Le(4) + [0, 0, 0, 0] + [0, 0, 0, 0] + U32Le(65535) + U32Le(linktype)
  }

  function WriteCapture(fs: seq<Frame>, linktype: nat): Bytes
    requires linktype < 0x1_0000_0000
  {
    GlobalHeader(linktype) + Body(fs)
  }

  function WriterHeader(linktype: nat): Header {
    Header(false, 1_000_000, 2, 4, 0, 0, 65535, linktype)
  }

  function Read1(f: Frame): Record {
    Record(Stamp(f.sec, f.usec, 1_000_000), f.data, |f.data|)
  }

  function ReadBack(fs: seq<Frame>): (r: seq<Record>)
    ensures |r| == |fs|
    ensures forall i :: 0 <= i < |fs| ==> r[i] == Read1(fs[i])
  {
    seq(|fs|, i requires 0 <= i < |fs| => Read1(fs[i]))
  }

  // ----- what reading a written file gives -----

  lemma HeaderFields(linktype: nat, tail: Bytes)
    requires linktype < 0x1_0000_0000
    ensures ParseHeader(GlobalHeader(linktype) + tail) == Ok(WriterHeader(linktype))
  {
    var g := GlobalHeader(linktype);
    assert Slice(g + tail, 0, GLOBAL_HDR_LEN) == g;
    var m := U32Le(PCAP_MAGIC_LE);
    assert g[..4] == m && At32Le(g, 0) == At32Le(m, 0);
    assert g[4..6] == U16Le(2) && At16Le(g, 4) == At16Le(U16Le(2), 0);
    assert g[6..8] == U16Le(4) && At16Le(g, 6) == At16Le(U16Le(4), 0);
    assert g[16..20] == U32Le(65535) && At32Le(g, 16) == At32Le(U32Le(65535), 0);
    assert g[20..24] == U32Le(linktype) && At32Le(g, 20) == At32Le(U32Le(linktype), 0);
    assert g[8..16] == [0, 0, 0, 0, 0, 0, 0, 0];
    assert g[8] == 0 && g[9] == 0 && g[10] == 0 && g[11] == 0 && g[12] == 0 && g[13] == 0 && g[14] == 0 && g[15] == 0;
  }

  /** A cut header is reported as such: too short to hold a magic number, or truncated after it. */
  lemma CutHeader(linktype: nat, fs: seq<Frame>, k: nat)
    requires linktype < 0x1_0000_0000
    requires k < GLOBAL_HDR_LEN
    ensures ParseHeader(WriteCapture(fs, linktype)[..k]) == Err(if k < 4 then TooShort else TruncatedHeader)
  {
    var g := WriteCapture(fs, linktype)[..k];
    assert Slice(g, 0, GLOBAL_HDR_LEN) == g;
    if k >= 4 {
      var m := U32Le(PCAP_MAGIC_LE);
      assert g[..4] == m && At32Le(g, 0) == At32Le(m, 0);
    }
  }

  lemma FrameFields(f: Frame, tail: Bytes)
    ensures var b := FrameBytes(f) + tail;
            && At32Le(b, 0) == f.sec && At32Le(b, 4) == f.usec
            && At32Le(b, 8) == |f.data| && At32Le(b, 12) == |f.data|
  {
    var b := FrameBytes(f) + tail;
    assert b[0..4] == U32Le(f.sec) && At32Le(b, 0) == At32Le(b[0..4], 0);
    assert b[4..8] == U32Le(f.usec) && At32Le(b, 4) == At32Le(b[4..8], 0);
    assert b[8..12] == U32Le(|f.data|) && At32Le(b, 8) == At32Le(b[8..12], 0);
    assert b[12..16] == U32Le(|f.data|) && At32Le(b, 12) == At32Le(b[12..16], 0);
  }

  lemma FirstWritten(linktype: nat, f: Frame, tail: Bytes)
    ensures var h, b := WriterHeader(linktype), FrameBytes(f) + tail;
            if |f.data| <= MAX_SNAPLEN
            then FirstRecord(h, b) == Some(Read1(f)) && AfterFirst(h, b) == tail
            else FirstRecord(h, b) == None
  {
    FrameFields(f, tail);
    var b := FrameBytes(f) + tail;
    assert b[RECORD_HDR_LEN..RECORD_HDR_LEN + |f.data|] == f.data;
    assert b[RECORD_HDR_LEN + |f.data|..] == tail;
  }

  /** A torn record yields nothing. */
  lemma FirstTorn(linktype: nat, f: Frame, k: nat)
    requires k < RECORD_HDR_LEN + |f.data|
    ensures FirstRecord(WriterHeader(linktype), FrameBytes(f)[..k]) == None
  {
    var b := FrameBytes(f);
    if k >= RECORD_HDR_LEN {
      FrameFields(f, []);
      assert b + [] == b;
      assert At32Le(b[..k], 8) == At32Le(b, 8);
    }
  }

  lemma TakeFrames(fs: seq<Frame>, m: nat)
    requires 0 < m <= |fs|
    ensures Body(fs[..m]) == FrameBytes(fs[0]) + Body(fs[1..][..m - 1])
    ensures ReadBack(fs[..m]) == [Read1(fs[0])] + ReadBack(fs[1..][..m - 1])
  {
    assert fs[..m][0] == fs[0] && fs[..m][1..] == fs[1..][..m - 1];
  }

  /** How many frames lie wholly within the first `k` bytes of the body. */
  function WholeFrames(fs: seq<Frame>, k: nat): (m: nat)
    ensures m <= |fs|
  {
    if fs == [] || k < RECORD_HDR_LEN + |fs[0].data| then 0
    else 1 + WholeFrames(fs[1..], k - RECORD_HDR_LEN - |fs[0].data|)
  }

  lemma {:induction false} WholeFramesIsLargest(fs: seq<Frame>, k: nat)
    ensures var m := WholeFrames(fs, k);
            |Body(fs[..m])| <= k && (m < |fs| ==> k < |Body(fs[..m + 1])|)
  {
    hide FrameBytes, ReadBack;
    var m := WholeFrames(fs, k);
    if fs == [] || k < RECORD_HDR_LEN + |fs[0].data| {
      assert fs[..0] == [];
      if fs != [] {
        TakeFrames(fs, 1);
      }
    } else {
      WholeFramesIsLargest(fs[1..], k - RECORD_HDR_LEN - |fs[0].data|);
      TakeFrames(fs, m);
      if m < |fs| {
        TakeFrames(fs, m + 1);
      }
    }
  }

  predicate Bounded(fs: seq<Frame>) {
    forall f :: f in fs ==> |f.data| <= MAX_SNAPLEN
  }

  /** How many frames precede the first one too large for the reader. */
  function FirstOversize(fs: seq<Frame>): (m: nat)
    ensures m <= |fs| && Bounded(fs[..m])
    ensures m < |fs| ==> |fs[m].data| > MAX_SNAPLEN
  {
    if fs == [] || |fs[0].data| > MAX_SNAPLEN then 0
    else
      var m := FirstOversize(fs[1..]);
      assert fs[..m + 1] == [fs[0]] + fs[1..][..m];
      m + 1
  }

  /** How many frames the reader yields from the first `k` bytes of the body: the whole ones before any oversize one. */
  function Yielded(fs: seq<Frame>, k: nat): (m: nat)
    ensures m <= |fs|
  {
    Min(WholeFrames(fs, k), FirstOversize(fs))
  }

  lemma {:induction false} BodyCut(linktype: nat, fs: seq<Frame>, k: nat)
    requires k <= |Body(fs)|
    ensures var h, m := WriterHeader(linktype), Yielded(fs, k);
            && Records(h, Body(fs)[..k]) == ReadBack(fs[..m])
            && Torn(h, Body(fs)[..k]) == (|Body(fs[..m])| != k)
    decreases |fs|
  {
    hide FirstRecord, AfterFirst, FrameBytes, ReadBack, Read1;
    var m := Yielded(fs, k);
    if fs == [] {
      assert fs[..m] == [];
    } else {
      var size := RECORD_HDR_LEN + |fs[0].data|;
      if k < size {
        assert Body(fs)[..k] == FrameBytes(fs[0])[..k];
        FirstTorn(linktype, fs[0], k);
        assert fs[..m] == [];
      } else {
        var tail := Body(fs[1..])[..k - size];
        assert Body(fs)[..k] == FrameBytes(fs[0]) + tail;
        FirstWritten(linktype, fs[0], tail);
        if |fs[0].data| <= MAX_SNAPLEN {
          BodyCut(linktype, fs[1..], k - size);
          TakeFrames(fs, m);
        } else {
          assert fs[..m] == [];
        }
      }
    }
  }

  /**
   * Reading any byte prefix of any written capture gives exactly the frames it holds whole before the first oversize
   * one, in order, and reports it as truncated exactly when the cut is not right behind them.
   */
  lemma ReadPrefix(fs: seq<Frame>, linktype: nat, k: nat)
    requires linktype < 0x1_0000_0000
    requires GLOBAL_HDR_LEN <= k <= |WriteCapture(fs, linktype)|
    ensures var file := WriteCapture(fs, linktype)[..k];
            var h, w, m := WriterHeader(linktype), WholeFrames(fs, k - GLOBAL_HDR_LEN), Yielded(fs, k - GLOBAL_HDR_LEN);
            && ParseHeader(file) == Ok(h)
            && Records(h, file[GLOBAL_HDR_LEN..]) == ReadBack(fs[..m])
            && Torn(h, file[GLOBAL_HDR_LEN..]) == (|WriteCapture(fs[..m], linktype)| != k)
            && |WriteCapture(fs[..w], linktype)| <= k && (w < |fs| ==> k < |WriteCapture(fs[..w + 1], linktype)|)
  {
    hide ParseHeader, Records, Torn, Body, ReadBack, GlobalHeader, WholeFrames, Yielded;
    var c := k - GLOBAL_HDR_LEN;
    WholeFramesIsLargest(fs, c);
    var file := WriteCapture(fs, linktype)[..k];
    assert file == GlobalHeader(linktype) + Body(fs)[..c];
    assert file[GLOBAL_HDR_LEN..] == Body(fs)[..c];
    HeaderFields(linktype, Body(fs)[..c]);
    BodyCut(linktype, fs, c);
  }

  lemma {:induction false} BodyGrows(fs: seq<Frame>, m: nat)
    requires m < |fs|
    ensures |Body(fs[..m])| < |Body(fs)|
  {
    hide FrameBytes, ReadBack;
    if m > 0 {
      TakeFrames(fs, m);
      BodyGrows(fs[1..], m - 1);
    }
  }

  lemma {:induction false} AllWhole(fs: seq<Frame>)
    ensures WholeFrames(fs, |Body(fs)|) == |fs|
  {
    hide FrameBytes;
    if fs != [] {
      AllWhole(fs[1..]);
    }
  }

  /**
   * Reading back a whole written file: every frame before the first oversize one, and nothing after it.
   * So the round trip is the identity if and only if no frame is longer than `MAX_SNAPLEN`.
   */
  lemma RoundTrip(fs: seq<Frame>, linktype: nat)
    requires linktype < 0x1_0000_0000
    ensures var file, h, m := WriteCapture(fs, linktype), WriterHeader(linktype), FirstOversize(fs);
            && ParseHeader(file) == Ok(h)
            && Records(h, file[GLOBAL_HDR_LEN..]) == ReadBack(fs[..m])
            && (Torn(h, file[GLOBAL_HDR_LEN..]) <==> !Bounded(fs))
            && (Records(h, file[GLOBAL_HDR_LEN..]) == ReadBack(fs) <==> Bounded(fs))
  {
    hide ParseHeader, Records, Torn, Body, GlobalHeader, FirstOversize;
    var file, m := WriteCapture(fs, linktype), FirstOversize(fs);
    ReadPrefix(fs, linktype, |file|);
    AllWhole(fs);
    assert file[..|file|] == file;
    if m < |fs| {
      assert fs[m] in fs;
      assert |ReadBack(fs[..m])| < |ReadBack(fs)|;
      BodyGrows(fs, m);
    } else {
      assert fs[..m] == fs;
    }
  }

  lemma SameFirst(h: Header, rest: Bytes, k: nat)
    requires k <= |rest| && FirstRecord(h, rest[..k]).Some?
    ensures FirstRecord(h, rest) == FirstRecord(h, rest[..k])
  {
    var cut := rest[..k];
    assert Order32(h.big, cut, 0) == Order32(h.big, rest, 0);
    assert Order32(h.big, cut, 4) == Order32(h.big, rest, 4);
    assert Order32(h.big, cut, 8) == Order32(h.big, rest, 8);
    assert Order32(h.big, cut, 12) == Order32(h.big, rest, 12);
    var incl := Order32(h.big, cut, 8);
    assert cut[RECORD_HDR_LEN..RECORD_HDR_LEN + incl] == rest[RECORD_HDR_LEN..RECORD_HDR_LEN + incl];
  }

  /** For arbitrary bytes: what is read from a file still being written is a prefix of what is read later. */
  lemma {:induction false} ReadMonotone(h: Header, rest: Bytes, k: nat)
    requires k <= |rest|
    ensures Records(h, rest[..k]) <= Records(h, rest)
    decreases |rest|
  {
    var cut := rest[..k];
    match FirstRecord(h, cut)
    case None =>
    case Some(r) =>
      SameFirst(h, rest, k);
      var size := RECORD_HDR_LEN + |r.data|;
      assert AfterFirst(h, cut) == AfterFirst(h, rest)[..k - size];
      ReadMonotone(h, AfterFirst(h, rest), k - size);
  }
}
