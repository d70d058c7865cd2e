/** The TLS record layer and the hello messages inside it, as far as one TCP segment shows them. */
module Tls {
  import opened Octets

  datatype HelloInfo = HelloInfo(legacy: Option<nat>, cipher: Option<nat>, sni: Option<Bytes>,
                                 alpn: Option<seq<Bytes>>, versions: Option<seq<nat>>)

  datatype Handshake = NoHandshake | ClientHello(info: HelloInfo) | ServerHello(info: HelloInfo) | Named(htype: nat)

  datatype TlsRecord = TlsRecord(ctype: nat, version: nat, len: nat, spanning: bool, hs: Handshake)

  const HANDSHAKE := 22
  const APPLICATION_DATA := 23

  const NO_INFO := HelloInfo(None, None, None, None, None)

  predicate KnownContent(ctype: nat) {
    20 <= ctype <= 24
  }

  predicate KnownVersion(v: nat) {
    0x0300 <= v <= 0x0304
  }

  // ----- extensions -----

  function AlpnFrom(d: Bytes, p: nat): seq<Bytes>
    decreases |d| - p
  {
    if p >= |d| || p + 1 + d[p] > |d| then [] else [d[p + 1..p + 1 + d[p]]] + AlpnFrom(d, p + 1 + d[p])
  }

  method ReadAlpn(d: Bytes) returns (alpn: seq<Bytes>)
    requires |d| >= 2
    ensures alpn == AlpnFrom(d, 2)
  {
    alpn := [];
    var p := 2;
    while p < |d|
      invariant 2 <= p <= |d|
      invariant alpn + AlpnFrom(d, p) == AlpnFrom(d, 2)
    {
      var ln := d[p];
      if p + 1 + ln > |d| {
        NoTail(alpn);
        return;
      }
      Snoc(alpn, d[p + 1..p + 1 + ln], AlpnFrom(d, p + 1 + ln));
      alpn := alpn + [d[p + 1..p + 1 + ln]];
      p := p + 1 + ln;
    }
    NoTail(alpn);
  }

  /** The version list of a client's supported_versions, as far as both its length byte and the data reach. */
  function VersionsFrom(d: Bytes, p: nat): seq<nat>
    requires |d| >= 1
    decreases |d| - p
  {
    if p < d[0] && p + 1 < |d| then [At16(d, p)] + VersionsFrom(d, p + 2) else []
  }

  method ReadVersions(d: Bytes) returns (vers: seq<nat>)
    requires |d| >= 1
    ensures vers == VersionsFrom(d, 1)
  {
    vers := [];
    var p := 1;
    while p < d[0] && p + 1 < |d|
      invariant 1 <= p
      invariant vers + VersionsFrom(d, p) == VersionsFrom(d, 1)
      decreases |d| - p
    {
      Snoc(vers, At16(d, p), VersionsFrom(d, p + 2));
      vers := vers + [At16(d, p)];
      p := p + 2;
    }
    NoTail(vers);
  }

  /** What one extension contributes; a later one of the same kind overwrites an earlier. */
  function Apply(server: bool, etype: nat, d: Bytes, info: HelloInfo): HelloInfo {
    if etype == 0 && |d| >= 5 then
      if d[2] == 0 then info.(sni := Some(Slice(d, 5, 5 + At16(d, 3)))) else info
    else if etype == 16 && |d| >= 2 then
      if AlpnFrom(d, 2) != [] then info.(alpn := Some(AlpnFrom(d, 2))) else info
    else if etype == 43 && |d| >= 1 then
      if server then
        if |d| >= 2 then info.(versions := Some([At16(d, 0)])) else info
      else if VersionsFrom(d, 1) != [] then info.(versions := Some(VersionsFrom(d, 1))) else info
    else info
  }

  function Walk(b: Bytes, off: nat, end: nat, server: bool, info: HelloInfo): HelloInfo
    requires end <= |b|
    decreases end - off
  {
    if off + 4 > end then info else
    var elen := At16(b, off + 2);
    Walk(b, off + 4 + elen, end, server, Apply(server, At16(b, off), Slice(b, off + 4, off + 4 + elen), info))
  }

  function Extensions(b: Bytes, off: nat, server: bool, info: HelloInfo): HelloInfo {
    if off + 2 > |b| then info else Walk(b, off + 2, Min(|b|, off + 2 + At16(b, off)), server, info)
  }

  method NoteExtension(server: bool, etype: nat, d: Bytes, was: HelloInfo) returns (info: HelloInfo)
    ensures info == Apply(server, etype, d, was)
  {
    hide AlpnFrom, VersionsFrom, Slice;
    info := was;
    if etype == 0 && |d| >= 5 {
      if d[2] == 0 {
        info := info.(sni := Some(Slice(d, 5, 5 + At16(d, 3))));
      }
    } else if etype == 16 && |d| >= 2 {
      var alpn := ReadAlpn(d);
      if alpn != [] {
        info := info.(alpn := Some(alpn));
      }
    } else if etype == 43 && |d| >= 1 {
      var vers := [];
      if server {
        if |d| >= 2 {
          vers := [At16(d, 0)];
        }
      } else {
        vers := ReadVersions(d);
      }
      if vers != [] {
        info := info.(versions := Some(vers));
      }
    }
  }

  method ParseHelloExtensions(b: Bytes, start: nat, server: bool, info0: HelloInfo) returns (info: HelloInfo)
    ensures info == Extensions(b, start, server, info0)
  {
    hide Apply, Slice, At16;
    info := info0;
    if start + 2 > |b| {
      return;
    }
    var off := start + 2;
    var end: nat := Min(|b|, off + At16(b, start));
    while off + 4 <= end
      invariant start + 2 <= off
      invariant Walk(b, off, end, server, info) == Extensions(b, start, server, info0)
      decreases end - off
    {
      var etype, elen := At16(b, off), At16(b, off + 2);
      info := NoteExtension(server, etype, Slice(b, off + 4, off + 4 + elen), info);
      off := off + 4 + elen;
    }
  }

  // ----- hello messages and records -----

  function ClientInfo(b: Bytes): HelloInfo {
    if |b| < 38 then NO_INFO else
    var info := NO_INFO.(legacy := Some(At16(b, 0)));
    var o1: nat := (b[34] as int) + 35;
    if o1 + 2 > |b| then info else
    var o2 := o1 + 2 + At16(b, o1);
    if o2 >= |b| then info else
    Extensions(b, o2 + 1 + b[o2], false, info)
  }

  function ServerInfo(b: Bytes): HelloInfo {
    if |b| < 38 then NO_INFO else
    var info := NO_INFO.(legacy := Some(At16(b, 0)));
    var o1: nat := (b[34] as int) + 35;
    if o1 + 3 > |b| then info else
    Extensions(b, o1 + 3, true, info.(cipher := Some(At16(b, o1))))
  }

  function HandshakeOf(body: Bytes): Handshake {
    if |body| < 4 then NoHandshake else
    var hlen := (body[1] as int) * 0x1_0000 + At16(body, 2);
    var inner := if hlen != 0 then Slice(body, 4, 4 + hlen) else body[4..];
    if body[0] == 1 then ClientHello(ClientInfo(inner))
    else if body[0] == 2 then ServerHello(ServerInfo(inner))
    else Named(body[0])
  }

  predicate HasRecord(b: Bytes) {
    |b| >= 5 && KnownContent(b[0]) && KnownVersion(At16(b, 1))
  }

  function FirstRecord(b: Bytes): TlsRecord
    requires HasRecord(b)
  {
    var rlen := At16(b, 3);
    var body := Slice(b, 5, 5 + rlen);
    TlsRecord(b[0], At16(b, 1), rlen, |body| < rlen,
              if b[0] == HANDSHAKE && body != [] then HandshakeOf(body) else NoHandshake)
  }

  function AfterFirst(b: Bytes): Bytes
    requires HasRecord(b)
  {
    Slice(b, 5 + At16(b, 3), |b|)
  }

  /** Every record entry of one segment's payload. */
  function Records(b: Bytes): seq<TlsRecord>
    decreases |b|
  {
    if HasRecord(b) then [FirstRecord(b)] + Records(AfterFirst(b)) else []
  }

  lemma Whole(b: Bytes)
    ensures Slice(b, 0, |b|) == b
  {
  }

  /** The unread bytes at `off`, and those behind their first record. */
  lemma Further(b: Bytes, off: nat)
    requires off <= |b|
    ensures |Slice(b, off, |b|)| == |b| - off
    ensures var rest := Slice(b, off, |b|);
            HasRecord(rest) ==> AfterFirst(rest) == Slice(b, off + 5 + At16(rest, 3), |b|)
  {
    hide At16;
  }

  /** A record is read only from five bytes on. */
  lemma TooFew(b: Bytes, off: nat)
    requires |b| < off + 5
    ensures Records(Slice(b, off, |b|)) == []
  {
  }

  method ParseTlsRecords(b: Bytes) returns (out: seq<TlsRecord>)
    ensures out == Records(b)
  {
    hide HandshakeOf, FirstRecord, AfterFirst, Slice;
    out := [];
    var off := 0;
    Whole(b);
    while off + 5 <= |b|
      invariant 0 <= off
      invariant out + Records(Slice(b, off, |b|)) == Records(b)
    {
      var rest := Slice(b, off, |b|);
      Further(b, off);
      var ctype, ver, rlen := rest[0], At16(rest, 1), At16(rest, 3);
      if !KnownContent(ctype) || !KnownVersion(ver) {
        NoTail(out);
        return;
      }
      var rec := FirstRecord(rest);
      Snoc(out, rec, Records(AfterFirst(rest)));
      out := out + [rec];
      off := off + 5 + rlen;
    }
    TooFew(b, off);
    NoTail(out);
  }

  // ----- prefix safety -----

  predicate SameShape(r: TlsRecord, s: TlsRecord) {
    r.ctype == s.ctype && r.version == s.version && r.len == s.len
  }

  /** `rs` is what a shorter look at the stream `ss` shows: the same entries, of which only the last may be torn. */
  predicate ShortLook(rs: seq<TlsRecord>, ss: seq<TlsRecord>) {
    && |rs| <= |ss|
    && (forall i :: 0 <= i < |rs| ==> SameShape(rs[i], ss[i]))
    && (forall i :: 0 <= i < |rs| - 1 ==> rs[i] == ss[i] && !rs[i].spanning)
  }

  lemma ShortLookCons(r: TlsRecord, rs: seq<TlsRecord>, ss: seq<TlsRecord>)
    requires ShortLook(rs, ss) && !r.spanning
    ensures ShortLook([r] + rs, [r] + ss)
  {
  }

  lemma FirstOfCut(b: Bytes, k: nat)
    requires k <= |b| && HasRecord(b[..k])
    ensures HasRecord(b) && SameShape(FirstRecord(b[..k]), FirstRecord(b))
    ensures var size := 5 + At16(b, 3);
            if k < size then AfterFirst(b[..k]) == []
            else && FirstRecord(b[..k]) == FirstRecord(b) && !FirstRecord(b).spanning
                 && |AfterFirst(b)| == |b| - size && AfterFirst(b[..k]) == AfterFirst(b)[..k - size]
  {
    hide HandshakeOf;
    var cut, size := b[..k], 5 + At16(b, 3);
    assert At16(b, 1) == At16(cut, 1) && At16(b, 3) == At16(cut, 3);
    if k >= size {
      assert Slice(cut, 5, size) == Slice(b, 5, size);
    }
  }

  /** For arbitrary bytes: what is shown of a segment cut short agrees with what the whole segment shows. */
  lemma {:induction false} PrefixSafety(b: Bytes, k: nat)
    requires k <= |b|
    ensures ShortLook(Records(b[..k]), Records(b))
    decreases |b|
  {
    hide HandshakeOf, FirstRecord, ShortLook, AfterFirst;
    var cut := b[..k];
    if !HasRecord(cut) {
      Nothing(Records(b));
    } else {
      FirstOfCut(b, k);
      var size := 5 + At16(b, 3);
      if k < size {
        assert Records(cut) == [FirstRecord(cut)];
        assert Records(b)[0] == FirstRecord(b);
        OneTorn(FirstRecord(cut), Records(b));
      } else {
        PrefixSafety(AfterFirst(b), k - size);
        ShortLookCons(FirstRecord(b), Records(AfterFirst(cut)), Records(AfterFirst(b)));
      }
    }
  }

  lemma Nothing(ss: seq<TlsRecord>)
    ensures ShortLook([], ss)
  {
  }

  lemma OneTorn(r: TlsRecord, ss: seq<TlsRecord>)
    requires ss != [] && SameShape(r, ss[0])
    ensures ShortLook([r], ss)
  {
  }

  datatype Raw = Raw(ctype: Byte, version: nat, body: Bytes)

  type RawRecord = r: Raw | KnownContent(r.ctype) && KnownVersion(r.version) && |r.body| < 0x1_0000
    witness Raw(22, 0x0303, [])

  function RawBytes(r: RawRecord): (b: Bytes)
    ensures |b| == 5 + |r.body|
  {
    [r.ctype] + U16(r.version) + U16(|r.body|) + r.body
  }

  function Stream(rs: seq<RawRecord>): Bytes {
    if rs == [] then [] else RawBytes(rs[0]) + Stream(rs[1..])
  }

  function Entry(r: RawRecord): TlsRecord {
    TlsRecord(r.ctype, r.version, |r.body|, false,
              if r.ctype == HANDSHAKE && r.body != [] then HandshakeOf(r.body) else NoHandshake)
  }

  lemma RawFields(r: RawRecord, tail: Bytes)
    ensures var b := RawBytes(r) + tail; b[0] == r.ctype && At16(b, 1) == r.version && At16(b, 3) == |r.body|
  {
    var b := RawBytes(r) + tail;
    assert b[1..3] == U16(r.version) && At16(b, 1) == At16(b[1..3], 0);
    assert b[3..5] == U16(|r.body|) && At16(b, 3) == At16(b[3..5], 0);
  }

  lemma FirstOfStream(r: RawRecord, tail: Bytes)
    ensures var b := RawBytes(r) + tail;
            HasRecord(b) && FirstRecord(b) == Entry(r) && AfterFirst(b) == tail
  {
    hide HandshakeOf;
    RawFields(r, tail);
    var b := RawBytes(r) + tail;
    assert Slice(b, 5, 5 + |r.body|) == r.body;
    assert Slice(b, 5 + |r.body|, |b|) == tail;
  }

  lemma FirstTorn(r: RawRecord, k: nat)
    requires k < 5 + |r.body|
    ensures var b := RawBytes(r)[..k];
            if k < 5 then !HasRecord(b)
            else HasRecord(b) && SameShape(FirstRecord(b), Entry(r)) && FirstRecord(b).spanning && AfterFirst(b) == []
  {
    hide HandshakeOf;
    var b := RawBytes(r)[..k];
    if k >= 5 {
      RawFields(r, []);
      NoTail(RawBytes(r));
      assert At16(b, 1) == r.version && At16(b, 3) == |r.body|;
    }
  }

  /** How many records have their five-byte header within the first `k` bytes. */
  function Begun(rs: seq<RawRecord>, k: nat): (m: nat)
    ensures m <= |rs|
  {
    if rs == [] || k < 5 then 0 else if k < 5 + |rs[0].body| then 1 else 1 + Begun(rs[1..], k - 5 - |rs[0].body|)
  }

  /**
   * What `got` should be for the first `k` bytes of the records: one entry, with the right type, version and length,
   * for every record whose header is there; all but the last are whole; the last is marked as spanning exactly when
   * the cut falls inside it.
   */
  predicate Shown(rs: seq<RawRecord>, k: nat, got: seq<TlsRecord>) {
    var m := Begun(rs, k);
    && |got| == m
    && (forall i :: 0 <= i < m ==> SameShape(got[i], Entry(rs[i])))
    && (forall i :: 0 <= i < m - 1 ==> got[i] == Entry(rs[i]))
    && (m > 0 ==> (got[m - 1].spanning <==> k < |Stream(rs[..m])|))
    && (m > 0 && k >= |Stream(rs[..m])| ==> got[m - 1] == Entry(rs[m - 1]))
  }

  lemma ShownTorn(rs: seq<RawRecord>, k: nat, r: TlsRecord)
    requires rs != [] && 5 <= k < 5 + |rs[0].body| && SameShape(r, Entry(rs[0])) && r.spanning
    ensures Shown(rs, k, [r])
  {
    hide Entry;
    assert rs[..1] == [rs[0]] && Stream(rs[..1]) == RawBytes(rs[0]) + Stream([]);
  }

  lemma ShownCons(rs: seq<RawRecord>, k: nat, rest: seq<TlsRecord>)
    requires rs != [] && k >= 5 + |rs[0].body| && Shown(rs[1..], k - 5 - |rs[0].body|, rest)
    ensures Shown(rs, k, [Entry(rs[0])] + rest)
  {
    hide HandshakeOf, RawBytes;
    var m, got := Begun(rs, k), [Entry(rs[0])] + rest;
    assert rs[..m][0] == rs[0] && rs[..m][1..] == rs[1..][..m - 1];
    assert Stream(rs[..m]) == RawBytes(rs[0]) + Stream(rs[1..][..m - 1]);
    assert forall i :: 1 <= i < m ==> got[i] == rest[i - 1] && rs[i] == rs[1..][i - 1];
    if m == 1 {
      assert Stream(rs[1..][..0]) == [];
    }
  }

  /** Any byte prefix of a concatenation of valid records. */
  lemma {:induction false} StreamPrefix(rs: seq<RawRecord>, k: nat)
    requires k <= |Stream(rs)|
    ensures Shown(rs, k, Records(Stream(rs)[..k]))
    decreases |rs|
  {
    hide HasRecord, FirstRecord, AfterFirst, Shown, Entry, RawBytes;
    var cut := Stream(rs)[..k];
    if rs == [] {
      NothingLeft();
      assert cut == [];
      ShownNothing(rs, k);
    } else if k < 5 + |rs[0].body| {
      assert cut == RawBytes(rs[0])[..k];
      FirstTorn(rs[0], k);
      if k >= 5 {
        NothingLeft();
        assert Records(cut) == [FirstRecord(cut)];
        ShownTorn(rs, k, FirstRecord(cut));
      } else {
        ShownNothing(rs, k);
      }
    } else {
      var size := 5 + |rs[0].body|;
      var tail := Stream(rs[1..])[..k - size];
      assert cut == RawBytes(rs[0]) + tail;
      FirstOfStream(rs[0], tail);
      StreamPrefix(rs[1..], k - size);
      ShownCons(rs, k, Records(tail));
    }
  }

  lemma ShownNothing(rs: seq<RawRecord>, k: nat)
    requires rs == [] || k < 5
    ensures Shown(rs, k, [])
  {
  }

  lemma NothingLeft()
    ensures !HasRecord([])
  {
  }
}
