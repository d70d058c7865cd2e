/** Hello messages as they are built, and what the TLS walk of such a message recovers. */
module Hellos {
  import opened Octets
  import opened Tls

  type Proto = p: Bytes | |p| < 256

  type U16Val = v: nat | v < 0x1_0000

  datatype Extension =
    | Sni(name: Bytes)
    | Alpn(protos: seq<Proto>)
    | Versions(vs: seq<U16Val>)
    | Selected(v: U16Val)
    | Other(etype: U16Val, data: Bytes)

  function AlpnBytes(ps: seq<Proto>): Bytes {
    if ps == [] then [] else [|ps[0]|] + ps[0] + AlpnBytes(ps[1..])
  }

  function VersionBytes(vs: seq<U16Val>): (r: Bytes)
    ensures |r| == 2 * |vs|
  {
    if vs == [] then [] else U16(vs[0]) + VersionBytes(vs[1..])
  }

  /** An extension that fits its length fields, in a hello of the given side. */
  predicate Fits(e: Extension, server: bool) {
    match e
    case Sni(name) => |name| + 5 < 0x1_0000
    case Alpn(ps) => |AlpnBytes(ps)| + 2 < 0x1_0000
    case Versions(vs) => !server && |vs| <= 127
    case Selected(_) => server
    case Other(t, d) => t != 0 && t != 16 && t != 43 && |d| < 0x1_0000
  }

  function TypeOf(e: Extension): U16Val {
    match e
    case Sni(_) => 0
    case Alpn(_) => 16
    case Versions(_) => 43
    case Selected(_) => 43
    case Other(t, _) => t
  }

  function DataOf(e: Extension, server: bool): (d: Bytes)
    requires Fits(e, server)
    ensures |d| < 0x1_0000
  {
    match e
    case Sni(name) => U16(3 + |name|) + [0] + U16(|name|) + name
    case Alpn(ps) => U16(|AlpnBytes(ps)|) + AlpnBytes(ps)
    case Versions(vs) => [2 * |vs|] + VersionBytes(vs)
    case Selected(v) => U16(v)
    case Other(_, d) => d
  }

  /** What the message says: the last name, protocol list and version list win, and empty lists say nothing. */
  function Effect(e: Extension, info: HelloInfo): HelloInfo {
    match e
    case Sni(name) => info.(sni := Some(name))
    case Alpn(ps) => if ps == [] then info else info.(alpn := Some(ps))
    case Versions(vs) => if vs == [] then info else info.(versions := Some(vs))
    case Selected(v) => info.(versions := Some([v]))
    case Other(_, _) => info
  }

  function Effects(es: seq<Extension>, info: HelloInfo): HelloInfo {
    if es == [] then info else Effects(es[1..], Effect(es[0], info))
  }

  predicate AllFit(es: seq<Extension>, server: bool) {
    forall i :: 0 <= i < |es| ==> Fits(es[i], server)
  }

  function ExtensionBytes(e: Extension, server: bool): (b: Bytes)
    requires Fits(e, server)
    ensures |b| == 4 + |DataOf(e, server)|
  {
    U16(TypeOf(e)) + U16(|DataOf(e, server)|) + DataOf(e, server)
  }

  function Block(es: seq<Extension>, server: bool): Bytes
    requires AllFit(es, server)
  {
    if es == [] then [] else ExtensionBytes(es[0], server) + Block(es[1..], server)
  }

  // ----- one extension -----

  lemma AlpnHead(d: Bytes, p: nat, ps: seq<Proto>)
    requires p <= |d| && ps != [] && d[p..] == AlpnBytes(ps)
    ensures p + 1 + |ps[0]| <= |d| && d[p] == |ps[0]| && d[p + 1..p + 1 + |ps[0]|] == ps[0]
    ensures d[p + 1 + |ps[0]|..] == AlpnBytes(ps[1..])
  {
    var rest := d[p..];
    assert rest == [|ps[0]|] + ps[0] + AlpnBytes(ps[1..]);
    assert d[p] == rest[0] && d[p + 1..p + 1 + |ps[0]|] == rest[1..1 + |ps[0]|];
    assert d[p + 1 + |ps[0]|..] == rest[1 + |ps[0]|..];
  }

  lemma {:induction false} AlpnRead(d: Bytes, p: nat, ps: seq<Proto>)
    requires p <= |d| && d[p..] == AlpnBytes(ps)
    ensures AlpnFrom(d, p) == ps
    decreases |ps|
  {
    if ps != [] {
      AlpnHead(d, p, ps);
      AlpnRead(d, p + 1 + |ps[0]|, ps[1..]);
      assert ps == [ps[0]] + ps[1..];
    }
  }

  lemma {:induction false} VersionsRead(d: Bytes, p: nat, vs: seq<U16Val>)
    requires 1 <= p <= |d| && d[0] == |d| - 1 && d[p..] == VersionBytes(vs)
    ensures VersionsFrom(d, p) == vs
    decreases |vs|
  {
    assert |d| == p + 2 * |vs|;
    if vs != [] {
      assert d[p..][..2] == U16(vs[0]) && At16(d, p) == At16(U16(vs[0]), 0);
      assert d[p + 2..] == d[p..][2..] == VersionBytes(vs[1..]);
      VersionsRead(d, p + 2, vs[1..]);
    }
  }

  lemma SniRead(name: Bytes)
    requires |name| + 5 < 0x1_0000
    ensures var d := DataOf(Sni(name), false);
            |d| >= 5 && d[2] == 0 && At16(d, 3) == |name| && Slice(d, 5, 5 + |name|) == name
  {
    var d := DataOf(Sni(name), false);
    assert d[3..5] == U16(|name|) && At16(d, 3) == At16(d[3..5], 0);
    assert d[5..] == name;
  }

  lemma Applied(e: Extension, server: bool, info: HelloInfo)
    requires Fits(e, server)
    ensures Apply(server, TypeOf(e), DataOf(e, server), info) == Effect(e, info)
  {
    hide AlpnFrom, VersionsFrom, AlpnBytes, VersionBytes;
    var d := DataOf(e, server);
    match e
    case Sni(name) =>
      SniRead(name);
    case Alpn(ps) =>
      assert d[2..] == AlpnBytes(ps);
      AlpnRead(d, 2, ps);
    case Versions(vs) =>
      assert d[1..] == VersionBytes(vs);
      VersionsRead(d, 1, vs);
    case Selected(v) =>
    case Other(_, _) =>
  }

  // ----- a whole extension block -----

  lemma HeadOfBlock(pre: Bytes, e: Extension, server: bool, tail: Bytes)
    requires Fits(e, server)
    ensures var b, n := pre + ExtensionBytes(e, server) + tail, |DataOf(e, server)|;
            && At16(b, |pre|) == TypeOf(e) && At16(b, |pre| + 2) == n
            && Slice(b, |pre| + 4, |pre| + 4 + n) == DataOf(e, server)
  {
    hide DataOf, TypeOf, Fits;
    var b, n, o := pre + ExtensionBytes(e, server) + tail, |DataOf(e, server)|, |pre|;
    assert b[o..o + 2] == U16(TypeOf(e)) && At16(b, o) == At16(b[o..o + 2], 0);
    assert b[o + 2..o + 4] == U16(n) && At16(b, o + 2) == At16(b[o + 2..o + 4], 0);
    assert b[o + 4..o + 4 + n] == DataOf(e, server);
  }

  /** Walking a block of any extensions, in any order and number, computes exactly what they say. */
  lemma {:induction false} BlockRead(pre: Bytes, es: seq<Extension>, server: bool, tail: Bytes, info: HelloInfo)
    requires AllFit(es, server)
    ensures Walk(pre + Block(es, server) + tail, |pre|, |pre| + |Block(es, server)|, server, info) == Effects(es, info)
    decreases |es|
  {
    hide Apply, Effect, DataOf, TypeOf, Fits, Slice, ExtensionBytes, At16;
    var b := pre + Block(es, server) + tail;
    if es != [] {
      var head := ExtensionBytes(es[0], server);
      assert b == pre + head + (Block(es[1..], server) + tail);
      HeadOfBlock(pre, es[0], server, Block(es[1..], server) + tail);
      Applied(es[0], server, info);
      assert b == (pre + head) + Block(es[1..], server) + tail;
      BlockRead(pre + head, es[1..], server, tail, Effect(es[0], info));
    }
  }

  function LengthPrefixed(block: Bytes): Bytes
    requires |block| < 0x1_0000
  {
    U16(|block|) + block
  }

  lemma ExtensionsRead(pre: Bytes, es: seq<Extension>, server: bool, info: HelloInfo)
    requires AllFit(es, server) && |Block(es, server)| < 0x1_0000
    ensures Extensions(pre + LengthPrefixed(Block(es, server)), |pre|, server, info) == Effects(es, info)
  {
    hide Walk, Block, Effects;
    var block := Block(es, server);
    var b, o := pre + LengthPrefixed(block), |pre|;
    assert b[o..o + 2] == U16(|block|) && At16(b, o) == At16(b[o..o + 2], 0);
    assert b == (pre + U16(|block|)) + block + [];
    BlockRead(pre + U16(|block|), es, server, [], info);
  }

  // ----- whole hellos -----

  type Random = r: Bytes | |r| == 32
    witness [0, 0, 0, 0, 0, 0, 0, 0, 0, 0, 0, 0, 0, 0, 0, 0, 0, 0, 0, 0, 0, 0, 0, 0, 0, 0, 0, 0, 0, 0, 0, 0]

  function ClientFixed(legacy: U16Val, random: Random, sid: Proto, suites: Bytes, comps: Proto): Bytes
    requires |suites| < 0x1_0000
  {
    U16(legacy) + random + [|sid|] + sid + U16(|suites|) + suites + [|comps|] + comps
  }

  /** The body of any ClientHello of section 4.1.2 of RFC 8446. */
  function ClientBody(legacy: U16Val, random: Random, sid: Proto, suites: Bytes, comps: Proto,
                      es: seq<Extension>): Bytes
    requires |suites| < 0x1_0000 && AllFit(es, false) && |Block(es, false)| < 0x1_0000
  {
    ClientFixed(legacy, random, sid, suites, comps) + LengthPrefixed(Block(es, false))
  }

  lemma ClientOffsets(legacy: U16Val, random: Random, sid: Proto, suites: Bytes, comps: Proto, tail: Bytes)
    requires |suites| < 0x1_0000
    ensures var b, o1 := ClientFixed(legacy, random, sid, suites, comps) + tail, 35 + |sid|;
            && At16(b, 0) == legacy && b[34] == |sid| && o1 + 2 <= |b| && At16(b, o1) == |suites|
            && o1 + 2 + |suites| < |b| && b[o1 + 2 + |suites|] == |comps|
            && o1 + 3 + |suites| + |comps| == |ClientFixed(legacy, random, sid, suites, comps)|
  {
    var b, o1 := ClientFixed(legacy, random, sid, suites, comps) + tail, 35 + |sid|;
    assert b[0..2] == U16(legacy) && At16(b, 0) == At16(b[0..2], 0);
    assert b[o1..o1 + 2] == U16(|suites|) && At16(b, o1) == At16(b[o1..o1 + 2], 0);
  }

  /** Parsing any well-formed ClientHello gives its legacy version and exactly what its extensions say. */
  lemma ClientRoundTrip(legacy: U16Val, random: Random, sid: Proto, suites: Bytes, comps: Proto, es: seq<Extension>)
    requires |suites| < 0x1_0000 && AllFit(es, false) && |Block(es, false)| < 0x1_0000
    ensures ClientInfo(ClientBody(legacy, random, sid, suites, comps, es)) ==
            Effects(es, NO_INFO.(legacy := Some(legacy)))
  {
    hide Extensions, Block, Effects, AllFit;
    var fixed := ClientFixed(legacy, random, sid, suites, comps);
    var tail := LengthPrefixed(Block(es, false));
    ClientOffsets(legacy, random, sid, suites, comps, tail);
    ExtensionsRead(fixed, es, false, NO_INFO.(legacy := Some(legacy)));
  }

  function ServerFixed(legacy: U16Val, random: Random, sid: Proto, cipher: U16Val, comp: Byte): (r: Bytes)
    ensures |r| == 38 + |sid|
  {
    U16(legacy) + random + [|sid|] + sid + U16(cipher) + [comp]
  }

  lemma ServerRoundTrip(legacy: U16Val, random: Random, sid: Proto, cipher: U16Val, comp: Byte, es: seq<Extension>)
    requires AllFit(es, true) && |Block(es, true)| < 0x1_0000
    ensures ServerInfo(ServerFixed(legacy, random, sid, cipher, comp) + LengthPrefixed(Block(es, true)))
         == Effects(es, NO_INFO.(legacy := Some(legacy), cipher := Some(cipher)))
  {
    hide Extensions, Block, Effects, AllFit;
    var fixed := ServerFixed(legacy, random, sid, cipher, comp);
    var b, o1 := fixed + LengthPrefixed(Block(es, true)), 35 + |sid|;
    assert b[0..2] == U16(legacy) && At16(b, 0) == At16(b[0..2], 0);
    assert b[o1..o1 + 2] == U16(cipher) && At16(b, o1) == At16(b[o1..o1 + 2], 0);
    ExtensionsRead(fixed, es, true, NO_INFO.(legacy := Some(legacy), cipher := Some(cipher)));
  }

  // ----- the ClientHello the self-test builds -----

  const ZERO_RANDOM: Random :=
    [0, 0, 0, 0, 0, 0, 0, 0, 0, 0, 0, 0, 0, 0, 0, 0, 0, 0, 0, 0, 0, 0, 0, 0, 0, 0, 0, 0, 0, 0, 0, 0]

  const H2: Proto := [0x68, 0x32]
  const HTTP11: Proto := [0x68, 0x74, 0x74, 0x70, 0x2f, 0x31, 0x2e, 0x31]

  function HelloExtensions(sni: Bytes): seq<Extension> {
    [Sni(sni), Alpn([H2, HTTP11])]
  }

  /** The longest server name for which every length field of the built record still fits. */
  const MAX_SNI := 65461

  lemma HelloBlock(sni: Bytes)
    requires |sni| <= MAX_SNI
    ensures AllFit(HelloExtensions(sni), false) && |Block(HelloExtensions(sni), false)| == |sni| + 27
  {
    var es := HelloExtensions(sni);
    assert [H2, HTTP11][1..] == [HTTP11] && [HTTP11][1..] == [];
    assert AlpnBytes([]) == [] && AlpnBytes([HTTP11]) == [8] + HTTP11 + AlpnBytes([]);
    assert AlpnBytes([H2, HTTP11]) == [2] + H2 + AlpnBytes([HTTP11]);
    assert Fits(es[0], false) && Fits(es[1], false);
    assert es[1..] == [es[1]] && es[1..][1..] == [];
    assert |Block(es[1..], false)| == |ExtensionBytes(es[1], false)|;
  }

  function BuildClientHello(sni: Bytes): Bytes
    requires |sni| <= MAX_SNI
  {
    HelloBlock(sni);
    var body := ClientBody(0x0303, ZERO_RANDOM, [], [0x13, 0x01], [0], HelloExtensions(sni));
    var hs := [1, 0] + U16(|body|) + body;
    [22] + U16(0x0303) + U16(|hs|) + hs
  }

  lemma EffectsOfTwo(e1: Extension, e2: Extension, info: HelloInfo)
    ensures Effects([e1, e2], info) == Effect(e2, Effect(e1, info))
  {
    var es := [e1, e2];
    assert es[1..] == [e2] && es[1..][1..] == [];
    assert Effects([e2], Effect(e1, info)) == Effects([], Effect(e2, Effect(e1, info)));
  }

  lemma InnerHello(body: Bytes)
    requires 0 < |body| < 0x1_0000
    ensures HandshakeOf([1, 0] + U16(|body|) + body) == ClientHello(ClientInfo(body))
  {
    hide ClientInfo, ServerInfo;
    var hs := [1, 0] + U16(|body|) + body;
    assert hs[2..4] == U16(|body|) && At16(hs, 2) == At16(hs[2..4], 0);
    assert Slice(hs, 4, 4 + |body|) == body;
  }

  /** For every server name that fits, parsing the built record returns it, the protocol list, and nothing torn. */
  lemma ClientHelloRoundTrip(sni: Bytes)
    requires |sni| <= MAX_SNI
    ensures Records(BuildClientHello(sni)) ==
            [TlsRecord(22, 0x0303, |sni| + 74, false,
                       ClientHello(HelloInfo(Some(0x0303), None, Some(sni), Some([H2, HTTP11]), None)))]
  {
    hide ClientInfo, HandshakeOf, Block, AllFit, HasRecord, FirstRecord, AfterFirst;
    HelloBlock(sni);
    var es := HelloExtensions(sni);
    var body := ClientBody(0x0303, ZERO_RANDOM, [], [0x13, 0x01], [0], es);
    ClientRoundTrip(0x0303, ZERO_RANDOM, [], [0x13, 0x01], [0], es);
    InnerHello(body);
    var hs := [1, 0] + U16(|body|) + body;
    var raw: RawRecord := Raw(22, 0x0303, hs);
    FirstOfStream(raw, []);
    NoTail(RawBytes(raw));
    NothingLeft();
    EffectsOfTwo(es[0], es[1], NO_INFO.(legacy := Some(0x0303)));
  }
}
