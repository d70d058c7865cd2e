/** Reassembly of a screenshot sent over the serial line as numbered base64 chunks. */
module Screenshot {
  import opened Octets

  // ----- base64 (section 4 of RFC 4648) -----

  type Sextet = v: nat | v < 64

  function Symbol(v: Sextet): char {
    if v < 26 then ('A' as int + v) as char
    else if v < 52 then ('a' as int + v - 26) as char
    else if v < 62 then ('0' as int + v - 52) as char
    else if v == 62 then '+' else '/'
  }

  function Value(c: char): Option<Sextet> {
    if 'A' <= c <= 'Z' then Some(c as int - 'A' as int)
    else if 'a' <= c <= 'z' then Some(c as int - 'a' as int + 26)
    else if '0' <= c <= '9' then Some(c as int - '0' as int + 52)
    else if c == '+' then Some(62)
    else if c == '/' then Some(63)
    else None
  }

  lemma SymbolValue(v: Sextet)
    ensures Value(Symbol(v)) == Some(v) && Symbol(v) != '='
  {
  }

  function Quad(a: Byte, b: Byte, c: Byte): (q: string)
    ensures |q| == 4
  {
    [Symbol(a / 4), Symbol(a % 4 * 16 + b / 16), Symbol(b % 16 * 4 + c / 64), Symbol(c % 64)]
  }

  function Encode(bs: Bytes): (e: string)
    ensures |e| % 4 == 0 && |e| / 4 == (|bs| + 2) / 3
  {
    if |bs| == 0 then ""
    else if |bs| == 1 then Quad(bs[0], 0, 0)[..2] + "=="
    else if |bs| == 2 then Quad(bs[0], bs[1], 0)[..3] + "="
    else Quad(bs[0], bs[1], bs[2]) + Encode(bs[3..])
  }

  /** What one data character adds to the output, and what is left over for the next. */
  function Emit(quad: nat, left: nat, v: Sextet): (r: (Bytes, nat))
    requires quad < 4 && left < 64
    ensures r.1 < 64
  {
    match quad
    case 0 => ([], v)
    case 1 => ([(left * 4 + v / 16) % 256], v % 16)
    case 2 => ([(left * 16 + v / 4) % 256], v % 4)
    case _ => ([(left * 64 + v) % 256], 0)
  }

  /**
   * The lenient library decoder: unknown characters are skipped, a completed padding ends the data, and data that ends
   * inside a group is an error.
   */
  function Decode(s: string, quad: nat, left: nat, pads: nat): Option<Bytes>
    requires quad < 4 && left < 64
    decreases |s|
  {
    if s == "" then (if quad == 0 then Some([]) else None)
    else if s[0] == '=' then
      if quad >= 2 && quad + pads + 1 >= 4 then Some([])
      else Decode(s[1..], quad, left, if quad >= 2 then pads + 1 else pads)
    else match Value(s[0])
      case None => Decode(s[1..], quad, left, pads)
      case Some(v) =>
        var (out, left') := Emit(quad, left, v);
        match Decode(s[1..], (quad + 1) % 4, left', 0)
        case None => None
        case Some(rest) => Some(out + rest)
  }

  function Prepend(out: Bytes, r: Option<Bytes>): Option<Bytes> {
    match r case None => None case Some(rest) => Some(out + rest)
  }

  lemma DecodeSymbol(v: Sextet, t: string, quad: nat, left: nat, pads: nat)
    requires quad < 4 && left < 64
    ensures var (out, rest) := Emit(quad, left, v);
            Decode([Symbol(v)] + t, quad, left, pads) == Prepend(out, Decode(t, (quad + 1) % 4, rest, 0))
  {
    hide Emit, Symbol, Value;
    SymbolValue(v);
    assert ([Symbol(v)] + t)[1..] == t;
  }

  /** The four sextets of three bytes give those bytes back, one position at a time. */
  lemma Emitted(a: Byte, b: Byte, c: Byte)
    ensures Emit(0, 0, a / 4) == ([], a / 4)
    ensures Emit(1, a / 4, a % 4 * 16 + b / 16) == ([a], b / 16)
    ensures Emit(2, b / 16, b % 16 * 4 + c / 64) == ([b], c / 64)
    ensures Emit(3, c / 64, c % 64) == ([c], 0)
  {
    assert (a % 4 * 16 + b / 16) / 16 == a % 4 && (a % 4 * 16 + b / 16) % 16 == b / 16;
    assert (b % 16 * 4 + c / 64) / 4 == b % 16 && (b % 16 * 4 + c / 64) % 4 == c / 64;
  }

  lemma TwoSymbols(a: Byte, b: Byte, t: string, pads: nat)
    ensures Decode([Symbol(a / 4), Symbol(a % 4 * 16 + b / 16)] + t, 0, 0, pads) ==
            Prepend([a], Decode(t, 2, b / 16, 0))
  {
    hide Symbol, Decode, Emit;
    Emitted(a, b, 0);
    var x, y := a / 4, a % 4 * 16 + b / 16;
    assert [Symbol(x), Symbol(y)] + t == [Symbol(x)] + ([Symbol(y)] + t);
    DecodeSymbol(x, [Symbol(y)] + t, 0, 0, pads);
    DecodeSymbol(y, t, 1, x, 0);
    Joined([], [a], Decode(t, 2, b / 16, 0));
    assert [] + [a] == [a];
  }

  lemma Joined(x: Bytes, y: Bytes, r: Option<Bytes>)
    ensures Prepend(x, Prepend(y, r)) == Prepend(x + y, r)
  {
    if r.Some? {
      assert x + (y + r.value) == x + y + r.value;
    }
  }

  lemma ThreeSymbols(a: Byte, b: Byte, c: Byte, t: string, pads: nat)
    ensures Decode(Quad(a, b, c)[..3] + t, 0, 0, pads) == Prepend([a, b], Decode(t, 3, c / 64, 0))
  {
    hide Symbol, Decode, Emit;
    Emitted(a, b, c);
    var z := b % 16 * 4 + c / 64;
    assert Quad(a, b, c)[..3] + t == [Symbol(a / 4), Symbol(a % 4 * 16 + b / 16)] + ([Symbol(z)] + t);
    TwoSymbols(a, b, [Symbol(z)] + t, pads);
    DecodeSymbol(z, t, 2, b / 16, 0);
    Joined([a], [b], Decode(t, 3, c / 64, 0));
    assert [a] + [b] == [a, b];
  }

  lemma FourSymbols(a: Byte, b: Byte, c: Byte, t: string, pads: nat)
    ensures Decode(Quad(a, b, c) + t, 0, 0, pads) == Prepend([a, b, c], Decode(t, 0, 0, 0))
  {
    hide Symbol, Decode, Emit;
    Emitted(a, b, c);
    assert Quad(a, b, c) + t == Quad(a, b, c)[..3] + ([Symbol(c % 64)] + t);
    ThreeSymbols(a, b, c, [Symbol(c % 64)] + t, pads);
    DecodeSymbol(c % 64, t, 3, c / 64, 0);
    Joined([a, b], [c], Decode(t, 0, 0, 0));
    assert [a, b] + [c] == [a, b, c];
  }

  lemma Padded(left: nat)
    requires left < 64
    ensures Decode("==", 2, left, 0) == Some([]) && Decode("=", 3, left, 0) == Some([])
  {
    assert "=="[1..] == "=";
  }

  /** Decoding any whole number of groups of an encoding gives the bytes they stand for. */
  lemma {:induction false} DecodePrefix(bs: Bytes, m: nat, pads: nat)
    requires 4 * m <= |Encode(bs)|
    ensures Decode(Encode(bs)[..4 * m], 0, 0, pads) == Some(bs[..Min(|bs|, 3 * m)])
    decreases |bs|
  {
    hide Symbol, Quad, Decode;
    var e := Encode(bs);
    if m == 0 {
      assert e[..0] == "" && bs[..0] == [];
      DecodeNothing(pads);
    } else if |bs| == 1 {
      assert m == 1 && e == Quad(bs[0], 0, 0)[..2] + "==";
      assert e[..4] == [Symbol(bs[0] / 4), Symbol(bs[0] % 4 * 16 + 0 / 16)] + "==" by { QuadIs(bs[0], 0, 0); }
      TwoSymbols(bs[0], 0, "==", pads);
      Padded(0);
      assert bs == [bs[0]] && bs[..1] == bs;
      NoTail([bs[0]]);
    } else if |bs| == 2 {
      assert m == 1 && e == Quad(bs[0], bs[1], 0)[..3] + "=";
      assert e[..4] == Quad(bs[0], bs[1], 0)[..3] + "=";
      ThreeSymbols(bs[0], bs[1], 0, "=", pads);
      Padded(0);
      assert bs == [bs[0], bs[1]] && bs[..2] == bs;
      NoTail([bs[0], bs[1]]);
    } else {
      var q, rest := Quad(bs[0], bs[1], bs[2]), Encode(bs[3..]);
      assert e[..4 * m] == q + rest[..4 * (m - 1)];
      FourSymbols(bs[0], bs[1], bs[2], rest[..4 * (m - 1)], pads);
      DecodePrefix(bs[3..], m - 1, 0);
      assert bs[..Min(|bs|, 3 * m)] == [bs[0], bs[1], bs[2]] + bs[3..][..Min(|bs| - 3, 3 * (m - 1))];
    }
  }

  lemma DecodeNothing(pads: nat)
    ensures Decode("", 0, 0, pads) == Some([])
  {
  }

  lemma QuadIs(a: Byte, b: Byte, c: Byte)
    ensures Quad(a, b, c)[..2] == [Symbol(a / 4), Symbol(a % 4 * 16 + b / 16)]
  {
  }

  // ----- the chunk stream -----

  const CHUNK := 76
  const CHUNK_BYTES := 57
  const MAX_LINES := 4_000_000

  const PNG_SIGNATURE: Bytes := [0x89, 0x50, 0x4E, 0x47, 0x0D, 0x0A, 0x1A, 0x0A]

  datatype Chunk = Chunk(idx: nat, total: nat, text: string)

  /** What the browser's header line says of the picture: its path, its size, and whether its signature was good. */
  datatype Header = Header(path: string, size: nat, sigOk: bool)

  /**
   * A serial line as far as one stream is concerned: perhaps its header, and its chunk or else perhaps its end marker.
   */
  datatype ShotLine = ShotLine(header: Option<Header>, chunk: Option<Chunk>, end: bool)

  datatype Stream = Stream(chunks: map<nat, string>, total: Option<nat>, endSeen: bool, header: Option<Header>)

  function Note(was: Stream, l: ShotLine): Stream {
    var s := if was.header.None? then was.(header := l.header) else was;
    if l.chunk.Some? then
      var c := l.chunk.value;
      var total := if s.total.None? then c.total else s.total.value;
      s.(total := Some(total), chunks := if c.total == total then s.chunks[c.idx := c.text] else s.chunks)
    else if l.end then s.(endSeen := true)
    else s
  }

  function Collect(log: seq<ShotLine>): Stream {
    if log == [] then Stream(map[], None, false, None) else Note(Collect(log[..|log| - 1]), log[|log| - 1])
  }

  method CollectChunks(log: seq<ShotLine>)
    returns (chunks: map<nat, string>, total: Option<nat>, endSeen: bool, header: Option<Header>)
    ensures Stream(chunks, total, endSeen, header) == Collect(log[..Min(|log|, MAX_LINES)])
  {
    chunks, total, endSeen, header := map[], None, false, None;
    var n := Min(|log|, MAX_LINES);
    for i := 0 to n
      invariant Stream(chunks, total, endSeen, header) == Collect(log[..i])
    {
      assert log[..i + 1][..i] == log[..i];
      if header.None? {
        header := log[i].header;
      }
      if log[i].chunk.Some? {
        var c := log[i].chunk.value;
        if total.None? {
          total := Some(c.total);
        }
        if c.total == total.value {
          chunks := chunks[c.idx := c.text];
        }
      } else if log[i].end {
        endSeen := true;
      }
    }
  }

  /** The length of the leading run of chunks 0, 1, 2, ... below `limit`. */
  function RunFrom(chunks: map<nat, string>, limit: nat, i: nat): (g: nat)
    requires i <= limit
    ensures i <= g <= limit && (forall j :: i <= j < g ==> j in chunks) && (g < limit ==> g !in chunks)
    decreases limit - i
  {
    if i < limit && i in chunks then RunFrom(chunks, limit, i + 1) else i
  }

  function Concat(chunks: map<nat, string>, n: nat): string
    requires forall j :: 0 <= j < n ==> j in chunks
  {
    if n == 0 then "" else Concat(chunks, n - 1) + chunks[n - 1]
  }

  method ContiguousB64(chunks: map<nat, string>, total: nat) returns (text: string, count: nat, firstGap: Option<nat>)
    ensures count == RunFrom(chunks, total, 0) && text == Concat(chunks, count)
    ensures firstGap == if count == total then None else Some(count)
  {
    text, count := "", 0;
    while count < total && count in chunks
      invariant count <= total && forall j :: 0 <= j < count ==> j in chunks
      invariant text == Concat(chunks, count) && RunFrom(chunks, total, count) == RunFrom(chunks, total, 0)
    {
      text := text + chunks[count];
      count := count + 1;
    }
    firstGap := if count >= total then None else Some(count);
  }

  datatype ShotError = NoError | DecodeFailed | SignatureMismatch

  datatype Shot =
    | Absent(endSeen: bool, guestSize: Option<nat>)
    | Shot(complete: bool, count: nat, received: nat, total: nat, firstGap: Option<nat>, endSeen: bool,
           png: Bytes, size: Option<(nat, nat)>, sigOk: bool, pct: Option<nat>, guestSize: Option<nat>,
           error: ShotError)

  function Clean(text: string): string {
    text[..|text| - |text| % 4]
  }

  /** The decoded picture, empty if the text does not decode. */
  function Picture(text: string): Bytes {
    match Decode(Clean(text), 0, 0, 0) case Some(bs) => bs case None => []
  }

  function HasSignature(bs: Bytes): bool {
    |bs| >= 8 && bs[..8] == PNG_SIGNATURE
  }

  const IHDR: Bytes := [0x49, 0x48, 0x44, 0x52]

  /** Width and height from the header chunk that follows the signature. */
  function Dimensions(bs: Bytes): Option<(nat, nat)> {
    if |bs| < 24 || !HasSignature(bs) || bs[12..16] != IHDR then None else Some((At32(bs, 16), At32(bs, 20)))
  }

  function GuestSize(s: Stream): Option<nat> {
    if s.header.Some? then Some(s.header.value.size) else None
  }

  /** `shot` is the report on the collected stream: on its leading run of chunks and the picture they decode to. */
  predicate Reports(shot: Shot, s: Stream) {
    if s.chunks == map[] || s.total.None? then shot == Absent(s.endSeen, GuestSize(s)) else
    var total := s.total.value;
    var g := RunFrom(s.chunks, total, 0);
    var png := Picture(Concat(s.chunks, g));
    && shot.Shot? && shot.png == png && shot.count == g && shot.total == total && shot.endSeen == s.endSeen
    && shot.received == |s.chunks| && shot.firstGap == (if g == total then None else Some(g))
    && shot.size == Dimensions(png) && shot.sigOk == HasSignature(png) && shot.guestSize == GuestSize(s)
    && shot.complete == (s.endSeen && g == total && HasSignature(png))
    && shot.pct == (if shot.complete then Some(100) else if total > 0 then Some(100 * g / total) else None)
    && (shot.error.DecodeFailed? <==> Decode(Clean(Concat(s.chunks, g)), 0, 0, 0).None?)
    && (shot.error.SignatureMismatch? <==> png != [] && !HasSignature(png))
  }

  method DecodeShot(log: seq<ShotLine>) returns (shot: Shot)
    ensures Reports(shot, Collect(log[..Min(|log|, MAX_LINES)]))
  {
    hide Collect, Decode, RunFrom, Concat, Dimensions, HasSignature;
    var chunks, total, endSeen, header := CollectChunks(log);
    var guestSize := if header.Some? then Some(header.value.size) else None;
    if chunks == map[] || total.None? {
      return Absent(endSeen, guestSize);
    }
    var text, count, gap := ContiguousB64(chunks, total.value);
    var decoded := Decode(Clean(text), 0, 0, 0);
    var png := if decoded.Some? then decoded.value else [];
    var sigOk := HasSignature(png);
    var error := if decoded.None? then DecodeFailed else if png != [] && !sigOk then SignatureMismatch else NoError;
    var complete := endSeen && count >= total.value && sigOk;
    var pct := if total.value > 0 && !complete then Some(100 * count / total.value)
               else if complete then Some(100) else None;
    shot := Shot(complete, count, |chunks|, total.value, gap, endSeen, png, Dimensions(png), sigOk, pct, guestSize,
                 error);
  }

  // ----- reassembly -----

  function Parts(e: string): nat {
    (|e| + CHUNK - 1) / CHUNK
  }

  function Part(e: string, i: nat): string {
    Slice(e, i * CHUNK, i * CHUNK + CHUNK)
  }

  /**
   * The log carries the stream of `e`, chunks in any order, repeated or missing, among other lines: every chunk line
   * either is one of its chunks or announces another total, and the first to announce a total is one of its own.
   */
  predicate Carries(log: seq<ShotLine>, e: string) {
    && (forall i :: 0 <= i < |log| && log[i].chunk.Some? && log[i].chunk.value.total == Parts(e) ==>
          log[i].chunk.value.idx < Parts(e) && log[i].chunk.value.text == Part(e, log[i].chunk.value.idx))
    && (forall i :: 0 <= i < |log| && log[i].chunk.Some? && (forall j :: 0 <= j < i ==> log[j].chunk.None?) ==>
          log[i].chunk.value.total == Parts(e))
  }

  predicate Shows(l: ShotLine, e: string, i: nat) {
    l.chunk.Some? && l.chunk.value.total == Parts(e) && l.chunk.value.idx == i
  }

  /** Did chunk `i` of the stream arrive? */
  predicate Arrived(log: seq<ShotLine>, e: string, i: nat) {
    exists k :: 0 <= k < |log| && Shows(log[k], e, i)
  }

  lemma CarriesOn(log: seq<ShotLine>, l: ShotLine, e: string)
    requires Carries(log + [l], e)
    ensures Carries(log, e)
    ensures l.chunk.Some? && (forall j :: 0 <= j < |log| ==> log[j].chunk.None?) ==> l.chunk.value.total == Parts(e)
    ensures l.chunk.Some? && l.chunk.value.total == Parts(e) ==>
              l.chunk.value.idx < Parts(e) && l.chunk.value.text == Part(e, l.chunk.value.idx)
  {
    var all := log + [l];
    assert forall i :: 0 <= i < |log| ==> all[i] == log[i];
    assert all[|log|] == l;
  }

  lemma ArrivedOn(log: seq<ShotLine>, l: ShotLine, e: string, i: nat)
    ensures Arrived(log + [l], e, i) <==> Arrived(log, e, i) || Shows(l, e, i)
  {
    var all := log + [l];
    assert forall k :: 0 <= k < |log| ==> all[k] == log[k];
    assert all[|log|] == l;
  }

  ghost predicate Holds(s: Stream, log: seq<ShotLine>, e: string) {
    && (s.total.None? ==> s.chunks == map[] && forall i :: 0 <= i < |log| ==> log[i].chunk.None?)
    && (s.total.Some? ==> s.total.value == Parts(e))
    && (forall i :: i in s.chunks <==> Arrived(log, e, i))
    && (forall i :: i in s.chunks ==> i < Parts(e) && s.chunks[i] == Part(e, i))
  }

  /** The collected table holds exactly the chunks that arrived, each with its own text. */
  lemma {:induction false} Collected(log: seq<ShotLine>, e: string)
    requires Carries(log, e)
    ensures Holds(Collect(log), log, e)
  {
    hide Carries, Arrived, Part, Parts;
    if log == [] {
      NothingArrived(e);
    } else {
      var q, l := log[..|log| - 1], log[|log| - 1];
      assert log == q + [l];
      CarriesOn(q, l, e);
      Collected(q, e);
      forall i {
        ArrivedOn(q, l, e, i);
      }
      assert forall i :: 0 <= i < |q| ==> q[i] == log[i];
    }
  }

  lemma NothingArrived(e: string)
    ensures forall i :: !Arrived([], e, i)
  {
  }

  lemma {:induction false} ConcatParts(chunks: map<nat, string>, e: string, n: nat)
    requires n <= Parts(e) && forall j :: 0 <= j < n ==> j in chunks && chunks[j] == Part(e, j)
    ensures Concat(chunks, n) == e[..Min(|e|, n * CHUNK)]
  {
    if n > 0 {
      ConcatParts(chunks, e, n - 1);
      assert (n - 1) * CHUNK <= |e|;
      assert e[..Min(|e|, (n - 1) * CHUNK)] + Part(e, n - 1) == e[..Min(|e|, n * CHUNK)];
    }
  }

  /** A run of leading chunks of an encoding decodes to the leading bytes. */
  lemma RunDecodes(bs: Bytes, g: nat)
    ensures Picture(Encode(bs)[..Min(|Encode(bs)|, g * CHUNK)]) == bs[..Min(|bs|, g * CHUNK_BYTES)]
  {
    hide Encode, Decode;
    var e := Encode(bs);
    var n := Min(|e|, g * CHUNK);
    var m := n / 4;
    assert n == 4 * m;
    var text := e[..n];
    assert Clean(text) == text;
    DecodePrefix(bs, m, 0);
  }

  lemma RunArrived(s: Stream, log: seq<ShotLine>, e: string)
    requires Holds(s, log, e) && s.total.Some?
    ensures var g := RunFrom(s.chunks, s.total.value, 0);
            && s.total.value == Parts(e)
            && (forall i :: 0 <= i < g ==> Arrived(log, e, i)) && (g < Parts(e) ==> !Arrived(log, e, g))
            && (forall j :: 0 <= j < g ==> j in s.chunks && s.chunks[j] == Part(e, j))
  {
    hide Arrived, Part, Parts, RunFrom;
  }

  lemma EnoughChunks(bs: Bytes)
    ensures |bs| <= Parts(Encode(bs)) * CHUNK_BYTES
  {
    hide Encode;
  }

  /** Did every chunk of the stream arrive? */
  predicate AllArrived(log: seq<ShotLine>, e: string) {
    forall i :: 0 <= i < Parts(e) ==> Arrived(log, e, i)
  }

  lemma RunPicture(bs: Bytes, chunks: map<nat, string>, g: nat)
    requires g <= Parts(Encode(bs)) && forall j :: 0 <= j < g ==> j in chunks && chunks[j] == Part(Encode(bs), j)
    ensures Picture(Concat(chunks, g)) == bs[..Min(|bs|, g * CHUNK_BYTES)]
  {
    hide Encode, Concat, Picture, Part, Parts;
    ConcatParts(chunks, Encode(bs), g);
    RunDecodes(bs, g);
  }

  lemma AllTaken(bs: Bytes)
    ensures bs[..Min(|bs|, Parts(Encode(bs)) * CHUNK_BYTES)] == bs
  {
    hide Encode, Parts;
    EnoughChunks(bs);
  }

  lemma LeadingRun(bs: Bytes, log: seq<ShotLine>)
    requires Carries(log, Encode(bs)) && Collect(log).total.Some?
    ensures var e, s := Encode(bs), Collect(log);
            var g := RunFrom(s.chunks, s.total.value, 0);
            var png := Picture(Concat(s.chunks, g));
            && s.total.value == Parts(e) && g <= Parts(e)
            && (forall i :: 0 <= i < g ==> Arrived(log, e, i)) && (g < Parts(e) ==> !Arrived(log, e, g))
            && png == bs[..Min(|bs|, g * CHUNK_BYTES)]
            && (g == Parts(e) ==> png == bs)
  {
    hide Encode, Collect, Carries, Arrived, Concat, Picture, Part, Parts, Holds, RunFrom;
    var e, s := Encode(bs), Collect(log);
    Collected(log, e);
    RunArrived(s, log, e);
    RunPicture(bs, s.chunks, RunFrom(s.chunks, s.total.value, 0));
    AllTaken(bs);
  }

  /** A table has an entry if and only if its stream has announced a total. */
  lemma PresentIff(log: seq<ShotLine>, e: string)
    requires Carries(log, e)
    ensures var s := Collect(log);
            (s.chunks == map[] || s.total.None?) <==> forall i :: 0 <= i < Parts(e) ==> !Arrived(log, e, i)
  {
    hide Collect, Carries, Arrived, Part, Parts;
    Collected(log, e);
    var s := Collect(log);
    if s.chunks != map[] {
      var i :| i in s.chunks;
      assert Arrived(log, e, i) && i < Parts(e);
    }
  }

  lemma Percent(g: nat, total: nat)
    requires g <= total && total > 0
    ensures 100 * g / total == 100 <==> g == total
  {
    if g == total {
      assert 100 * g == 100 * total;
    } else {
      assert 100 * g <= 100 * total - 100;
    }
  }

  /**
   * For any bytes sent in 76-character chunks, in any order, with any repetition, loss and noise, and any report on
   * the log: there is a picture if any chunk arrived, exactly the original up to the first chunk that did not arrive;
   * and it is reported as complete if and only if the end marker and every chunk came and the original is a PNG, and
   * then it is the original itself.
   */
  lemma Reassembled(bs: Bytes, log: seq<ShotLine>, shot: Shot)
    requires Carries(log, Encode(bs)) && Reports(shot, Collect(log))
    ensures var e := Encode(bs);
            && (shot.Absent? <==> forall i :: 0 <= i < Parts(e) ==> !Arrived(log, e, i))
            && (shot.Shot? ==>
                  && shot.total == Parts(e) && shot.count <= Parts(e)
                  && (forall i :: 0 <= i < shot.count ==> Arrived(log, e, i))
                  && (shot.firstGap.None? <==> AllArrived(log, e))
                  && (shot.firstGap.Some? ==> shot.firstGap.value == shot.count && !Arrived(log, e, shot.count))
                  && shot.png == bs[..Min(|bs|, shot.count * CHUNK_BYTES)]
                  && (shot.complete <==> shot.endSeen && AllArrived(log, e) && HasSignature(bs))
                  && (AllArrived(log, e) ==> shot.png == bs && shot.size == Dimensions(bs))
                  && (shot.pct == Some(100) <==> AllArrived(log, e)))
  {
    hide Encode, Collect, Decode, Carries, Arrived, Concat, Picture, Parts, RunFrom, Dimensions, HasSignature;
    PresentIff(log, Encode(bs));
    if shot.Shot? {
      LeadingRun(bs, log);
      if shot.total > 0 {
        Percent(shot.count, shot.total);
      }
    }
  }
}
