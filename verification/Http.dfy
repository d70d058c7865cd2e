/** The first line of a cleartext HTTP message, and the host a request is for. */
module Http {
  import opened Octets

  datatype Message = Request(verb: Bytes, path: Bytes, host: Bytes) | Response(status: nat, reason: Bytes)

  /** The bytes of an ASCII text. */
  function Ascii(s: string): (r: Bytes)
    ensures |r| == |s| && forall i :: 0 <= i < |s| ==> r[i] == (s[i] as int) % 256
  {
    seq(|s|, i requires 0 <= i < |s| => (s[i] as int) % 256)
  }

  const CR := 13
  const LF := 10
  const CRLF: Bytes := [13, 10]
  const SPACE := 32

  const VERBS: seq<Bytes> := [
    Ascii("GET"), Ascii("POST"), Ascii("HEAD"), Ascii("PUT"), Ascii("DELETE"), Ascii("OPTIONS"), Ascii("PATCH"),
    Ascii("CONNECT"), Ascii("TRACE")
  ]

  const HTTP: Bytes := [0x48, 0x54, 0x54, 0x50, 0x2F]
  const HOST: Bytes := [0x68, 0x6F, 0x73, 0x74, 0x3A]

  // ----- lines and words -----

  predicate CrlfAt(b: Bytes, i: nat) {
    i + 1 < |b| && b[i] == CR && b[i + 1] == LF
  }

  /** Where the line that starts at `i` ends: at the first line break from there on, or with the bytes. */
  function LineEnd(b: Bytes, i: nat): (n: nat)
    requires i <= |b|
    ensures i <= n <= |b| && (forall j :: i <= j < n ==> !CrlfAt(b, j)) && (n < |b| ==> CrlfAt(b, n))
    decreases |b| - i
  {
    if i == |b| || CrlfAt(b, i) then i else LineEnd(b, i + 1)
  }

  function FirstLine(b: Bytes): Bytes {
    b[..LineEnd(b, 0)]
  }

  function AfterLine(b: Bytes): Bytes {
    Slice(b, LineEnd(b, 0) + 2, |b|)
  }

  /** The pieces between line breaks. */
  function Lines(b: Bytes): seq<Bytes>
    decreases |b|
  {
    if LineEnd(b, 0) == |b| then [b] else [FirstLine(b)] + Lines(AfterLine(b))
  }

  function WordEnd(b: Bytes, i: nat): (n: nat)
    requires i <= |b|
    ensures i <= n <= |b| && (forall j :: i <= j < n ==> b[j] != SPACE) && (n < |b| ==> b[n] == SPACE)
    decreases |b| - i
  {
    if i == |b| || b[i] == SPACE then i else WordEnd(b, i + 1)
  }

  /** The second word of a line, if there is a space in it. */
  function Second(b: Bytes): Option<Bytes> {
    var s := WordEnd(b, 0);
    if s == |b| then None else Some(b[s + 1..WordEnd(b, s + 1)])
  }

  /** Everything behind the second space of a line; nothing if there is none. */
  function Remainder(b: Bytes): Bytes {
    var s := WordEnd(b, 0);
    if s == |b| then [] else Slice(b, WordEnd(b, s + 1) + 1, |b|)
  }

  predicate IsDigit(x: Byte) {
    48 <= x <= 57
  }

  predicate IsNumber(b: Bytes) {
    b != [] && forall i :: 0 <= i < |b| ==> IsDigit(b[i])
  }

  function Number(b: Bytes): nat
    requires forall i :: 0 <= i < |b| ==> IsDigit(b[i])
  {
    if b == [] then 0 else
    assert IsDigit(b[|b| - 1]);
    Number(b[..|b| - 1]) * 10 + ((b[|b| - 1] as int) - 48)
  }

  predicate IsBlank(x: Byte) {
    9 <= x <= 13 || x == SPACE
  }

  function StripLeft(b: Bytes): Bytes {
    if b != [] && IsBlank(b[0]) then StripLeft(b[1..]) else b
  }

  function StripRight(b: Bytes): Bytes {
    if b != [] && IsBlank(b[|b| - 1]) then StripRight(b[..|b| - 1]) else b
  }

  function Lower(x: Byte): Byte {
    if 65 <= x <= 90 then x + 32 else x
  }

  // ----- parsing -----

  /** A line that begins with "host:", in any case. */
  predicate IsHost(l: Bytes) {
    |l| >= 5 && forall i :: 0 <= i < 5 ==> Lower(l[i]) == HOST[i]
  }

  function HostIn(ls: seq<Bytes>): Bytes {
    if ls == [] then []
    else if IsHost(ls[0]) then StripRight(StripLeft(ls[0][5..]))
    else HostIn(ls[1..])
  }

  predicate Asks(b: Bytes, verb: Bytes) {
    verb + [SPACE] <= b
  }

  /** The request that the first fitting verb from the `i`-th on makes of the message. */
  function RequestFrom(b: Bytes, i: nat): Option<Message>
    requires i <= |VERBS|
    decreases |VERBS| - i
  {
    if i == |VERBS| then None
    else if Asks(b, VERBS[i]) && Second(FirstLine(b)).Some? then
      Some(Request(VERBS[i], Second(FirstLine(b)).value, HostIn(Lines(AfterLine(b)))))
    else RequestFrom(b, i + 1)
  }

  function Parsed(b: Bytes): Option<Message> {
    if HTTP <= b then
      var code := Second(FirstLine(b));
      if code.Some? && IsNumber(code.value) then Some(Response(Number(code.value), Remainder(FirstLine(b)))) else None
    else RequestFrom(b, 0)
  }

  lemma NothingParsed()
    ensures Parsed([]) == None
  {
    NoRequest(0);
  }

  lemma {:induction false} NoRequest(i: nat)
    requires i <= |VERBS|
    ensures RequestFrom([], i) == None
    decreases |VERBS| - i
  {
    if i < |VERBS| {
      NoRequest(i + 1);
    }
  }

  method FindHost(b: Bytes) returns (host: Bytes)
    ensures host == HostIn(Lines(b))
  {
    var rest := b;
    while true
      invariant HostIn(Lines(rest)) == HostIn(Lines(b))
      decreases |rest|
    {
      var line, e := FirstLine(rest), LineEnd(rest, 0);
      assert e == |rest| ==> line == rest && Lines(rest)[1..] == [];
      assert e < |rest| ==> Lines(rest)[1..] == Lines(AfterLine(rest));
      if IsHost(line) {
        return StripRight(StripLeft(line[5..]));
      }
      if e == |rest| {
        return [];
      }
      rest := AfterLine(rest);
    }
  }

  method Parse(b: Bytes) returns (msg: Option<Message>)
    ensures msg == Parsed(b)
  {
    hide Second, FirstLine, AfterLine, Lines, HostIn, Asks;
    if HTTP <= b {
      var code := Second(FirstLine(b));
      if code.Some? && IsNumber(code.value) {
        return Some(Response(Number(code.value), Remainder(FirstLine(b))));
      }
      return None;
    }
    for i := 0 to |VERBS|
      invariant RequestFrom(b, i) == RequestFrom(b, 0)
    {
      if Asks(b, VERBS[i]) {
        var path := Second(FirstLine(b));
        if path.Some? {
          var host := FindHost(AfterLine(b));
          return Some(Request(VERBS[i], path.value, host));
        }
      }
    }
    msg := None;
  }

  // ----- what is written is read -----

  predicate OneLine(b: Bytes) {
    forall i :: 0 <= i < |b| ==> !CrlfAt(b, i)
  }

  predicate OneWord(b: Bytes) {
    forall i :: 0 <= i < |b| ==> b[i] != SPACE
  }

  lemma LineRead(l: Bytes, tail: Bytes)
    requires OneLine(l)
    ensures var b := l + CRLF + tail; LineEnd(b, 0) == |l| && FirstLine(b) == l && AfterLine(b) == tail
  {
    var b := l + CRLF + tail;
    assert CrlfAt(b, |l|);
    forall i | 0 <= i < |l|
      ensures !CrlfAt(b, i)
    {
      assert !CrlfAt(l, i);
      assert i + 1 == |l| ==> b[i + 1] == CR;
    }
    assert LineEnd(b, 0) <= |l|;
  }

  function Join(ls: seq<Bytes>): Bytes {
    if ls == [] then [] else ls[0] + CRLF + Join(ls[1..])
  }

  lemma {:induction false} LinesRead(ls: seq<Bytes>, tail: Bytes)
    requires forall i :: 0 <= i < |ls| ==> OneLine(ls[i])
    ensures Lines(Join(ls) + tail) == ls + Lines(tail)
    decreases |ls|
  {
    hide OneLine, LineEnd, FirstLine, AfterLine;
    if ls == [] {
      NoHead(tail);
      NoHead(Lines(tail));
    } else {
      var rest := Join(ls[1..]) + tail;
      assert Join(ls) + tail == ls[0] + CRLF + rest;
      LineRead(ls[0], rest);
      LinesRead(ls[1..], tail);
      assert ls + Lines(tail) == [ls[0]] + (ls[1..] + Lines(tail));
    }
  }

  lemma {:induction false} WordEndIs(l: Bytes, i: nat, e: nat)
    requires i <= e < |l| && l[e] == SPACE && forall j :: i <= j < e ==> l[j] != SPACE
    ensures WordEnd(l, i) == e
    decreases e - i
  {
    if i < e {
      WordEndIs(l, i + 1, e);
    }
  }

  lemma WordsRead(first: Bytes, second: Bytes, rest: Bytes)
    requires OneWord(first) && OneWord(second)
    ensures var l := first + [SPACE] + second + [SPACE] + rest; Second(l) == Some(second) && Remainder(l) == rest
  {
    var l := first + [SPACE] + second + [SPACE] + rest;
    var s, e := |first|, |first| + 1 + |second|;
    assert l[s] == SPACE && l[e] == SPACE && forall i :: 0 <= i < s ==> l[i] == first[i];
    assert forall i :: s < i < e ==> l[i] == second[i - s - 1];
    WordEndIs(l, 0, s);
    WordEndIs(l, s + 1, e);
    assert l[s + 1..e] == second && l[e + 1..] == rest;
  }

  /** The host of a request is named by the first such line; what comes behind it does not matter. */
  lemma {:induction false} HostOf(ls: seq<Bytes>, more: seq<Bytes>)
    ensures HostIn(ls + more) ==
            if exists i :: 0 <= i < |ls| && IsHost(ls[i]) then HostIn(ls) else HostIn(more)
  {
    hide IsHost;
    if ls == [] {
      NoHead(more);
    } else {
      HostOf(ls[1..], more);
      assert (ls + more)[1..] == ls[1..] + more;
      assert (exists i :: 0 <= i < |ls| && IsHost(ls[i])) <==>
             IsHost(ls[0]) || exists i :: 0 <= i < |ls[1..]| && IsHost(ls[1..][i]) by {
        assert forall i :: 0 <= i < |ls| - 1 ==> ls[1..][i] == ls[i + 1];
        if exists i :: 1 <= i < |ls| && IsHost(ls[i]) {
          var i :| 1 <= i < |ls| && IsHost(ls[i]);
          assert ls[1..][i - 1] == ls[i];
        }
      }
    }
  }

  function RequestLine(verb: Bytes, path: Bytes, version: Bytes): Bytes {
    verb + [SPACE] + path + [SPACE] + version
  }

  lemma NotAsked(b: Bytes, verb: Bytes, j: nat)
    requires j < |b| && j < |verb| && b[j] != verb[j]
    ensures !Asks(b, verb)
  {
    assert (verb + [SPACE])[j] == verb[j];
  }

  /** No verb is asked for by the line of another, and none by a response: they differ in their first two letters. */
  lemma VerbsDiffer(k: nat, i: nat, tail: Bytes)
    requires k < |VERBS| && i < |VERBS|
    ensures Asks(VERBS[k] + [SPACE] + tail, VERBS[i]) <==> i == k
    ensures !(HTTP <= VERBS[k] + [SPACE] + tail)
  {
    hide Asks;
    var b := VERBS[k] + [SPACE] + tail;
    assert b[0] == VERBS[k][0] && b[1] == VERBS[k][1];
    if i == k {
      AsksItself(VERBS[k], tail);
    } else if VERBS[i][0] != VERBS[k][0] {
      NotAsked(b, VERBS[i], 0);
    } else {
      NotAsked(b, VERBS[i], 1);
    }
  }

  lemma AsksItself(verb: Bytes, tail: Bytes)
    ensures Asks(verb + [SPACE] + tail, verb)
  {
    var b := verb + [SPACE] + tail;
    assert b[..|verb| + 1] == verb + [SPACE];
  }

  lemma {:induction false} FromVerb(b: Bytes, k: nat, i: nat)
    requires i <= k < |VERBS| && Second(FirstLine(b)).Some?
    requires forall j :: 0 <= j < |VERBS| ==> (Asks(b, VERBS[j]) <==> j == k)
    ensures RequestFrom(b, i) ==
            Some(Request(VERBS[k], Second(FirstLine(b)).value, HostIn(Lines(AfterLine(b)))))
    decreases k - i
  {
    hide Asks, Second, FirstLine, AfterLine, Lines, HostIn;
    if i < k {
      FromVerb(b, k, i + 1);
    }
  }

  /** The pieces a request is read from. */
  lemma RequestParts(verb: Bytes, path: Bytes, version: Bytes, headers: seq<Bytes>, body: Bytes)
    requires OneWord(verb) && OneWord(path) && OneLine(RequestLine(verb, path, version))
    requires forall i :: 0 <= i < |headers| ==> OneLine(headers[i])
    ensures var b := RequestLine(verb, path, version) + CRLF + (Join(headers) + (CRLF + body));
            && Second(FirstLine(b)) == Some(path) && Lines(AfterLine(b)) == headers + ([[]] + Lines(body))
            && b == verb + [SPACE] + (path + [SPACE] + version + CRLF + (Join(headers) + (CRLF + body)))
  {
    hide OneLine, OneWord, LineEnd, FirstLine, AfterLine, Lines, Second, Remainder, Join;
    var rest := Join(headers) + (CRLF + body);
    LineRead(RequestLine(verb, path, version), rest);
    WordsRead(verb, path, version);
    LinesRead(headers, CRLF + body);
    EmptyLine(body);
    Regroup(verb, path, version, rest);
  }

  lemma Regroup(verb: Bytes, path: Bytes, version: Bytes, rest: Bytes)
    ensures RequestLine(verb, path, version) + CRLF + rest ==
            verb + [SPACE] + (path + [SPACE] + version + CRLF + rest)
  {
  }

  /**
   * A request with any verb, path, version, header lines and body is read as that verb and path, and the host its first
   * host line names. The lines searched are the headers and then the body.
   */
  lemma RequestRoundTrip(k: nat, path: Bytes, version: Bytes, headers: seq<Bytes>, body: Bytes)
    requires k < |VERBS| && OneWord(path) && OneLine(RequestLine(VERBS[k], path, version))
    requires forall i :: 0 <= i < |headers| ==> OneLine(headers[i])
    ensures var b := RequestLine(VERBS[k], path, version) + CRLF + (Join(headers) + (CRLF + body));
            Parsed(b) == Some(Request(VERBS[k], path, HostIn(headers + ([[]] + Lines(body)))))
  {
    hide OneLine, OneWord, FirstLine, AfterLine, Lines, HostIn, Asks, Second, Remainder, RequestLine, Join, RequestFrom;
    var b := RequestLine(VERBS[k], path, version) + CRLF + (Join(headers) + (CRLF + body));
    VerbIsWord(k);
    RequestParts(VERBS[k], path, version, headers, body);
    var tail := path + [SPACE] + version + CRLF + (Join(headers) + (CRLF + body));
    forall j | 0 <= j < |VERBS|
      ensures Asks(b, VERBS[j]) <==> j == k
    {
      VerbsDiffer(k, j, tail);
    }
    VerbsDiffer(k, k, tail);
    FromVerb(b, k, 0);
  }

  lemma VerbIsWord(k: nat)
    requires k < |VERBS|
    ensures OneWord(VERBS[k])
  {
  }

  lemma EmptyLine(body: Bytes)
    ensures Lines(CRLF + body) == [[]] + Lines(body)
  {
    LineRead([], body);
    assert [] + CRLF + body == CRLF + body;
  }

  /** The decimal digits of a number. */
  function Decimal(n: nat): (r: Bytes)
    ensures IsNumber(r)
  {
    if n < 10 then [48 + n] else Decimal(n / 10) + [48 + n % 10]
  }

  lemma {:induction false} DecimalRead(n: nat)
    ensures Number(Decimal(n)) == n
  {
    if n < 10 {
      assert [48 + n][..0] == [];
    } else {
      DecimalRead(n / 10);
      assert (Decimal(n / 10) + [48 + n % 10])[..|Decimal(n / 10)|] == Decimal(n / 10);
    }
  }

  /** A response with any version, status, reason and rest is read as that status and reason. */
  lemma ResponseRoundTrip(version: Bytes, status: nat, reason: Bytes, rest: Bytes)
    requires OneWord(version) && OneLine(HTTP + version + [SPACE] + Decimal(status) + [SPACE] + reason)
    ensures var line := HTTP + version + [SPACE] + Decimal(status) + [SPACE] + reason;
            Parsed(line + CRLF + rest) == Some(Response(status, reason))
  {
    hide OneLine, LineEnd, FirstLine, AfterLine, Second, Remainder, Number, Decimal, IsNumber;
    var line := HTTP + version + [SPACE] + Decimal(status) + [SPACE] + reason;
    LineRead(line, rest);
    DigitsAreWord(Decimal(status));
    assert OneWord(HTTP + version);
    WordsRead(HTTP + version, Decimal(status), reason);
    DecimalRead(status);
    assert (line + CRLF + rest)[..5] == HTTP;
  }

  lemma DigitsAreWord(b: Bytes)
    requires IsNumber(b)
    ensures OneWord(b)
  {
  }
}
