/** Bytes, Python slicing and the fixed-width integer codecs that `struct` provides. */
module Octets {

  type Byte = x: int | 0 <= x < 256

  type Bytes = seq<Byte>

  type Address4 = a: Bytes | |a| == 4 witness [0, 0, 0, 0]

  datatype Option<+T> = None | Some(value: T)

  datatype Result<+T, +E> = Ok(value: T) | Err(error: E)

  function Min(x: int, y: int): int {
    if x <= y then x else y
  }

  function Max(x: int, y: int): int {
    if x <= y then y else x
  }

  /** Python's `b[lo:hi]` for non-negative bounds: both ends are clamped, never an error. */
  function Slice<T>(b: seq<T>, lo: nat, hi: nat): (r: seq<T>)
    ensures lo <= hi <= |b| ==> r == b[lo..hi]
    ensures |b| <= hi && lo <= |b| ==> r == b[lo..]
    ensures |r| <= Max(hi - lo, 0)
  {
    var h := Min(hi, |b|);
    if lo <= h then b[lo..h] else []
  }

  lemma Snoc<T>(s: seq<T>, x: T, t: seq<T>)
    ensures s + ([x] + t) == s + [x] + t
  {
  }

  lemma NoTail<T>(s: seq<T>)
    ensures s + [] == s
  {
  }

  lemma NoHead<T>(s: seq<T>)
    ensures [] + s == s
  {
  }

  /** Cutting a non-empty sequence at `n` and cutting its tail at `n - 1`. */
  lemma CutTail<T>(s: seq<T>, n: nat)
    requires 0 < n <= |s|
    ensures s == [s[0]] + s[1..]
    ensures s[..n] == [s[0]] + s[1..][..n - 1] && s[n..] == s[1..][n - 1..]
  {
  }

  // ----- big-endian (network order) -----

  function U16(v: nat): (r: Bytes)
    requires v < 0x1_0000
    ensures |r| == 2 && At16(r, 0) == v
  {
    [v / 256, v % 256]
  }

  function At16(b: Bytes, i: nat): (v: nat)
    requires i + 2 <= |b|
    ensures v < 0x1_0000
  {
    (b[i] as int) * 256 + b[i + 1]
  }

  function U32(v: nat): (r: Bytes)
    requires v < 0x1_0000_0000
    ensures |r| == 4 && At32(r, 0) == v
  {
    var h, l := v / 0x1_0000, v % 0x1_0000;
    [h / 256, h % 256, l / 256, l % 256]
  }

  function At32(b: Bytes, i: nat): (v: nat)
    requires i + 4 <= |b|
    ensures v < 0x1_0000_0000
  {
    At16(b, i) * 0x1_0000 + At16(b, i + 2)
  }

  // ----- little-endian -----

  function U16Le(v: nat): (r: Bytes)
    requires v < 0x1_0000
    ensures |r| == 2 && At16Le(r, 0) == v
  {
    [v % 256, v / 256]
  }

  function At16Le(b: Bytes, i: nat): (v: nat)
    requires i + 2 <= |b|
    ensures v < 0x1_0000
  {
    (b[i + 1] as int) * 256 + b[i]
  }

  function U32Le(v: nat): (r: Bytes)
    requires v < 0x1_0000_0000
    ensures |r| == 4 && At32Le(r, 0) == v
  {
    var h, l := v / 0x1_0000, v % 0x1_0000;
    [l % 256, l / 256, h % 256, h / 256]
  }

  function At32Le(b: Bytes, i: nat): (v: nat)
    requires i + 4 <= |b|
    ensures v < 0x1_0000_0000
  {
    At16Le(b, i + 2) * 0x1_0000 + At16Le(b, i)
  }
}
