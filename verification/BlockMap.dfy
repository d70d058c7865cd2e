/**
 * The block-access histogram against a per-sector count. Bucket bounds are fractions of a sector when the grid does
 * not divide the device; they are kept exact here by scaling with the grid: `b * SECTORS` stands for
 * `b * SECTORS / grid`.
 */
module BlockMap {
  import opened Octets

  const SECTORS := 4194304

  datatype Req = Req(read: bool, lba: nat, len: nat)

  function ClampGrid(grid: int): (g: nat)
    ensures 16 <= g <= 2048
  {
    Max(16, Min(grid, 2048))
  }

  /** The bucket a sector falls in. */
  function BucketOf(s: nat, g: nat): nat {
    s * g / SECTORS
  }

  /** `int((lba + len - 1) / sectors_per_bucket)`, which truncates toward zero. */
  function LastBucket(r: Req, g: nat): nat {
    if r.lba + r.len == 0 then 0 else BucketOf(r.lba + r.len - 1, g)
  }

  /** The overlap of a request with a bucket, scaled by the grid. */
  function Overlap(r: Req, g: nat, b: nat): int {
    Min((b + 1) * SECTORS, (r.lba + r.len) * g) - Max(b * SECTORS, r.lba * g)
  }

  /** What one request adds to bucket `b`. */
  function Added(r: Req, g: nat, b: nat): nat
    requires g > 0
  {
    var b0, b1 := BucketOf(r.lba, g), LastBucket(r, g);
    if b0 == b1 then (if b == b0 then r.len else 0)
    else if b0 <= b <= b1 && Overlap(r, g, b) > 0 then Overlap(r, g, b) / g
    else 0
  }

  function Total(rs: seq<Req>, read: bool, g: nat, b: nat): nat
    requires g > 0
  {
    if rs == [] then 0 else
    var r := rs[|rs| - 1];
    Total(rs[..|rs| - 1], read, g, b) + if r.read == read then Added(r, g, b) else 0
  }

  /** One request, spread over the buckets it spans. */
  method Spread(arr: array<nat>, r: Req, g: nat)
    requires g > 0 && arr.Length == g
    modifies arr
    ensures forall b :: 0 <= b < g ==> arr[b] == old(arr[b]) + Added(r, g, b)
  {
    hide BucketOf, Overlap;
    var b0, b1 := BucketOf(r.lba, g), LastBucket(r, g);
    if b0 == b1 {
      if b0 < g {
        arr[b0] := arr[b0] + r.len;
      }
      return;
    }
    var b := b0;
    while b < Min(g, b1 + 1)
      invariant b0 <= b
      invariant forall i :: 0 <= i < g ==> arr[i] == old(arr[i]) + if i < b then Added(r, g, i) else 0
    {
      var ov := Overlap(r, g, b);
      if ov > 0 {
        arr[b] := arr[b] + ov / g;
      }
      b := b + 1;
    }
  }

  method ScanBlkmap(rs: seq<Req>, grid: int)
    returns (readSectors: array<nat>, writeSectors: array<nat>, nReq: nat, maxLba: nat)
    ensures readSectors.Length == writeSectors.Length == ClampGrid(grid) && nReq == |rs|
    ensures forall b :: 0 <= b < readSectors.Length ==> readSectors[b] == Total(rs, true, ClampGrid(grid), b)
    ensures forall b :: 0 <= b < readSectors.Length ==> writeSectors[b] == Total(rs, false, ClampGrid(grid), b)
    ensures forall i :: 0 <= i < |rs| ==> rs[i].lba + rs[i].len <= maxLba
    ensures maxLba == 0 || exists i :: 0 <= i < |rs| && rs[i].lba + rs[i].len == maxLba
  {
    hide Added;
    var g := ClampGrid(grid);
    readSectors := new nat[g](_ => 0);
    writeSectors := new nat[g](_ => 0);
    nReq, maxLba := 0, 0;
    while nReq < |rs|
      invariant nReq <= |rs| && fresh(readSectors) && fresh(writeSectors) && readSectors != writeSectors
      invariant forall b :: 0 <= b < g ==> readSectors[b] == Total(rs[..nReq], true, g, b)
      invariant forall b :: 0 <= b < g ==> writeSectors[b] == Total(rs[..nReq], false, g, b)
      invariant forall i :: 0 <= i < nReq ==> rs[i].lba + rs[i].len <= maxLba
      invariant maxLba == 0 || exists i :: 0 <= i < nReq && rs[i].lba + rs[i].len == maxLba
    {
      var r := rs[nReq];
      assert rs[..nReq + 1][..nReq] == rs[..nReq];
      if r.lba + r.len > maxLba {
        maxLba := r.lba + r.len;
      }
      if r.read {
        Spread(readSectors, r, g);
      } else {
        Spread(writeSectors, r, g);
      }
      nReq := nReq + 1;
    }
    assert rs[..nReq] == rs;
  }

  // ----- the per-sector count -----

  /** How many of the request's sectors fall in bucket `b`, one sector at a time. */
  function Counted(lba: nat, len: nat, g: nat, b: nat): nat {
    if len == 0 then 0 else Counted(lba, len - 1, g, b) + if BucketOf(lba + len - 1, g) == b then 1 else 0
  }

  function Ceil(x: nat, g: nat): nat
    requires g > 0
  {
    (x + g - 1) / g
  }

  lemma CeilBound(x: nat, g: nat)
    requires g > 0
    ensures x <= Ceil(x, g) * g < x + g
  {
    var n := x + g - 1;
    assert n == n / g * g + n % g;
  }

  lemma CeilLe(x: nat, g: nat, s: nat)
    requires g > 0
    ensures Ceil(x, g) <= s <==> x <= s * g
  {
    CeilBound(x, g);
    var c := Ceil(x, g);
    if c <= s {
      MulLe(c, s, g);
    } else {
      MulLe(s + 1, c, g);
      assert (s + 1) * g == s * g + g;
    }
  }

  lemma MulLe(x: nat, y: nat, g: nat)
    requires x <= y
    ensures x * g <= y * g
  {
  }

  lemma InBucket(s: nat, g: nat, b: nat)
    requires g > 0
    ensures BucketOf(s, g) == b <==> Ceil(b * SECTORS, g) <= s < Ceil((b + 1) * SECTORS, g)
  {
    hide Ceil;
    CeilLe(b * SECTORS, g, s);
    CeilLe((b + 1) * SECTORS, g, s);
  }

  /** The per-sector count in closed form. */
  lemma {:induction false} CountedIs(lba: nat, len: nat, g: nat, b: nat)
    requires g > 0
    ensures Counted(lba, len, g, b) ==
            Max(0, Min(lba + len, Ceil((b + 1) * SECTORS, g)) - Max(lba, Ceil(b * SECTORS, g)))
    decreases len
  {
    hide BucketOf, Ceil;
    if len > 0 {
      CountedIs(lba, len - 1, g, b);
      InBucket(lba + len - 1, g, b);
    }
    BoundsRise(g, b);
  }

  lemma BoundsRise(g: nat, b: nat)
    requires g > 0
    ensures Ceil(b * SECTORS, g) <= Ceil((b + 1) * SECTORS, g)
  {
    hide Ceil;
    var c := Ceil((b + 1) * SECTORS, g);
    CeilLe((b + 1) * SECTORS, g, c);
    CeilLe(b * SECTORS, g, c);
  }

  lemma CeilMul(n: nat, g: nat)
    requires g > 0
    ensures Ceil(n * g, g) == n
  {
    CeilLe(n * g, g, n);
    if n > 0 {
      CeilLe(n * g, g, n - 1);
      assert (n - 1) * g < n * g;
    }
  }

  lemma CeilMonotone(x: nat, y: nat, g: nat)
    requires g > 0 && x <= y
    ensures Ceil(x, g) <= Ceil(y, g)
  {
    hide Ceil;
    CeilLe(y, g, Ceil(y, g));
    CeilLe(x, g, Ceil(y, g));
  }

  lemma CeilMinMax(x: nat, n: nat, g: nat)
    requires g > 0
    ensures Ceil(Min(x, n * g), g) == Min(Ceil(x, g), n)
    ensures Ceil(Max(x, n * g), g) == Max(Ceil(x, g), n)
  {
    hide Ceil;
    CeilMul(n, g);
    if x <= n * g {
      CeilMonotone(x, n * g, g);
    } else {
      CeilMonotone(n * g, x, g);
    }
  }

  /** Rounding a difference down loses at most one against the difference of the rounded-up ends. */
  lemma FloorOfDifference(x: nat, y: nat, g: nat)
    requires g > 0 && y <= x
    ensures Ceil(x, g) - Ceil(y, g) - 1 <= (x - y) / g <= Ceil(x, g) - Ceil(y, g)
  {
    hide Ceil;
    CeilBound(x, g);
    CeilBound(y, g);
    var q, d := (x - y) / g, Ceil(x, g) - Ceil(y, g);
    assert x - y == q * g + (x - y) % g;
    assert Ceil(x, g) * g - Ceil(y, g) * g == d * g;
    Between(d, q, g);
  }

  lemma Between(d: int, q: int, g: nat)
    requires g > 0 && d * g - g < q * g + g && q * g < d * g + g
    ensures d - 1 <= q <= d
  {
    assert (q - d + 2) * g == q * g - d * g + 2 * g;
    assert (d - q + 1) * g == d * g - q * g + g;
    Sign(q - d + 2, g);
    Sign(d - q + 1, g);
  }

  lemma Sign(n: int, g: nat)
    requires g > 0
    ensures n * g > 0 <==> n > 0
  {
  }

  // ----- the histogram against the count -----

  lemma BucketsRise(s: nat, t: nat, g: nat)
    requires s <= t
    ensures BucketOf(s, g) <= BucketOf(t, g)
  {
    MulLe(s, t, g);
  }

  lemma {:induction false} CountedOutside(lba: nat, len: nat, g: nat, b: nat)
    requires len > 0 && (b < BucketOf(lba, g) || BucketOf(lba + len - 1, g) < b)
    ensures Counted(lba, len, g, b) == 0
    decreases len
  {
    hide BucketOf;
    BucketsRise(lba, lba + len - 1, g);
    if len > 1 {
      BucketsRise(lba + len - 2, lba + len - 1, g);
      CountedOutside(lba, len - 1, g, b);
    }
  }

  lemma {:induction false} CountedAll(lba: nat, len: nat, g: nat)
    requires len > 0 && BucketOf(lba, g) == BucketOf(lba + len - 1, g)
    ensures Counted(lba, len, g, BucketOf(lba, g)) == len
    decreases len
  {
    hide BucketOf;
    if len > 1 {
      BucketsRise(lba, lba + len - 2, g);
      BucketsRise(lba + len - 2, lba + len - 1, g);
      CountedAll(lba, len - 1, g);
    }
  }

  lemma NoSectors(r: Req, g: nat, b: nat)
    requires g > 0 && r.len == 0
    ensures Added(r, g, b) == 0
  {
    hide BucketOf, Overlap;
    if r.lba > 0 {
      BucketsRise(r.lba - 1, r.lba, g);
    } else {
      assert BucketOf(0, g) == 0 by { ZeroBucket(g); }
    }
  }

  lemma ZeroBucket(g: nat)
    ensures BucketOf(0, g) == 0
  {
  }

  /**
   * In a spanned bucket, the rounded overlap is the count or one less; it is the count if the grid divides the device.
   */
  lemma OverlapCounted(r: Req, g: nat, b: nat)
    requires g > 0
    ensures var ov, n := (if Overlap(r, g, b) > 0 then Overlap(r, g, b) / g else 0), Counted(r.lba, r.len, g, b);
            n - 1 <= ov <= n && (SECTORS % g == 0 ==> ov == n)
  {
    hide Ceil, BucketOf, Counted, IsMultiple;
    var x1, x2, y1, y2 := (b + 1) * SECTORS, (r.lba + r.len) * g, b * SECTORS, r.lba * g;
    CountedIs(r.lba, r.len, g, b);
    CeilMinMax(x1, r.lba + r.len, g);
    CeilMinMax(y1, r.lba, g);
    RoundedDifference(Min(x1, x2), Max(y1, y2), g);
    if SECTORS % g == 0 {
      Divides(b, g);
      Divides(b + 1, g);
      Multiple(r.lba + r.len, g);
      Multiple(r.lba, g);
    }
  }

  lemma RoundedDifference(x: nat, y: nat, g: nat)
    requires g > 0
    ensures var ov, n := (if x - y > 0 then (x - y) / g else 0), Max(0, Ceil(x, g) - Ceil(y, g));
            n - 1 <= ov <= n && (IsMultiple(x, g) && IsMultiple(y, g) ==> ov == n)
  {
    hide Ceil, IsMultiple;
    if y < x {
      FloorOfDifference(x, y, g);
      if IsMultiple(x, g) && IsMultiple(y, g) {
        ExactDifference(x, y, g);
      }
    } else {
      CeilMonotone(x, y, g);
    }
  }

  predicate IsMultiple(x: nat, g: nat)
    requires g > 0
  {
    x == x / g * g
  }

  lemma Multiple(n: nat, g: nat)
    requires g > 0
    ensures IsMultiple(n * g, g)
  {
    DivMul(n, g);
  }

  lemma Divides(b: nat, g: nat)
    requires g > 0 && SECTORS % g == 0
    ensures IsMultiple(b * SECTORS, g)
  {
    hide IsMultiple;
    var q := SECTORS / g;
    assert SECTORS == q * g;
    assert b * SECTORS == (b * q) * g;
    Multiple(b * q, g);
  }

  lemma ExactDifference(x: nat, y: nat, g: nat)
    requires g > 0 && y <= x && IsMultiple(x, g) && IsMultiple(y, g)
    ensures (x - y) / g == Ceil(x, g) - Ceil(y, g)
  {
    hide Ceil;
    var m, n := x / g, y / g;
    CeilMul(m, g);
    CeilMul(n, g);
    assert x - y == (m - n) * g;
    DivMul(m - n, g);
  }

  lemma DivMul(d: int, g: nat)
    requires g > 0
    ensures d * g / g == d
  {
    var x := d * g;
    var q, m := x / g, x % g;
    assert x == q * g + m;
    assert (d - q + 1) * g == x - q * g + g;
    assert (q - d + 1) * g == q * g - x + g;
    Sign(d - q + 1, g);
    Sign(q - d + 1, g);
  }

  /**
   * Every request, wherever it lies: a bucket gets the number of requested sectors in its range, or one less; never
   * more; and exactly that number when the grid divides the device.
   */
  lemma AddedCounted(r: Req, g: nat, b: nat)
    requires g > 0
    ensures var n := Counted(r.lba, r.len, g, b);
            n - 1 <= Added(r, g, b) <= n && (SECTORS % g == 0 ==> Added(r, g, b) == n)
  {
    hide BucketOf, Overlap, Counted;
    if r.len == 0 {
      NoSectors(r, g, b);
      assert Counted(r.lba, 0, g, b) == 0 by { CountedNone(r.lba, g, b); }
    } else {
      var b0, b1 := BucketOf(r.lba, g), LastBucket(r, g);
      BucketsRise(r.lba, r.lba + r.len - 1, g);
      if b < b0 || b1 < b {
        CountedOutside(r.lba, r.len, g, b);
      } else if b0 == b1 {
        CountedAll(r.lba, r.len, g);
      } else {
        OverlapCounted(r, g, b);
      }
    }
  }

  lemma CountedNone(lba: nat, g: nat, b: nat)
    ensures Counted(lba, 0, g, b) == 0
  {
  }

  function CountedTotal(rs: seq<Req>, read: bool, g: nat, b: nat): nat {
    if rs == [] then 0 else
    var r := rs[|rs| - 1];
    CountedTotal(rs[..|rs| - 1], read, g, b) + if r.read == read then Counted(r.lba, r.len, g, b) else 0
  }

  /** On a dividing grid the whole histogram is the per-sector count, for every list of requests. */
  lemma {:induction false} HistogramExact(rs: seq<Req>, read: bool, g: nat, b: nat)
    requires g > 0 && SECTORS % g == 0
    ensures Total(rs, read, g, b) == CountedTotal(rs, read, g, b)
  {
    hide Added, Counted;
    if rs != [] {
      HistogramExact(rs[..|rs| - 1], read, g, b);
      AddedCounted(rs[|rs| - 1], g, b);
    }
  }

  // ----- conservation -----

  function SumAdded(r: Req, g: nat, n: nat): nat
    requires g > 0
  {
    if n == 0 then 0 else SumAdded(r, g, n - 1) + Added(r, g, n - 1)
  }

  function SumCounted(lba: nat, len: nat, g: nat, n: nat): nat {
    if n == 0 then 0 else SumCounted(lba, len, g, n - 1) + Counted(lba, len, g, n - 1)
  }

  lemma {:induction false} OneMoreSector(lba: nat, len: nat, g: nat, n: nat)
    requires len > 0
    ensures SumCounted(lba, len, g, n) ==
            SumCounted(lba, len - 1, g, n) + if BucketOf(lba + len - 1, g) < n then 1 else 0
  {
    hide BucketOf;
    if n > 0 {
      OneMoreSector(lba, len, g, n - 1);
    }
  }

  lemma {:induction false} AllCounted(lba: nat, len: nat, g: nat)
    requires lba + len <= SECTORS && g > 0
    ensures SumCounted(lba, len, g, g) == len
    decreases len
  {
    if len > 0 {
      AllCounted(lba, len - 1, g);
      OneMoreSector(lba, len, g, g);
      InsideDevice(lba + len - 1, g);
    } else {
      NoneCounted(lba, g, g);
    }
  }

  lemma InsideDevice(s: nat, g: nat)
    requires s < SECTORS && g > 0
    ensures BucketOf(s, g) < g
  {
    assert (SECTORS - s) * g == SECTORS * g - s * g;
    Sign(SECTORS - s, g);
    Below(s * g, g);
  }

  lemma Below(x: nat, n: nat)
    requires x < SECTORS * n
    ensures x / SECTORS < n
  {
  }

  lemma {:induction false} NoneCounted(lba: nat, g: nat, n: nat)
    ensures SumCounted(lba, 0, g, n) == 0
  {
    if n > 0 {
      NoneCounted(lba, g, n - 1);
    }
  }

  /** How many of the first `n` buckets the request spans. */
  function Spanned(r: Req, g: nat, n: nat): nat {
    if n == 0 then 0 else Spanned(r, g, n - 1) + if BucketOf(r.lba, g) <= n - 1 <= LastBucket(r, g) then 1 else 0
  }

  lemma {:induction false} SumsCompare(r: Req, g: nat, n: nat)
    requires g > 0
    ensures SumCounted(r.lba, r.len, g, n) - Spanned(r, g, n) <= SumAdded(r, g, n) <= SumCounted(r.lba, r.len, g, n)
    ensures SECTORS % g == 0 ==> SumAdded(r, g, n) == SumCounted(r.lba, r.len, g, n)
  {
    hide Added, Counted, BucketOf, LastBucket;
    if n > 0 {
      SumsCompare(r, g, n - 1);
      AddedCounted(r, g, n - 1);
      if !(BucketOf(r.lba, g) <= n - 1 <= LastBucket(r, g)) {
        NotSpanned(r, g, n - 1);
      }
    }
  }

  lemma NotSpanned(r: Req, g: nat, b: nat)
    requires g > 0 && !(BucketOf(r.lba, g) <= b <= LastBucket(r, g))
    ensures Counted(r.lba, r.len, g, b) == 0
  {
    hide BucketOf;
    if r.len > 0 {
      CountedOutside(r.lba, r.len, g, b);
    }
  }

  /**
   * A request inside the device, on any grid: its sectors are never over-counted, at most one is lost for each bucket
   * it spans, and none if the grid divides the device.
   */
  lemma Conserved(r: Req, g: nat)
    requires g > 0 && r.lba + r.len <= SECTORS
    ensures r.len - Spanned(r, g, g) <= SumAdded(r, g, g) <= r.len
    ensures SECTORS % g == 0 ==> SumAdded(r, g, g) == r.len
  {
    hide Added, Counted, BucketOf, LastBucket, Spanned, SumAdded, SumCounted;
    SumsCompare(r, g, g);
    AllCounted(r.lba, r.len, g);
  }

  /** The sum of a whole histogram. */
  function SumTotal(rs: seq<Req>, read: bool, g: nat, n: nat): nat
    requires g > 0
  {
    if n == 0 then 0 else SumTotal(rs, read, g, n - 1) + Total(rs, read, g, n - 1)
  }

  /** The sectors requested one way. */
  function Requested(rs: seq<Req>, read: bool): nat {
    if rs == [] then 0 else
    var r := rs[|rs| - 1];
    Requested(rs[..|rs| - 1], read) + if r.read == read then r.len else 0
  }

  /** The cells spanned, request by request. */
  function AllSpanned(rs: seq<Req>, read: bool, g: nat): nat {
    if rs == [] then 0 else
    var r := rs[|rs| - 1];
    AllSpanned(rs[..|rs| - 1], read, g) + if r.read == read then Spanned(r, g, g) else 0
  }

  lemma {:induction false} SumOn(rs: seq<Req>, read: bool, g: nat, n: nat)
    requires g > 0 && rs != []
    ensures var r := rs[|rs| - 1];
            SumTotal(rs, read, g, n) ==
            SumTotal(rs[..|rs| - 1], read, g, n) + if r.read == read then SumAdded(r, g, n) else 0
  {
    hide Added;
    if n > 0 {
      SumOn(rs, read, g, n - 1);
    }
  }

  lemma {:induction false} NothingRequested(read: bool, g: nat, n: nat)
    requires g > 0
    ensures SumTotal([], read, g, n) == 0
  {
    if n > 0 {
      NothingRequested(read, g, n - 1);
    }
  }

  /**
   * Any list of requests inside the device: the histogram of reads, or of writes, adds up to the sectors requested that
   * way, less at most one for each cell a request spans, and to exactly them if the grid divides the device.
   */
  lemma {:induction false} HistogramConserved(rs: seq<Req>, read: bool, g: nat)
    requires g > 0 && forall i :: 0 <= i < |rs| ==> rs[i].lba + rs[i].len <= SECTORS
    ensures Requested(rs, read) - AllSpanned(rs, read, g) <= SumTotal(rs, read, g, g) <= Requested(rs, read)
    ensures SECTORS % g == 0 ==> SumTotal(rs, read, g, g) == Requested(rs, read)
  {
    hide SumTotal, SumAdded, Spanned;
    if rs == [] {
      NothingRequested(read, g, g);
    } else {
      HistogramConserved(rs[..|rs| - 1], read, g);
      SumOn(rs, read, g, g);
      Conserved(rs[|rs| - 1], g);
    }
  }

  /** On every grid the clamp allows, exactness for all requests is the same as dividing the device. */
  lemma ExactIffDivides(g: nat)
    requires 16 <= g <= 2048
    ensures SECTORS % g == 0 <==> forall r: Req, b: nat :: Added(r, g, b) == Counted(r.lba, r.len, g, b)
  {
    hide Added, Counted;
    if SECTORS % g == 0 {
      forall r: Req, b: nat
        ensures Added(r, g, b) == Counted(r.lba, r.len, g, b)
      {
        AddedCounted(r, g, b);
      }
    } else {
      var r := Loses(g);
    }
  }

  /** A request from the start of the device into the second bucket loses the sector on the bound between them. */
  lemma Loses(g: nat) returns (r: Req)
    requires 16 <= g <= 2048 && SECTORS % g != 0
    ensures Added(r, g, 0) < Counted(r.lba, r.len, g, 0)
  {
    hide BucketOf, Ceil, Counted;
    var c := Ceil(SECTORS, g);
    r := Req(true, 0, c + 1);
    CeilBound(SECTORS, g);
    RoundedUp(g);
    ZeroBucket(g);
    assert BucketOf(c, g) == 1 by { InSecond(c, g); }
    CountedIs(0, c + 1, g, 0);
    assert Ceil(0, g) == 0 by { CeilMul(0, g); }
    assert (c + 1) * g == c * g + g;
    assert Overlap(r, g, 0) == SECTORS;
  }

  lemma RoundedUp(g: nat)
    requires g > 0 && SECTORS % g != 0
    ensures Ceil(SECTORS, g) == SECTORS / g + 1
  {
    hide Ceil;
    var q := SECTORS / g;
    assert SECTORS == q * g + SECTORS % g;
    assert (q + 1) * g == q * g + g;
    CeilLe(SECTORS, g, q);
    CeilLe(SECTORS, g, q + 1);
  }

  lemma InSecond(c: nat, g: nat)
    requires SECTORS <= c * g < SECTORS + g && g <= SECTORS
    ensures BucketOf(c, g) == 1
  {
  }
}
