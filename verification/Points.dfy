/** The points of a time series and the time stamps they carry. */
module Points {
  import opened Bits
  import opened Float64

  const M32: int := 0x1_0000_0000
  const M64: int := 0x1_0000_0000_0000_0000
  const BILLION: int := 1_000_000_000

  predicate IsInt64(v: int)
  {
    -0x8000_0000_0000_0000 <= v <= 0x7fff_ffff_ffff_ffff
  }

  predicate IsInt32(v: int)
  {
    -0x8000_0000 <= v <= 0x7fff_ffff
  }

  /** The conversion int32(u). */
  function ToInt32(u: int): (v: int)
    ensures IsInt32(v) && v % M32 == u % M32
  {
    var m := u % M32;
    if m < 0x8000_0000 then m else m - M32
  }

  /** The conversion int64(u). */
  function ToInt64(u: int): (v: int)
    ensures IsInt64(v) && v % M64 == u % M64
  {
    var m := u % M64;
    if m < 0x8000_0000_0000_0000 then m else m - M64
  }

  /** The five values of a point: floats are bit patterns, time and count are 64-bit integers. */
  datatype Point = Point(t: int, min: Word, max: Word, last: Word, sum: Word, count: int)

  ghost predicate IsPoint(p: Point)
  {
    IsInt64(p.t) && IsInt64(p.count)
  }

  /** Seconds (32 bits) and nanoseconds of a stamp. A stamp that fits 31 bits is already in seconds. */
  function SplitNano(t: int): (r: (nat, nat))
    ensures r.0 < M32 && r.1 < BILLION
  {
    if t <= 2147483647 then (t % M32, 0) else ((t / BILLION) % M32, t % BILLION)
  }

  function CombineSecNano(sec: nat, nano: nat): (t: int)
  {
    sec * BILLION + nano
  }

  /** Points for which only the sum is stored. */
  predicate IsSmall(p: Point)
  {
    p.count == 1 || SameFloatVals(p.min, p.max, p.last, p.sum)
  }

  /** What a small point becomes in every compressed format. */
  function Shrunk(p: Point): (q: Point)
  {
    if IsSmall(p) then Point(p.t, p.sum, p.sum, p.sum, p.sum, 1) else p
  }

  /** A point as it should come back from a format that keeps nanoseconds or only seconds. */
  function AsStored(full: bool, p: Point): (q: Point)
  {
    Shrunk(p).(t := if full then p.t else CombineSecNano(SplitNano(p.t).0, 0))
  }

  function AsStoredAll(full: bool, ps: seq<Point>): (qs: seq<Point>)
    ensures |qs| == |ps|
    decreases |ps|
  {
    if |ps| == 0 then [] else [AsStored(full, ps[0])] + AsStoredAll(full, ps[1..])
  }

  /** Exactly the stamps that survive being split: zero, and nanoseconds whose seconds fit 32 bits. */
  lemma StampRoundTrip(t: int)
    ensures CombineSecNano(SplitNano(t).0, SplitNano(t).1) == t <==> t == 0 || 2147483647 < t < M32 * BILLION
    ensures 2147483647 < t < M32 * BILLION ==> SplitNano(t).0 == t / BILLION
  {}

  lemma ConsEqual<T>(a: T, xs: seq<T>, b: T, ys: seq<T>)
    ensures [a] + xs == [b] + ys <==> a == b && xs == ys
  {
    if [a] + xs == [b] + ys {
      assert ([a] + xs)[0] == ([b] + ys)[0] && ([a] + xs)[1..] == xs && ([b] + ys)[1..] == ys;
    }
  }

  /** Which points are stored as their sum alone, on bit patterns: those with a count of one and those whose
      four values are the same; a NaN is never the same as anything, and away from it the two zeros are. */
  lemma SmallExactly(p: Point)
    ensures p.count == 1 ==> IsSmall(p)
    ensures p.count != 1 && (IsNaN(p.min) || IsNaN(p.max) || IsNaN(p.last) || IsNaN(p.sum)) ==> !IsSmall(p)
    ensures !IsNaN(p.min) && !NegativeZero(p.min) && !NegativeZero(p.max) && !NegativeZero(p.last)
            && !NegativeZero(p.sum) ==>
              (IsSmall(p) <==> p.count == 1 || (p.min == p.max && p.min == p.last && p.min == p.sum))
    ensures IsZero(p.min) && IsZero(p.max) && IsZero(p.last) && IsZero(p.sum) ==> IsSmall(p)
  {
    hide IsNaN, IsZero;
    SameFloatValsExactly(p.min, p.max, p.last, p.sum);
    FloatEqLaws(p.min, p.max, p.last);
    FloatEqLaws(p.min, p.last, p.sum);
    FloatEqLaws(p.min, p.sum, p.sum);
  }
}
