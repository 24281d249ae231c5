/** IEEE 754 double precision on bit patterns: sign, 11 exponent bits, 52 fraction bits. */
module Float64 {
  import opened Bits

  predicate IsNaN(f: Word)
  {
    (forall i :: 1 <= i < 12 ==> f[i]) && exists i :: 12 <= i < 64 && f[i]
  }

  predicate IsInf(f: Word)
  {
    (forall i :: 1 <= i < 12 ==> f[i]) && forall i :: 12 <= i < 64 ==> !f[i]
  }

  /** Plus or minus zero. */
  predicate IsZero(f: Word)
  {
    forall i :: 1 <= i < 64 ==> !f[i]
  }

  /** The == of the language: NaN differs from itself, the two zeros are equal. */
  predicate FloatEq(a: Word, b: Word)
  {
    !IsNaN(a) && !IsNaN(b) && (a == b || (IsZero(a) && IsZero(b)))
  }

  predicate SameFloatVals(min: Word, max: Word, last: Word, sum: Word)
  {
    FloatEq(min, max) && FloatEq(min, last) && FloatEq(min, sum)
  }

  function BitLen(n: nat): (k: nat)
    ensures n < Pow2(k)
    ensures n > 0 ==> k > 0 && Pow2(k - 1) <= n
  {
    if n == 0 then 0 else 1 + BitLen(n / 2)
  }

  lemma BitLenUnique(n: nat, k: nat)
    requires k > 0 && Pow2(k - 1) <= n < Pow2(k)
    ensures BitLen(n) == k
  {
    var j := BitLen(n);
    if j < k {
      Pow2Monotone(j, k - 1);
    } else if k < j {
      Pow2Monotone(k, j - 1);
    }
  }

  /** n needs no more than the 53 bits that a double holds. */
  predicate Exact(n: nat)
  {
    BitLen(n) <= 53 || n % Pow2(BitLen(n) - 53) == 0
  }

  /** Round half to even, given the quotient and the remainder. */
  function RoundUp(q: nat, rem: nat, half: nat): (r: nat)
    ensures r == q || r == q + 1
  {
    if rem > half || (rem == half && q % 2 == 1) then q + 1 else q
  }

  /** Round to nearest, ties to even, at 53 bits. */
  function Round53(n: nat): (r: nat)
  {
    var k := BitLen(n);
    if k <= 53 then n
    else RoundUp(n / Pow2(k - 53), n % Pow2(k - 53), Pow2(k - 54)) * Pow2(k - 53)
  }

  /** The pattern of a number with at most 53 significant bits. */
  function Pattern(negative: bool, n: nat): (f: Word)
  {
    var k := BitLen(n);
    if k == 0 then ZERO
    else [negative] + FromInt(1022 + k, 11) + (FromInt(n, k)[1..] + Zeros(52))[..52]
  }

  /** The conversion float64(c). */
  function FloatOfInt(c: int): (f: Word)
    requires -0x8000_0000_0000_0000 <= c <= 0x7fff_ffff_ffff_ffff
  {
    Pattern(c < 0, Round53(if c < 0 then -c else c))
  }

  /** The whole part of |f|, when it has at most 64 bits. */
  function Whole(f: Word): (n: nat)
  {
    var e := ToNat(f[1..12]);
    if e < 1023 || e - 1023 >= 64 then 0
    else ToNat(([true] + f[12..] + Zeros(64))[..e - 1022])
  }

  /** The conversion int64(f). Out of range it gives the least integer, as the amd64 instruction does. */
  function IntOfFloat(f: Word): (c: int)
    ensures -0x8000_0000_0000_0000 <= c <= 0x7fff_ffff_ffff_ffff
  {
    var e: int, w: int := ToNat(f[1..12]), Whole(f);
    if e >= 1087 || (if f[0] then w > 0x8000_0000_0000_0000 else w > 0x7fff_ffff_ffff_ffff)
    then -0x8000_0000_0000_0000
    else if f[0] then 0 - w else w
  }

  /** The conversion uint32(f). */
  function UintOfFloat(f: Word): (n: nat)
    ensures n < 0x1_0000_0000
  {
    IntOfFloat(f) % 0x1_0000_0000
  }

  const MIN_FLAG: Word := Pattern(true, 0x8000_0000_0000_0000)

  /** NaN, the infinities and the "unset" flag -2^63 are stored as zero. */
  function CheckFloat(f: Word): (r: Word)
  {
    if IsNaN(f) || IsInf(f) || FloatEq(f, MIN_FLAG) then ZERO else f
  }

  // ---- exactness of the integer conversions ----

  lemma MulLeq(q: int, r: int, p: nat)
    requires q <= r
    ensures q * p <= r * p
  {}

  lemma DivBounds(n: nat, p: nat, lo: nat, hi: nat)
    requires p > 0 && lo * p <= n < hi * p
    ensures lo <= n / p < hi
    ensures n == (n / p) * p + n % p
  {
    var q := n / p;
    assert n == p * q + n % p;
    if q >= hi { MulLeq(hi, q, p); }
    if q + 1 <= lo { MulLeq(q + 1, lo, p); }
  }

  /** The top bits of a longer number. */
  lemma Quotient(n: nat, s: nat, j: nat)
    requires BitLen(n) == j + s && j > 0
    ensures Pow2(j - 1) <= n / Pow2(s) < Pow2(j)
    ensures n == (n / Pow2(s)) * Pow2(s) + n % Pow2(s)
  {
    Pow2Adds(j - 1, s);
    Pow2Adds(j, s);
    DivBounds(n, Pow2(s), Pow2(j - 1), Pow2(j));
  }

  lemma BitLenDouble(m: nat)
    requires m > 0
    ensures BitLen(2 * m) == 1 + BitLen(m)
  {
    assert (2 * m) / 2 == m;
  }

  lemma MulDouble(r: nat, p: nat)
    ensures r * (2 * p) == 2 * (r * p)
    ensures r > 0 && p > 0 ==> r * p > 0
  {}

  lemma {:induction false} BitLenShift(r: nat, s: nat)
    requires r > 0
    ensures r * Pow2(s) > 0
    ensures BitLen(r * Pow2(s)) == BitLen(r) + s
    decreases s
  {
    if s == 0 {
      assert r * Pow2(s) == r;
    } else {
      BitLenShift(r, s - 1);
      MulDouble(r, Pow2(s - 1));
      BitLenDouble(r * Pow2(s - 1));
    }
  }

  lemma MultipleOf(r: nat, s: nat)
    ensures (r * Pow2(s)) % Pow2(s) == 0
  {
    assert r * Pow2(s) == Pow2(s) * r;
    DivModUnique(r * Pow2(s), Pow2(s), r, 0);
  }

  /** A multiple of 2^s whose factor has j bits, or just overflows them. */
  lemma MultipleLength(r: nat, s: nat, j: nat)
    requires j > 0 && Pow2(j - 1) <= r <= Pow2(j)
    ensures var d := if r == Pow2(j) then 1 else 0;
            BitLen(r * Pow2(s)) == j + d + s && (r * Pow2(s)) % Pow2(d + s) == 0
  {
    BitLenShift(r, s);
    if r == Pow2(j) {
      BitLenUnique(r, j + 1);
      MoveFactor(Pow2(j - 1), Pow2(s));
      MultipleOf(Pow2(j - 1), s + 1);
    } else {
      BitLenUnique(r, j);
      MultipleOf(r, s);
    }
  }

  lemma MoveFactor(h: nat, p: nat)
    ensures (2 * h) * p == h * (2 * p)
  {}

  lemma MultipleExact(r: nat, s: nat, j: nat)
    requires j == 53 && Pow2(j - 1) <= r <= Pow2(j)
    ensures BitLen(r * Pow2(s)) == (if r == Pow2(j) then j + 1 + s else j + s)
    ensures Exact(r * Pow2(s))
  {
    MultipleLength(r, s, j);
  }

  lemma RoundIsExact(n: nat)
    ensures Exact(Round53(n))
    ensures Round53(n) == n <==> Exact(n)
    ensures n > 0 ==> Round53(n) > 0
  {
    var k := BitLen(n);
    if k > 53 {
      var s := k - 53;
      Quotient(n, s, 53);
      var r := RoundUp(n / Pow2(s), n % Pow2(s), Pow2(s - 1));
      MultipleExact(r, s, 53);
      MultipleOf(r, s);
      BitLenShift(r, s);
      assert Round53(n) == r * Pow2(s);
    }
  }

  /** Rounding a 64-bit integer keeps it within 64 bits. */
  lemma RoundFits(n: nat)
    requires n <= 0x8000_0000_0000_0000
    ensures BitLen(Round53(n)) <= 64 && Round53(n) <= 0x8000_0000_0000_0000
  {
    var k := BitLen(n);
    assert k <= 64 by {
      Pow2Large();
      if k > 64 { Pow2Monotone(64, k - 1); }
    }
    if k > 53 {
      var s := k - 53;
      Quotient(n, s, 53);
      var r := RoundUp(n / Pow2(s), n % Pow2(s), Pow2(s - 1));
      MultipleExact(r, s, 53);
      assert Round53(n) == r * Pow2(s);
      if k == 64 {
        LeastOf64Bits(n);
      } else {
        ScaledBound(r, s, 53, 63);
      }
    }
  }

  lemma ScaledBound(r: nat, s: nat, j: nat, top: nat)
    requires r <= Pow2(j) && j + s <= top == 63
    ensures r * Pow2(s) <= 0x8000_0000_0000_0000
  {
    var bound := Pow2(top);
    assert bound == 0x8000_0000_0000_0000 by { Pow2Large(); }
    MulLeq(r, Pow2(j), Pow2(s));
    Pow2Adds(j, s);
    Pow2Monotone(j + s, top);
  }

  lemma LeastOf64Bits(n: nat)
    requires BitLen(n) == 64 && n <= 0x8000_0000_0000_0000
    ensures n / Pow2(11) == Pow2(52) && n % Pow2(11) == 0 && Round53(n) == n
    ensures BitLen(Round53(n)) <= 64
  {
    Pow2Large();
    assert n == Pow2(63);
    Pow2Adds(11, 52);
    DivModUnique(n, Pow2(11), Pow2(52), 0);
    assert Exact(n);
    RoundIsExact(n);
  }

  lemma FractionShort(b: seq<bool>, k: nat)
    requires 0 < k == |b| <= 53 && b[0]
    ensures ([true] + (b[1..] + Zeros(52))[..52] + Zeros(64))[..k] == b
  {
    assert (b[1..] + Zeros(52))[..52] == b[1..] + Zeros(53 - k);
    assert [true] + b[1..] == b;
  }

  lemma FractionLong(b: seq<bool>, k: nat)
    requires 53 < k == |b| <= 64 && b[0] && b[53..] == Zeros(k - 53)
    ensures ([true] + (b[1..] + Zeros(52))[..52] + Zeros(64))[..k] == b
  {
    assert (b[1..] + Zeros(52))[..52] == b[1..53];
    assert [true] + b[1..53] == b[..53];
    assert (b[..53] + Zeros(64))[..k] == b[..53] + Zeros(k - 53);
    assert b == b[..53] + b[53..];
  }

  /** The significant bits of an exact number fit the fraction field. */
  lemma FractionHolds(n: nat, k: nat, b: seq<bool>)
    requires 0 < n && Exact(n) && k == BitLen(n) <= 64 && b == FromInt(n, k)
    ensures ([true] + (b[1..] + Zeros(52))[..52] + Zeros(64))[..k] == b
  {
    TopBitSet(n, k);
    if k > 53 {
      assert b[53..] == Zeros(k - 53) by {
        LowBits(n, k, k - 53);
        ToNatFromInt(n, k - 53);
        FromIntToNat(FromInt(n, k - 53));
        ZeroWord(k - 53);
      }
      FractionLong(b, k);
    } else {
      FractionShort(b, k);
    }
  }

  /** An exact number comes back whole from its pattern. */
  lemma PatternWhole(negative: bool, n: nat)
    requires 0 < n && BitLen(n) <= 64 && Exact(n)
    ensures Whole(Pattern(negative, n)) == n
    ensures ToNat(Pattern(negative, n)[1..12]) == 1022 + BitLen(n)
    ensures Pattern(negative, n)[0] == negative
  {
    hide Exact, FromInt, ToNat, BitLen, Zeros;
    var k, f := BitLen(n), Pattern(negative, n);
    PatternParts(negative, FromInt(1022 + k, 11), (FromInt(n, k)[1..] + Zeros(52))[..52]);
    Pow2Small();
    FitsRoundTrip(1022 + k, 11);
    FitsRoundTrip(n, k);
    FractionHolds(n, k, FromInt(n, k));
  }

  lemma PatternParts(negative: bool, e: seq<bool>, frac: seq<bool>)
    requires |e| == 11 && |frac| == 52
    ensures var f := [negative] + e + frac; f[0] == negative && f[1..12] == e && f[12..] == frac
  {}

  lemma TopBitSet(n: nat, k: nat)
    requires k > 0 && Pow2(k - 1) <= n < Pow2(k)
    ensures FromInt(n, k)[0]
  {
    if k > 1 {
      TopBitSet(n / 2, k - 1);
    }
  }

  /** A count survives float64() and back exactly when it has at most 53 significant bits. */
  lemma CountRoundTrip(c: int)
    requires -0x8000_0000_0000_0000 <= c <= 0x7fff_ffff_ffff_ffff
    ensures IntOfFloat(FloatOfInt(c)) == c <==> Exact(if c < 0 then -c else c)
  {
    var m: nat := if c < 0 then -c else c;
    RoundIsExact(m);
    RoundFits(m);
    IntOfRounded(c, m, Round53(m));
  }

  lemma IntOfRounded(c: int, m: nat, r: nat)
    requires -0x8000_0000_0000_0000 <= c <= 0x7fff_ffff_ffff_ffff && m == (if c < 0 then -c else c)
    requires BitLen(r) <= 64 && Exact(r) && r <= 0x8000_0000_0000_0000
    ensures IntOfFloat(Pattern(c < 0, r)) == c <==> r == m
  {
    IntOfPattern(c < 0, r);
  }

  lemma IntOfPattern(negative: bool, r: nat)
    requires BitLen(r) <= 64 && Exact(r)
    ensures var c := IntOfFloat(Pattern(negative, r));
            c == (if negative then 0 - r else r)
            || (c == -0x8000_0000_0000_0000 && r > (if negative then 0x8000_0000_0000_0000 else 0x7fff_ffff_ffff_ffff))
  {
    if r == 0 {
      ZeroWord(11);
      assert ZERO[1..12] == Zeros(11);
    } else {
      PatternWhole(negative, r);
    }
  }

  /** Every 32-bit number is exact. */
  lemma UintRoundTrip(n: nat)
    requires n < 0x1_0000_0000
    ensures UintOfFloat(FloatOfInt(n)) == n
  {
    ShortIsExact(n);
    CountRoundTrip(n);
    UintOfInt(FloatOfInt(n), n);
  }

  lemma UintOfInt(f: Word, n: nat)
    requires IntOfFloat(f) == n < 0x1_0000_0000
    ensures UintOfFloat(f) == n
  {}

  lemma ShortIsExact(n: nat)
    requires n < 0x1_0000_0000
    ensures Exact(n)
  {
    Pow2Large();
    if BitLen(n) > 32 { Pow2Monotone(32, BitLen(n) - 1); }
  }

  // ---- CheckFloat ----

  lemma {:induction false} NoBits(s: seq<bool>)
    requires forall i :: 0 <= i < |s| ==> !s[i]
    ensures ToNat(s) == 0
    decreases |s|
  {
    if |s| > 0 {
      NoBits(s[..|s| - 1]);
    }
  }

  lemma PatternNotZero(negative: bool, n: nat)
    requires 0 < n && BitLen(n) <= 64
    ensures !IsZero(Pattern(negative, n))
  {
    hide BitLen, FromInt, ToNat, Zeros;
    var k, f := BitLen(n), Pattern(negative, n);
    PatternParts(negative, FromInt(1022 + k, 11), (FromInt(n, k)[1..] + Zeros(52))[..52]);
    Pow2Small();
    FitsRoundTrip(1022 + k, 11);
    if IsZero(f) {
      NoBits(f[1..12]);
    }
  }

  lemma ZeroIsUsable(flag: Word)
    requires !IsZero(flag)
    ensures !IsNaN(ZERO) && !IsInf(ZERO) && !FloatEq(ZERO, flag)
  {
    ZeroIsZero();
    assert !ZERO[1];
  }

  lemma ZeroIsZero()
    ensures IsZero(ZERO)
  {
  }

  /** What comes out is usable, and is what went in if that was usable. */
  lemma CheckedIsUsable(f: Word)
    ensures var r := CheckFloat(f);
            && !IsNaN(r) && !IsInf(r) && !FloatEq(r, MIN_FLAG)
            && (r != f ==> r == ZERO && (IsNaN(f) || IsInf(f) || FloatEq(f, MIN_FLAG)))
  {
    hide Pattern, IsNaN, IsInf, FloatEq, IsZero;
    Pow2Large();
    BitLenUnique(0x8000_0000_0000_0000, 64);
    PatternNotZero(true, 0x8000_0000_0000_0000);
    ZeroIsUsable(MIN_FLAG);
  }

  // ---- what the predicates say of numbers ----

  lemma {:induction false} SomeBit(s: seq<bool>)
    ensures ToNat(s) == 0 <==> forall i :: 0 <= i < |s| ==> !s[i]
    decreases |s|
  {
    if |s| > 0 {
      SomeBit(s[..|s| - 1]);
      assert s == s[..|s| - 1] + [s[|s| - 1]];
    }
  }

  lemma {:induction false} EveryBit(s: seq<bool>)
    ensures ToNat(s) < Pow2(|s|)
    ensures ToNat(s) == Pow2(|s|) - 1 <==> forall i :: 0 <= i < |s| ==> s[i]
    decreases |s|
  {
    if |s| > 0 {
      EveryBit(s[..|s| - 1]);
      assert s == s[..|s| - 1] + [s[|s| - 1]];
    }
  }

  /** The three special kinds of pattern, by the numbers in the exponent and fraction fields. */
  lemma KindsOfFloat(f: Word)
    ensures var e, m := ToNat(f[1..12]), ToNat(f[12..]);
            && (IsNaN(f) <==> e == 2047 && m != 0)
            && (IsInf(f) <==> e == 2047 && m == 0)
            && (IsZero(f) <==> e == 0 && m == 0)
  {
    hide ToNat;
    var x, y := f[1..12], f[12..];
    Pow2Small();
    SomeBit(x);
    SomeBit(y);
    EveryBit(x);
    assert forall i :: 1 <= i < 12 ==> f[i] == x[i - 1];
    assert forall i :: 0 <= i < 11 ==> x[i] == f[i + 1];
    assert forall i :: 12 <= i < 64 ==> f[i] == y[i - 12];
    assert forall i :: 0 <= i < 52 ==> y[i] == f[i + 12];
  }

  predicate NegativeZero(w: Word)
  {
    IsZero(w) && w != ZERO
  }

  /** Equality is reflexive but for NaN, symmetric and transitive, and away from NaN and negative zero it is
      equality of patterns. */
  lemma FloatEqLaws(a: Word, b: Word, c: Word)
    ensures FloatEq(a, a) <==> !IsNaN(a)
    ensures FloatEq(a, b) <==> FloatEq(b, a)
    ensures FloatEq(a, b) && FloatEq(b, c) ==> FloatEq(a, c)
    ensures !IsNaN(a) && !NegativeZero(a) && !NegativeZero(b) ==> (FloatEq(a, b) <==> a == b)
    ensures IsZero(a) && IsZero(b) ==> FloatEq(a, b)
  {
  }

  /** All four are equal, whichever two are compared. */
  lemma SameFloatValsExactly(a: Word, b: Word, c: Word, d: Word)
    ensures SameFloatVals(a, b, c, d) <==> FloatEq(a, b) && FloatEq(b, c) && FloatEq(c, d)
    ensures SameFloatVals(a, b, c, d) ==> FloatEq(a, d) && FloatEq(b, d)
    ensures !IsNaN(a) && !NegativeZero(a) && !NegativeZero(b) && !NegativeZero(c) && !NegativeZero(d) ==>
              (SameFloatVals(a, b, c, d) <==> a == b && a == c && a == d)
  {
    hide IsNaN, IsZero, FloatEq;
    FloatEqLaws(a, b, c);
    FloatEqLaws(a, c, d);
    FloatEqLaws(b, a, d);
    FloatEqLaws(b, a, c);
    FloatEqLaws(c, a, d);
    FloatEqLaws(a, d, d);
    FloatEqLaws(c, b, a);
    FloatEqLaws(b, c, d);
  }

  /** A finite number, one whose exponent bits are not all set, other than the unset flag. */
  predicate IsUsable(f: Word)
  {
    ToNat(f[1..12]) != 2047 && f != MIN_FLAG
  }

  lemma UsableStays(f: Word)
    ensures IsUsable(f) ==> CheckFloat(f) == f
    ensures !IsUsable(f) ==> CheckFloat(f) == ZERO
  {
    hide Pattern, IsNaN, IsInf, IsZero, ToNat;
    KindsOfFloat(f);
    Pow2Large();
    BitLenUnique(0x8000_0000_0000_0000, 64);
    PatternNotZero(true, 0x8000_0000_0000_0000);
    FlagIsNumber();
  }

  /** The flag is the pattern of -2^63. */
  lemma FlagIsNumber()
    ensures !IsNaN(MIN_FLAG) && !IsInf(MIN_FLAG)
    ensures IntOfFloat(MIN_FLAG) == -0x8000_0000_0000_0000 && MIN_FLAG[0]
  {
    hide Pattern, IsNaN, IsInf, ToNat;
    var n: nat := 0x8000_0000_0000_0000;
    Pow2Large();
    BitLenUnique(n, 64);
    Pow2Adds(11, 52);
    assert n == Pow2(63);
    DivModUnique(n, Pow2(11), Pow2(52), 0);
    assert Exact(n);
    PatternWhole(true, n);
    KindsOfFloat(MIN_FLAG);
  }

  lemma NearestMultiple(n: nat, u: nat, half: nat, q: nat, rem: nat)
    requires u == 2 * half > 0 && n == u * q + rem && rem < u
    ensures var up := RoundUp(q, rem, half);
            var r := up * u;
            && r % u == 0 && 0 - u <= 2 * (r - n) <= u
            && (2 * (r - n) == u || 2 * (r - n) == 0 - u ==> r / u % 2 == 0)
  {
    var up := RoundUp(q, rem, half);
    DivModUnique(up * u, u, up, 0);
    if up != q {
      assert up * u == u * q + u;
    }
  }

  /** Rounding goes to a nearest multiple of the last place, and to an even one of two. */
  lemma RoundNearest(n: nat)
    requires BitLen(n) > 53
    ensures var u, r := Pow2(BitLen(n) - 53), Round53(n);
            && r % u == 0 && 0 - u <= 2 * (r - n) <= u
            && (2 * (r - n) == u || 2 * (r - n) == 0 - u ==> r / u % 2 == 0)
  {
    hide BitLen;
    var k := BitLen(n);
    var u, half := Pow2(k - 53), Pow2(k - 54);
    NearestMultiple(n, u, half, n / u, n % u);
  }
}
