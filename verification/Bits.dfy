/** Machine words as sequences of bits, most significant bit first.

    An unsigned n-bit word is a `seq<bool>` of length n, so shifts, masks and truncating casts
    are slices, and a two's-complement cast of any integer is `FromInt`. */
module Bits {

  function Pow2(n: nat): (p: nat)
    ensures p > 0
  {
    if n == 0 then 1 else 2 * Pow2(n - 1)
  }

  function Zeros(n: nat): (s: seq<bool>)
    ensures |s| == n
    ensures forall i :: 0 <= i < n ==> !s[i]
  {
    seq(n, _ => false)
  }

  /** The low n bits of v in two's complement. */
  function FromInt(v: int, n: nat): (s: seq<bool>)
    ensures |s| == n
    decreases n
  {
    if n == 0 then [] else FromInt(v / 2, n - 1) + [v % 2 == 1]
  }

  /** The unsigned value of a word. */
  function ToNat(s: seq<bool>): (v: nat)
    decreases |s|
  {
    if |s| == 0 then 0
    else 2 * ToNat(s[..|s| - 1]) + (if s[|s| - 1] then 1 else 0)
  }

  lemma DivModUnique(v: int, m: int, q: int, r: int)
    requires m > 0
    requires 0 <= r < m
    requires v == m * q + r
    ensures v / m == q && v % m == r
  {
    var q', r' := v / m, v % m;
    assert v == m * q' + r';
    assert m * (q - q') == r' - r;
    assert m * (q' - q) == r - r';
    if q > q' {
      MulAtLeast(m, q - q');
    } else if q < q' {
      MulAtLeast(m, q' - q);
    }
  }

  lemma MulAtLeast(m: int, k: int)
    requires m > 0 && k > 0
    ensures m * k >= m
  {}

  lemma ModDouble(v: int, m: int)
    requires m > 0
    ensures v % (2 * m) == 2 * ((v / 2) % m) + v % 2
  {
    var h, q, r := v / 2, (v / 2) / m, (v / 2) % m;
    assert h == m * q + r;
    assert v == 2 * h + v % 2;
    assert 2 * (m * q) == (2 * m) * q;
    DivModUnique(v, 2 * m, q, 2 * r + v % 2);
  }

  lemma {:induction false} ToNatFromInt(v: int, n: nat)
    ensures ToNat(FromInt(v, n)) == v % Pow2(n)
    decreases n
  {
    if n > 0 {
      var s := FromInt(v, n);
      assert s[..n - 1] == FromInt(v / 2, n - 1);
      ToNatFromInt(v / 2, n - 1);
      ModDouble(v, Pow2(n - 1));
    }
  }

  lemma {:induction false} FromIntToNat(s: seq<bool>)
    ensures FromInt(ToNat(s), |s|) == s
    ensures ToNat(s) < Pow2(|s|)
    decreases |s|
  {
    if |s| > 0 {
      var t := s[..|s| - 1];
      FromIntToNat(t);
      assert ToNat(s) / 2 == ToNat(t);
      assert s == t + [s[|s| - 1]];
    }
  }

  /** A small value survives a truncating cast unchanged. */
  lemma FitsRoundTrip(v: nat, n: nat)
    requires v < Pow2(n)
    ensures ToNat(FromInt(v, n)) == v
  {
    ToNatFromInt(v, n);
    DivModUnique(v, Pow2(n), 0, v);
  }

  /** Truncating a word keeps the low bits of the number it holds. */
  lemma {:induction false} LowBits(v: int, m: nat, n: nat)
    requires n <= m
    ensures FromInt(v, m)[m - n..] == FromInt(v, n)
    decreases n
  {
    if n > 0 {
      LowBits(v / 2, m - 1, n - 1);
      assert FromInt(v, m) == FromInt(v / 2, m - 1) + [v % 2 == 1];
      assert FromInt(v, m)[m - n..] == FromInt(v / 2, m - 1)[(m - 1) - (n - 1)..] + [v % 2 == 1];
    }
  }

  lemma {:induction false} ZeroWord(n: nat)
    ensures FromInt(0, n) == Zeros(n)
    ensures ToNat(Zeros(n)) == 0
    decreases n
  {
    if n > 0 {
      ZeroWord(n - 1);
      assert Zeros(n)[..n - 1] == Zeros(n - 1);
    }
  }

  lemma {:induction false} Pow2Adds(m: nat, n: nat)
    ensures Pow2(m + n) == Pow2(m) * Pow2(n)
    decreases m
  {
    if m > 0 {
      Pow2Adds(m - 1, n);
      assert Pow2(m + n) == 2 * (Pow2(m - 1) * Pow2(n));
      assert 2 * (Pow2(m - 1) * Pow2(n)) == (2 * Pow2(m - 1)) * Pow2(n);
    }
  }

  lemma Pow2Monotone(m: nat, n: nat)
    requires m <= n
    ensures Pow2(m) <= Pow2(n)
  {
    if m < n {
      Pow2Monotone(m, n - 1);
    }
  }

  /** The values of the powers that the formats use. */
  lemma Pow2Small()
    ensures Pow2(3) == 8 && Pow2(5) == 32 && Pow2(6) == 64 && Pow2(7) == 128 && Pow2(8) == 256
    ensures Pow2(9) == 512 && Pow2(11) == 2048 && Pow2(12) == 4096 && Pow2(14) == 16384 && Pow2(16) == 65536
  {}

  lemma Pow2Large()
    ensures Pow2(32) == 0x1_0000_0000 && Pow2(52) == 0x10_0000_0000_0000 && Pow2(53) == 0x20_0000_0000_0000
    ensures Pow2(63) == 0x8000_0000_0000_0000 && Pow2(64) == 0x1_0000_0000_0000_0000
  {
    assert Pow2(4) == 16 && Pow2(5) == 32 && Pow2(15) == 32768 && Pow2(16) == 65536;
    Pow2Adds(16, 16);
    Pow2Adds(16, 32);
    assert Pow2(48) == 0x1_0000_0000_0000;
    Pow2Adds(4, 48);
    Pow2Adds(5, 48);
    Pow2Adds(15, 48);
    Pow2Adds(16, 48);
  }

  /** A byte and a 64-bit word, as their bits. */
  type Octet = b: seq<bool> | |b| == 8 witness seq(8, _ => false)
  type Word = w: seq<bool> | |w| == 64 witness seq(64, _ => false)

  const ZERO: Word := Zeros(64)

  function Shl(s: seq<bool>, k: nat): (r: seq<bool>)
    ensures |r| == |s|
  {
    if k >= |s| then Zeros(|s|) else s[k..] + Zeros(k)
  }

  function Shr(s: seq<bool>, k: nat): (r: seq<bool>)
    ensures |r| == |s|
  {
    if k >= |s| then Zeros(|s|) else Zeros(k) + s[..|s| - k]
  }

  function Or(a: seq<bool>, b: seq<bool>): (r: seq<bool>)
    requires |a| == |b|
    ensures |r| == |a|
    ensures forall i :: 0 <= i < |r| ==> r[i] == (a[i] || b[i])
  {
    seq(|a|, i requires 0 <= i < |a| => a[i] || b[i])
  }

  function Xor(a: Word, b: Word): (r: Word)
    ensures forall i :: 0 <= i < 64 ==> r[i] == (a[i] != b[i])
  {
    seq(64, i requires 0 <= i < 64 => a[i] != b[i])
  }

  /** A number of any width cut down to, or padded up to, 64 bits. */
  function Fit64(s: seq<bool>): (w: Word)
  {
    if |s| <= 64 then Zeros(64 - |s|) + s else s[|s| - 64..]
  }

  function Flatten(bs: seq<Octet>): (s: seq<bool>)
    ensures |s| == 8 * |bs|
  {
    if |bs| == 0 then [] else bs[0] + Flatten(bs[1..])
  }

  lemma {:induction false} FlattenAppend(a: seq<Octet>, b: seq<Octet>)
    ensures Flatten(a + b) == Flatten(a) + Flatten(b)
    decreases |a|
  {
    if |a| == 0 {
      assert a + b == b;
    } else {
      FlattenAppend(a[1..], b);
      assert (a + b)[1..] == a[1..] + b;
    }
  }

  lemma FlattenSnoc(a: seq<Octet>, b: Octet)
    ensures Flatten(a + [b]) == Flatten(a) + b
  {
    FlattenAppend(a, [b]);
    assert Flatten([b]) == b + Flatten([]);
  }

  lemma XorCancels(a: Word, b: Word)
    ensures Xor(a, Xor(b, a)) == b
    ensures Xor(a, a) == ZERO
    ensures Xor(b, a) == ZERO ==> a == b
    ensures Xor(a, ZERO) == a
  {
    assert Xor(a, Xor(b, a)) == b;
    if Xor(b, a) == ZERO {
      forall i | 0 <= i < 64 ensures a[i] == b[i] {
        assert !Xor(b, a)[i];
      }
    }
  }

  lemma {:induction false} ToNatJoined(a: seq<bool>, b: seq<bool>)
    ensures ToNat(a + b) == ToNat(a) * Pow2(|b|) + ToNat(b)
    decreases |b|
  {
    if |b| == 0 {
      assert a + b == a;
    } else {
      var init, last := b[..|b| - 1], b[|b| - 1];
      var s := a + b;
      assert s[..|s| - 1] == a + init && s[|s| - 1] == last;
      ToNatJoined(a, init);
      DoubleProduct(ToNat(a), Pow2(|init|));
    }
  }

  lemma DoubleProduct(x: int, p: int)
    ensures x * (2 * p) == 2 * (x * p)
  {
  }
}
