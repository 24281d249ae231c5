/** The time part of the Gorilla format: the change of the step between stamps, in one of five
    prefix codes, and the end-of-stream record that shares the longest of them. */
module GorillaTime {
  import opened Bits
  import opened Points

  /** A code: its prefix, and the number of bits of the value after it. */
  datatype Code = Code(prefix: seq<bool>, size: nat)

  function CodeFor(dod: int): (c: Code)
    ensures |c.prefix| <= 4 && c.size <= 32
  {
    if dod == 0 then Code([false], 0)
    else if -63 <= dod <= 64 then Code([true, false], 7)
    else if -255 <= dod <= 256 then Code([true, true, false], 9)
    else if -2047 <= dod <= 2048 then Code([true, true, true, false], 12)
    else Code([true, true, true, true], 32)
  }

  function DodBits(dod: int): (bits: seq<bool>)
    ensures 1 <= |bits| <= 36
  {
    CodeFor(dod).prefix + FromInt(dod, CodeFor(dod).size)
  }

  const END_MARK: nat := 0xffff_ffff

  function EndRecord(): (bits: seq<bool>)
    ensures |bits| == 37
  {
    [true, true, true, true] + FromInt(END_MARK, 32) + [false]
  }

  datatype PrefixRead = PrefixRead(size: nat, rest: seq<bool>) | PrefixEof

  /** Up to four bits, ending at the first zero. */
  function ReadPrefix(bits: seq<bool>): (r: PrefixRead)
    ensures r.PrefixRead? ==> r.size in {0, 7, 9, 12, 32} && |r.rest| < |bits|
  {
    if |bits| < 1 then PrefixEof
    else if !bits[0] then PrefixRead(0, bits[1..])
    else if |bits| < 2 then PrefixEof
    else if !bits[1] then PrefixRead(7, bits[2..])
    else if |bits| < 3 then PrefixEof
    else if !bits[2] then PrefixRead(9, bits[3..])
    else if |bits| < 4 then PrefixEof
    else if !bits[3] then PrefixRead(12, bits[4..])
    else PrefixRead(32, bits[4..])
  }

  /** Undoes the truncation to `size` bits: the upper half of the range stands for negatives. */
  function Signed(n: nat, size: nat): (dod: int)
  {
    if size == 32 then ToInt32(n)
    else if size > 0 && n > Pow2(size - 1) then n - Pow2(size)
    else n
  }

  datatype DodRead = DodRead(dod: int, rest: seq<bool>) | DodEnd | DodEof

  function ReadField(size: nat, bits: seq<bool>): (r: DodRead)
  {
    if |bits| < size then DodEof
    else
      var n := ToNat(bits[..size]);
      if size == 32 && n == END_MARK then DodEnd else DodRead(Signed(n, size), bits[size..])
  }

  function ReadDod(bits: seq<bool>): (r: DodRead)
    ensures r.DodRead? ==> |r.rest| < |bits|
  {
    match ReadPrefix(bits)
    case PrefixEof => DodEof
    case PrefixRead(size, rest) => ReadField(size, rest)
  }

  lemma PrefixBack(dod: int, tail: seq<bool>)
    ensures ReadPrefix(CodeFor(dod).prefix + tail) == PrefixRead(CodeFor(dod).size, tail)
  {
    var p := CodeFor(dod).prefix;
    assert (p + tail)[|p|..] == tail;
  }

  lemma SignedShort(dod: int, size: nat)
    requires size == 7 || size == 9 || size == 12
    requires 0 - Pow2(size - 1) < dod <= Pow2(size - 1)
    ensures Signed(ToNat(FromInt(dod, size)), size) == dod
  {
    var p, h := Pow2(size), Pow2(size - 1);
    ToNatFromInt(dod, size);
    if dod >= 0 {
      DivModUnique(dod, p, 0, dod);
    } else {
      DivModUnique(dod, p, -1, dod + p);
    }
  }

  lemma Field32(v: int)
    ensures ToNat(FromInt(v, 32)) == v % M32
  {
    Pow2Large();
    ToNatFromInt(v, 32);
  }

  lemma SignedLong(dod: int, n: nat)
    requires IsInt32(dod) && dod != -1 && n == dod % M32
    ensures n != END_MARK && Signed(n, 32) == dod
  {}

  lemma SignedBack(dod: int)
    requires IsInt32(dod)
    ensures var c := CodeFor(dod);
            var n := ToNat(FromInt(dod, c.size));
            Signed(n, c.size) == dod && !(c.size == 32 && n == END_MARK)
  {
    var c := CodeFor(dod);
    if c.size == 32 {
      Field32(dod);
      SignedLong(dod, dod % M32);
    } else if c.size > 0 {
      Pow2Small();
      SignedShort(dod, c.size);
    }
  }

  lemma FieldBack(dod: int, size: nat, field: seq<bool>, rest: seq<bool>)
    requires |field| == size
    requires Signed(ToNat(field), size) == dod && !(size == 32 && ToNat(field) == END_MARK)
    ensures ReadField(size, field + rest) == DodRead(dod, rest)
  {
    assert (field + rest)[..size] == field && (field + rest)[size..] == rest;
  }

  /** Every 32-bit step change is recovered from its code, which ends exactly where it should. */
  lemma DodInStep(dod: int, rest: seq<bool>)
    requires IsInt32(dod)
    ensures ReadDod(DodBits(dod) + rest) == DodRead(dod, rest)
  {
    var c := CodeFor(dod);
    var field := FromInt(dod, c.size);
    assert DodBits(dod) + rest == c.prefix + (field + rest);
    PrefixBack(dod, field + rest);
    SignedBack(dod);
    FieldBack(dod, c.size, field, rest);
  }

  lemma EndInStep(rest: seq<bool>)
    ensures ReadDod(EndRecord() + rest) == DodEnd
  {
    Field32(END_MARK);
    EndLayout(FromInt(END_MARK, 32), rest);
  }

  lemma EndLayout(field: seq<bool>, rest: seq<bool>)
    requires |field| == 32 && ToNat(field) == END_MARK
    ensures ReadDod([true, true, true, true] + field + [false] + rest) == DodEnd
  {
    var prefix, tail := [true, true, true, true], [false] + rest;
    assert [true, true, true, true] + field + [false] + rest == prefix + (field + tail);
    assert (prefix + (field + tail))[4..] == field + tail;
    EndField(field, tail);
  }

  lemma EndField(field: seq<bool>, tail: seq<bool>)
    requires |field| == 32
    ensures ToNat(field) == END_MARK ==> ReadField(32, field + tail) == DodEnd
  {
    assert (field + tail)[..32] == field;
  }

  /** The codes are prefix-free, and no code starts like the end record. */
  lemma PrefixFree(a: int, b: int, r: seq<bool>, s: seq<bool>)
    requires IsInt32(a) && IsInt32(b)
    ensures DodBits(a) + r == DodBits(b) + s ==> a == b && r == s
    ensures DodBits(a) + r != EndRecord() + s
  {
    DodInStep(a, r);
    DodInStep(b, s);
    EndInStep(s);
  }

  /** A field of `size` bits gives the step change back. */
  predicate FieldHolds(dod: int, size: nat)
  {
    Signed(ToNat(FromInt(dod, size)), size) == dod
  }

  lemma SignedRange(n: nat, size: nat)
    requires size in {7, 9, 12} && n < Pow2(size)
    ensures 0 - Pow2(size - 1) < Signed(n, size) <= Pow2(size - 1)
  {
    assert Pow2(size) == 2 * Pow2(size - 1);
  }

  /** The code chosen holds the step change, and no code with a shorter field does. */
  lemma ShortestCode(dod: int, size: nat)
    requires IsInt32(dod) && size in {0, 7, 9, 12, 32}
    ensures FieldHolds(dod, CodeFor(dod).size)
    ensures FieldHolds(dod, size) ==> CodeFor(dod).size <= size
  {
    SignedBack(dod);
    if size in {7, 9, 12} {
      Pow2Small();
      ToNatFromInt(dod, size);
      SignedRange(ToNat(FromInt(dod, size)), size);
    }
  }
}
