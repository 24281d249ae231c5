/** The bit stream under the Gorilla codec: a byte buffer that is filled, or consumed, bit by bit
    and byte by byte at any bit offset. */
module BitStreams {
  import opened Bits

  /** The low part of an octet below its `used` high bits is still clear. */
  ghost predicate ClearFrom(b: Octet, used: nat)
  {
    forall i :: used <= i < 8 ==> !b[i]
  }

  lemma OrFillsLow(b: Octet, x: Octet, used: nat)
    requires used <= 8 && ClearFrom(b, used)
    ensures Or(b, Shr(x, used)) == b[..used] + x[..8 - used]
  {}

  /** 1 << k */
  function OneAt(k: nat): (b: Octet)
  {
    Shl(FromInt(1, 8), k)
  }

  lemma OneAtBits(k: nat)
    requires k < 8
    ensures forall i :: 0 <= i < 8 ==> OneAt(k)[i] == (i == 7 - k)
  {
    assert FromInt(1, 8) == FromInt(0, 7) + [true];
    ZeroWord(7);
    assert OneAt(k) == (Zeros(7) + [true])[k..] + Zeros(k);
  }

  lemma OrSetsBit(b: Octet, count: nat, bit: bool)
    requires 1 <= count <= 8 && ClearFrom(b, 8 - count)
    ensures var c := if bit then Or(b, OneAt(count - 1)) else b;
            c[..9 - count] == b[..8 - count] + [bit] && ClearFrom(c, 9 - count)
  {
    OneAtBits(count - 1);
  }

  /** One step of a write: the top k bits of v go out, and v is shifted to bring up the next. */
  lemma ShiftOut(w: seq<bool>, v: Word, n: nat, k: nat)
    requires 1 <= k <= n <= 64
    ensures (w + v[..k]) + Shl(v, k)[..n - k] == w + v[..n]
    ensures v[..1] == [v[0]]
  {
    assert Shl(v, k)[..n - k] == v[k..n];
    assert v[..k] + v[k..n] == v[..n];
  }

  /** A buffer whose last octet has `count` clear bits left to fill. */
  ghost predicate Fillable(stream: seq<Octet>, count: nat)
  {
    && count <= 8
    && (|stream| == 0 ==> count == 0)
    && (|stream| > 0 ==> ClearFrom(stream[|stream| - 1], 8 - count))
  }

  ghost function Filled(stream: seq<Octet>, count: nat): (s: seq<bool>)
    requires Fillable(stream, count)
  {
    if |stream| == 0 then []
    else Flatten(stream[..|stream| - 1]) + stream[|stream| - 1][..8 - count]
  }

  lemma FilledSnoc(init: seq<Octet>, last: Octet, count: nat)
    requires count <= 8 && ClearFrom(last, 8 - count)
    ensures Fillable(init + [last], count)
    ensures Filled(init + [last], count) == Flatten(init) + last[..8 - count]
  {
    assert (init + [last])[..|init|] == init;
  }

  lemma FilledByteAcross(init: seq<Octet>, last: Octet, count: nat, byt: Octet)
    requires 1 <= count <= 8 && ClearFrom(last, 8 - count)
    ensures var stream := init + [Or(last, Shr(byt, 8 - count))] + [Shl(byt, count)];
            Fillable(stream, count)
            && Filled(stream, count) == (Flatten(init) + last[..8 - count]) + byt
  {
    var full, low := Or(last, Shr(byt, 8 - count)), Shl(byt, count);
    var a, x, y, z := Flatten(init), last[..8 - count], byt[..count], byt[count..];
    assert full == x + y by { OrFillsLow(last, byt, 8 - count); }
    assert low[..8 - count] == z && ClearFrom(low, 8 - count);
    assert byt == y + z;
    FilledSnoc(init + [full], low, count);
    FlattenSnoc(init, full);
    Regroup(a, x, y, z);
  }

  lemma Regroup(a: seq<bool>, x: seq<bool>, y: seq<bool>, z: seq<bool>)
    ensures (a + (x + y)) + z == (a + x) + (y + z)
  {}

  /** A buffer whose first octet has `count` bits left to read, at the top. */
  ghost predicate Drainable(stream: seq<Octet>, count: nat)
  {
    count <= 8 && (count > 0 && |stream| > 0 ==> ClearFrom(stream[0], count))
  }

  ghost function Remaining(stream: seq<Octet>, count: nat): (s: seq<bool>)
    requires Drainable(stream, count)
  {
    if |stream| == 0 then [] else stream[0][..count] + Flatten(stream[1..])
  }

  lemma RemainingCons(first: Octet, tail: seq<Octet>, count: nat)
    requires count <= 8 && (count > 0 ==> ClearFrom(first, count))
    ensures Drainable([first] + tail, count)
    ensures Remaining([first] + tail, count) == first[..count] + Flatten(tail)
  {
    assert ([first] + tail)[1..] == tail;
  }

  /** Moving on from a used-up octet loses nothing. */
  lemma RemainingAdvance(stream: seq<Octet>)
    requires |stream| > 0
    ensures Drainable(stream, 0) && Drainable(stream[1..], 8)
    ensures Remaining(stream, 0) == Remaining(stream[1..], 8)
  {
    if |stream| > 1 {
      var t := stream[1..];
      assert t == [t[0]] + t[1..];
      assert t[0][..8] == t[0];
    }
  }

  lemma RemainingBit(first: Octet, tail: seq<Octet>, count: nat)
    requires 1 <= count <= 8 && ClearFrom(first, count)
    ensures var s := Remaining([first] + tail, count);
            var stream' := [Shl(first, 1)] + tail;
            |s| >= 1 && s[0] == first[0]
            && Drainable(stream', count - 1) && Remaining(stream', count - 1) == s[1..]
  {
    RemainingCons(first, tail, count);
    RemainingCons(Shl(first, 1), tail, count - 1);
    assert Shl(first, 1)[..count - 1] == first[1..count];
  }

  lemma RemainingByteAcross(first: Octet, second: Octet, tail: seq<Octet>, count: nat)
    requires 1 <= count <= 7 && ClearFrom(first, count)
    ensures var s := Remaining([first] + ([second] + tail), count);
            var stream' := [Shl(second, 8 - count)] + tail;
            |s| >= 8 && s[..8] == Or(first, Shr(second, count))
            && Drainable(stream', count) && Remaining(stream', count) == s[8..]
  {
    var t := [second] + tail;
    RemainingCons(first, t, count);
    RemainingCons(Shl(second, 8 - count), tail, count);
    OrFillsLow(first, second, count);
    assert t[1..] == tail;
    assert Flatten(t) == second + Flatten(tail);
    assert Shl(second, 8 - count)[..count] == second[8 - count..];
    assert second == second[..8 - count] + second[8 - count..];
  }

  /** A stream is either written or read, never both. In both uses `count` is the number of bits
      left in the current byte: the last one when writing, the first one when reading. */
  class BitStream {
    var stream: seq<Octet>
    var count: nat

    constructor Writer()
      ensures stream == [] && count == 0
      ensures Writing() && Written() == []
    {
      stream, count := [], 0;
    }

    constructor Reader(b: seq<Octet>)
      ensures stream == b && count == 8
      ensures Reading() && Rest() == Flatten(b)
    {
      stream, count := b, 8;
    }

    // ---- writing ----

    ghost predicate Writing()
      reads this
    {
      Fillable(stream, count)
    }

    /** Everything written so far. */
    ghost function Written(): (s: seq<bool>)
      requires Writing()
      reads this
    {
      Filled(stream, count)
    }

    method MakeRoom()
      requires Writing()
      modifies this
      ensures Writing() && count > 0 && Written() == old(Written())
    {
      if count == 0 {
        FilledSnoc(stream, Zeros(8), 8);
        if |stream| > 0 {
          var n := |stream| - 1;
          assert stream == stream[..n] + [stream[n]];
          FlattenSnoc(stream[..n], stream[n]);
        }
        stream := stream + [Zeros(8)];
        count := 8;
      }
    }

    method WriteBit(bit: bool)
      requires Writing()
      modifies this
      ensures Writing() && Written() == old(Written()) + [bit]
    {
      hide Flatten, OneAt, Or;
      MakeRoom();
      var i := |stream| - 1;
      ghost var init, b := stream[..i], stream[i];
      OrSetsBit(b, count, bit);
      if bit {
        stream := stream[i := Or(stream[i], OneAt(count - 1))];
      }
      count := count - 1;
      assert stream == init + [stream[i]];
      FilledSnoc(init, stream[i], count);
    }

    method WriteByte(byt: Octet)
      requires Writing()
      modifies this
      ensures Writing() && Written() == old(Written()) + byt
    {
      MakeRoom();
      var i := |stream| - 1;
      FilledByteAcross(stream[..i], stream[i], count, byt);
      ghost var goal := stream[..i] + [Or(stream[i], Shr(byt, 8 - count))] + [Shl(byt, count)];
      stream := stream[i := Or(stream[i], Shr(byt, 8 - count))];
      stream := stream + [Zeros(8)];
      i := i + 1;
      stream := stream[i := Shl(byt, count)];
      assert stream == goal;
    }

    method WriteBytes(bs: seq<Octet>)
      requires Writing()
      modifies this
      ensures Writing() && Written() == old(Written()) + Flatten(bs)
    {
      var k := 0;
      while k < |bs|
        invariant 0 <= k <= |bs|
        invariant Writing() && Written() == old(Written()) + Flatten(bs[..k])
      {
        WriteByte(bs[k]);
        assert bs[..k + 1] == bs[..k] + [bs[k]];
        FlattenSnoc(bs[..k], bs[k]);
        k := k + 1;
      }
      assert bs[..k] == bs;
    }

    /** Appends the low `nbits` bits of `u`. */
    method WriteBits(u: Word, nbits: nat)
      requires Writing() && nbits <= 64
      modifies this
      ensures Writing() && Written() == old(Written()) + u[64 - nbits..]
    {
      ghost var goal := Written() + u[64 - nbits..];
      var v: Word := Shl(u, 64 - nbits);
      var n := nbits;
      assert v[..n] == u[64 - nbits..];
      while n >= 8
        invariant 0 <= n <= 64 && Writing()
        invariant Written() + v[..n] == goal
      {
        ShiftOut(Written(), v, n, 8);
        WriteByte(v[..8]);
        v := Shl(v, 8);
        n := n - 8;
      }
      while n > 0
        invariant 0 <= n <= 64 && Writing()
        invariant Written() + v[..n] == goal
      {
        ShiftOut(Written(), v, n, 1);
        WriteBit(v[0]);
        v := Shl(v, 1);
        n := n - 1;
      }
      assert v[..0] == [];
    }

    /** A copy that can be finished without touching the original. */
    method Clone() returns (c: BitStream)
      requires Writing()
      ensures fresh(c) && c.Writing() && c.Written() == Written()
    {
      c := new BitStream.Writer();
      c.stream, c.count := stream, count;
    }

    /** The buffer: what was written, then fewer than nine zero bits. */
    method Bytes() returns (b: seq<Octet>)
      requires Writing()
      ensures Flatten(b) == Written() + Zeros(count) && count <= 8
    {
      b := stream;
      if |b| > 0 {
        var n := |b| - 1;
        assert b == b[..n] + [b[n]];
        FlattenSnoc(b[..n], b[n]);
        assert b[n] == b[n][..8 - count] + Zeros(count);
      }
    }

    // ---- reading ----

    ghost predicate Reading()
      reads this
    {
      Drainable(stream, count)
    }

    /** What is still to be read. */
    ghost function Rest(): (s: seq<bool>)
      requires Reading()
      reads this
    {
      Remaining(stream, count)
    }

    /** Starts at a full first byte, whatever the argument of the call was. */
    method SetCount()
      modifies this
      ensures Reading() && count == 8 && stream == old(stream)
    {
      count := 8;
    }

    method ReadBit() returns (bit: bool, ok: bool)
      requires Reading()
      modifies this
      ensures Reading() && ok == (|old(Rest())| >= 1)
      ensures ok ==> bit == old(Rest())[0] && Rest() == old(Rest())[1..]
    {
      if |stream| == 0 {
        return false, false;
      }
      if count == 0 {
        RemainingAdvance(stream);
        stream := stream[1..];
        if |stream| == 0 {
          return false, false;
        }
        count := 8;
      }
      ghost var tail := stream[1..];
      assert stream == [stream[0]] + tail;
      RemainingBit(stream[0], tail, count);
      count := count - 1;
      bit := stream[0][0];
      stream := stream[0 := Shl(stream[0], 1)];
      assert stream == [stream[0]] + tail;
      ok := true;
    }

    method ReadByte() returns (byt: Octet, ok: bool)
      requires Reading()
      modifies this
      ensures Reading() && ok == (|old(Rest())| >= 8)
      ensures ok ==> byt == old(Rest())[..8] && Rest() == old(Rest())[8..]
    {
      if |stream| == 0 {
        return Zeros(8), false;
      }
      if count == 0 {
        RemainingAdvance(stream);
        stream := stream[1..];
        if |stream| == 0 {
          return Zeros(8), false;
        }
        count := 8;
      }
      if count == 8 {
        count := 0;
        return stream[0], true;
      }
      byt, ok := ReadAcross();
    }

    /** The byte that starts inside one stored byte and ends inside the next. */
    method ReadAcross() returns (byt: Octet, ok: bool)
      requires Reading() && |stream| > 0 && 0 < count < 8
      modifies this
      ensures Reading() && ok == (|old(Rest())| >= 8)
      ensures ok ==> byt == old(Rest())[..8] && Rest() == old(Rest())[8..]
    {
      byt := stream[0];
      ghost var first := stream[0];
      assert stream == [first] + stream[1..];
      stream := stream[1..];
      if |stream| == 0 {
        return Zeros(8), false;
      }
      ghost var tail := stream[1..];
      assert stream == [stream[0]] + tail;
      RemainingByteAcross(first, stream[0], tail, count);
      byt := Or(byt, Shr(stream[0], count));
      stream := stream[0 := Shl(stream[0], 8 - count)];
      assert stream == [stream[0]] + tail;
      ok := true;
    }

    method ReadBytes(n: nat) returns (bs: seq<Octet>, ok: bool)
      requires Reading()
      modifies this
      ensures Reading()
      ensures ok == (0 < |old(stream)| && n <= |old(stream)| && 8 * n <= |old(Rest())|)
      ensures ok ==> |bs| == n && Flatten(bs) == old(Rest())[..8 * n] && Rest() == old(Rest())[8 * n..]
    {
      ghost var all, got := Rest(), [];
      bs := [];
      if |stream| == 0 || |stream| < n {
        return [], false;
      }
      var i := 0;
      while i < n
        invariant 0 <= i <= n && |bs| == i && Reading()
        invariant |got| == 8 * i && got + Rest() == all && Flatten(bs) == got
      {
        ghost var before := Rest();
        var byt, good := ReadByte();
        if !good {
          return [], false;
        }
        ShiftIn(got, before, 8);
        FlattenSnoc(bs, byt);
        got := got + byt;
        bs := bs + [byt];
        i := i + 1;
      }
      ok := true;
      assert got == all[..8 * n];
    }

    /** Reads `nbits` bits as a number of 64 bits. */
    method ReadBits(nbits: nat) returns (u: Word, ok: bool)
      requires Reading()
      modifies this
      ensures Reading() && ok == (|old(Rest())| >= nbits)
      ensures ok ==> u == Fit64(old(Rest())[..nbits]) && Rest() == old(Rest())[nbits..]
    {
      ghost var all, got := Rest(), [];
      u := ZERO;
      var n := nbits;
      while n >= 8
        invariant 0 <= n && |got| + n == nbits && Reading()
        invariant got + Rest() == all
        invariant u == Fit64(got)
      {
        ghost var before := Rest();
        var byt, good := ReadByte();
        if !good {
          return ZERO, false;
        }
        ShiftIn(got, before, 8);
        ShiftInOctet(got, byt);
        got := got + byt;
        u := Or(Shl(u, 8), Zeros(56) + byt);
        n := n - 8;
      }
      while n > 0
        invariant 0 <= n && |got| + n == nbits && Reading()
        invariant got + Rest() == all
        invariant u == Fit64(got)
      {
        ghost var before := Rest();
        var bit, good := ReadBit();
        if !good {
          return ZERO, false;
        }
        ShiftIn(got, before, 1);
        ShiftInBit(got, bit);
        got := got + [bit];
        u := Shl(u, 1);
        if bit {
          u := u[63 := true];
        }
        n := n - 1;
      }
      ok := true;
      assert got == all[..nbits];
    }
  }

  /** One step of a read: k more bits of the stream are consumed. */
  lemma ShiftIn(got: seq<bool>, rest: seq<bool>, k: nat)
    requires 1 <= k <= |rest|
    ensures (got + rest[..k]) + rest[k..] == got + rest
    ensures rest[..1] == [rest[0]]
  {}

  lemma ShiftInOctet(s: seq<bool>, byt: Octet)
    ensures Or(Shl(Fit64(s), 8), Zeros(56) + byt) == Fit64(s + byt)
  {
    var l, r := Or(Shl(Fit64(s), 8), Zeros(56) + byt), Fit64(s + byt);
    forall i | 0 <= i < 64 ensures l[i] == r[i] {
      if i < 56 {
        assert l[i] == Fit64(s)[i + 8];
      } else {
        assert l[i] == byt[i - 56];
      }
    }
  }

  lemma ShiftInBit(s: seq<bool>, bit: bool)
    ensures Shl(Fit64(s), 1)[63 := bit] == Fit64(s + [bit])
  {
    var l, r := Shl(Fit64(s), 1)[63 := bit], Fit64(s + [bit]);
    forall i | 0 <= i < 63 ensures l[i] == r[i] {
      assert l[i] == Fit64(s)[i + 1];
    }
  }
}
