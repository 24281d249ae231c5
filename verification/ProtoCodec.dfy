/** The generated protobuf code itself: it fills a byte array by index, and walks over bytes by index. */
module ProtoCodec {
  import opened Basics
  import opened Bits
  import opened Float64
  import opened Points
  import opened ProtoWire
  import opened ProtoMessages

  // ---- writing into an array ----

  /** s with the bytes from `at` on replaced by bs. */
  function Splice(s: seq<Byte>, at: nat, bs: seq<Byte>): (r: seq<Byte>)
    requires at + |bs| <= |s|
    ensures |r| == |s|
  {
    s[..at] + bs + s[at + |bs|..]
  }

  lemma SpliceNone(s: seq<Byte>, at: nat)
    requires at <= |s|
    ensures Splice(s, at, []) == s
  {}

  lemma SpliceMore(s: seq<Byte>, at: nat, a: seq<Byte>, b: seq<Byte>)
    requires at + |a| + |b| <= |s|
    ensures Splice(Splice(s, at, a), at + |a|, b) == Splice(s, at, a + b)
  {}

  method PutByte(data: array<Byte>, at: nat, b: Byte)
    requires at < data.Length
    modifies data
    ensures data[..] == Splice(old(data[..]), at, [b])
  {
    data[at] := b;
  }

  method EncodeVarintProtobuf(data: array<Byte>, offset: nat, v: nat) returns (end: nat)
    requires offset + Sov(v) <= data.Length
    modifies data
    ensures end == offset + |Varint(v)| <= data.Length
    ensures data[..] == Splice(old(data[..]), offset, Varint(v))
  {
    hide Splice;
    ghost var was, out: seq<Byte> := data[..], [];
    var x := v;
    end := offset;
    SpliceNone(was, offset);
    while x >= 128
      invariant end == offset + |out| && end + Sov(x) <= data.Length
      invariant out + Varint(x) == Varint(v)
      invariant data[..] == Splice(was, offset, out)
      decreases x
    {
      PutByte(data, end, x % 128 + 128);
      SpliceMore(was, offset, out, [x % 128 + 128]);
      assert out + ([x % 128 + 128] + Varint(x / 128)) == out + [x % 128 + 128] + Varint(x / 128);
      out := out + [x % 128 + 128];
      x := x / 128;
      end := end + 1;
    }
    PutByte(data, end, x);
    SpliceMore(was, offset, out, [x]);
    end := end + 1;
  }

  method PutFour(data: array<Byte>, at: nat, a: Byte, b: Byte, c: Byte, d: Byte)
    requires at + 4 <= data.Length
    modifies data
    ensures data[..] == Splice(old(data[..]), at, [a, b, c, d])
  {
    data[at] := a;
    data[at + 1] := b;
    data[at + 2] := c;
    data[at + 3] := d;
  }

  method EncodeFixed64Protobuf(data: array<Byte>, offset: nat, v: Word) returns (end: nat)
    requires offset + 8 <= data.Length
    modifies data
    ensures end == offset + 8
    ensures data[..] == Splice(old(data[..]), offset, Fixed64(v))
  {
    hide ByteOf, Splice;
    ghost var was := data[..];
    ghost var low := [ByteOf(v[56..64]), ByteOf(v[48..56]), ByteOf(v[40..48]), ByteOf(v[32..40])];
    ghost var high := [ByteOf(v[24..32]), ByteOf(v[16..24]), ByteOf(v[8..16]), ByteOf(v[0..8])];
    PutFour(data, offset, ByteOf(v[56..64]), ByteOf(v[48..56]), ByteOf(v[40..48]), ByteOf(v[32..40]));
    PutFour(data, offset + 4, ByteOf(v[24..32]), ByteOf(v[16..24]), ByteOf(v[8..16]), ByteOf(v[0..8]));
    SpliceMore(was, offset, low, high);
    assert low + high == Fixed64(v);
    end := offset + 8;
  }

  method SovProtobuf(v: nat) returns (n: nat)
    ensures n == |Varint(v)|
  {
    n := 1;
    var x: nat := v / 128;
    while x != 0
      invariant n + (if x == 0 then 0 else Sov(x)) == Sov(v)
      decreases x
    {
      n := n + 1;
      x := x / 128;
    }
    SovIsLength(v);
  }

  method PutInt(data: array<Byte>, at: nat, num: nat, v: int) returns (i: nat)
    requires num < 16 && at + SizeInt(v) <= data.Length
    modifies data
    ensures i == at + |IntField(num, v)| <= data.Length
    ensures data[..] == Splice(old(data[..]), at, IntField(num, v))
  {
    hide Splice, Varint;
    i := at;
    SpliceNone(data[..], at);
    IntFieldSize(num, v);
    if v != 0 {
      SpliceMore(data[..], at, [8 * num], Varint(v % M64));
      PutByte(data, i, 8 * num);
      i := i + 1;
      i := EncodeVarintProtobuf(data, i, v % M64);
    }
  }

  method PutFloat(data: array<Byte>, at: nat, num: nat, w: Word) returns (i: nat)
    requires num < 16 && at + SizeFloat(w) <= data.Length
    modifies data
    ensures i == at + |FloatField(num, w)| <= data.Length
    ensures data[..] == Splice(old(data[..]), at, FloatField(num, w))
  {
    hide Splice, Fixed64;
    i := at;
    SpliceNone(data[..], at);
    if !IsZero(w) {
      SpliceMore(data[..], at, [8 * num + 1], Fixed64(w));
      PutByte(data, i, 8 * num + 1);
      i := i + 1;
      i := EncodeFixed64Protobuf(data, i, w);
    }
  }

  /** Writes a full message into the array from `at` on, and nothing else. */
  method MarshalFull(data: array<Byte>, at: nat, m: Full) returns (i: nat)
    requires at + SizeFull(m) <= data.Length
    modifies data
    ensures i == at + SizeFull(m) && |EncodeFull(m)| == SizeFull(m)
    ensures data[..] == Splice(old(data[..]), at, EncodeFull(m))
  {
    hide Splice, IntField, FloatField, IsZero;
    ghost var was := data[..];
    FullSize(m);
    FieldSizes(m);
    i := PutInt(data, at, 1, m.time);
    ghost var out := IntField(1, m.time);
    i := PutFloat(data, i, 2, m.min);
    SpliceMore(was, at, out, FloatField(2, m.min));
    out := out + FloatField(2, m.min);
    i := PutFloat(data, i, 3, m.max);
    SpliceMore(was, at, out, FloatField(3, m.max));
    out := out + FloatField(3, m.max);
    i := PutFloat(data, i, 4, m.sum);
    SpliceMore(was, at, out, FloatField(4, m.sum));
    out := out + FloatField(4, m.sum);
    i := PutFloat(data, i, 5, m.last);
    SpliceMore(was, at, out, FloatField(5, m.last));
    out := out + FloatField(5, m.last);
    i := PutInt(data, i, 7, m.count);
    SpliceMore(was, at, out, IntField(7, m.count));
  }

  lemma FieldSizes(m: Full)
    ensures |IntField(1, m.time)| == SizeInt(m.time) && |IntField(7, m.count)| == SizeInt(m.count)
    ensures |FloatField(2, m.min)| == SizeFloat(m.min) && |FloatField(3, m.max)| == SizeFloat(m.max)
    ensures |FloatField(4, m.sum)| == SizeFloat(m.sum) && |FloatField(5, m.last)| == SizeFloat(m.last)
  {
    hide IntField, Fixed64, IsZero;
    IntFieldSize(1, m.time);
    IntFieldSize(7, m.count);
  }

  method MarshalSmall(data: array<Byte>, at: nat, m: Small) returns (i: nat)
    requires at + SizeSmall(m) <= data.Length
    modifies data
    ensures i == at + SizeSmall(m) && |EncodeSmall(m)| == SizeSmall(m)
    ensures data[..] == Splice(old(data[..]), at, EncodeSmall(m))
  {
    hide Splice, IntField, IsZero;
    ghost var was := data[..];
    SmallSize(m);
    IntFieldSize(1, m.time);
    i := PutInt(data, at, 1, m.time);
    i := PutFloat(data, i, 2, m.val);
    SpliceMore(was, at, IntField(1, m.time), FloatField(2, m.val));
  }

  method PutBool(data: array<Byte>, at: nat, b: bool) returns (i: nat)
    requires at + (if b then 2 else 0) <= data.Length
    modifies data
    ensures i == at + |BoolField(b)|
    ensures data[..] == Splice(old(data[..]), at, BoolField(b))
  {
    hide Splice;
    i := at;
    SpliceNone(data[..], at);
    if b {
      SpliceMore(data[..], at, [0x08], [1]);
      assert [0x08] + [1] == BoolField(b);
      PutByte(data, i, 0x08);
      i := i + 1;
      PutByte(data, i, 1);
      i := i + 1;
    }
  }

  /** The tag and the length in front of a nested message. */
  method PutHead(data: array<Byte>, at: nat, num: nat, l: nat) returns (i: nat)
    requires num < 16 && at + 1 + Sov(l) <= data.Length
    modifies data
    ensures i == at + |[8 * num + 2] + Varint(l)| <= data.Length
    ensures data[..] == Splice(old(data[..]), at, [8 * num + 2] + Varint(l))
  {
    hide Splice, Varint;
    SovIsLength(l);
    SpliceMore(data[..], at, [8 * num + 2], Varint(l));
    PutByte(data, at, 8 * num + 2);
    i := EncodeVarintProtobuf(data, at + 1, l);
  }

  lemma BlockJoins(s: seq<Byte>, at: nat, num: nat, body: seq<Byte>)
    requires num < 16 && at + |BlockField(num, body)| <= |s|
    ensures var head := [8 * num + 2] + Varint(|body|);
            |head| + |body| == |BlockField(num, body)|
            && Splice(Splice(s, at, head), at + |head|, body) == Splice(s, at, BlockField(num, body))
  {
    hide Splice, Varint;
    var head := [8 * num + 2] + Varint(|body|);
    assert head + body == BlockField(num, body);
    SpliceMore(s, at, head, body);
  }

  method MarshalStat(data: array<Byte>, at: nat, m: Stat) returns (i: nat)
    requires at + SizeStat(m) <= data.Length
    modifies data
    ensures i == at + SizeStat(m) && |EncodeStat(m)| == SizeStat(m)
    ensures data[..] == Splice(old(data[..]), at, EncodeStat(m))
  {
    hide Splice, BlockField, BoolField, Varint, EncodeFull, EncodeSmall, SizeFull, SizeSmall, Sov;
    ghost var was := data[..];
    StatSize(m);
    BoolSize(m.statType);
    i := PutBool(data, at, m.statType);
    ghost var out := BoolField(m.statType);
    if m.stat.Some? {
      i := PutFullBlock(data, i, m.stat.value);
      SpliceMore(was, at, out, BlockField(3, EncodeFull(m.stat.value)));
      out := out + BlockField(3, EncodeFull(m.stat.value));
    }
    if m.small.Some? {
      i := PutSmallBlock(data, i, m.small.value);
      SpliceMore(was, at, out, BlockField(4, EncodeSmall(m.small.value)));
      out := out + BlockField(4, EncodeSmall(m.small.value));
    }
    assert out == EncodeStat(m);
  }

  lemma BoolSize(b: bool)
    ensures |BoolField(b)| == if b then 2 else 0
  {}

  method PutFullBlock(data: array<Byte>, at: nat, m: Full) returns (i: nat)
    requires at + SizeBlock(SizeFull(m)) <= data.Length
    modifies data
    ensures i == at + SizeBlock(SizeFull(m)) && |BlockField(3, EncodeFull(m))| == SizeBlock(SizeFull(m))
    ensures data[..] == Splice(old(data[..]), at, BlockField(3, EncodeFull(m)))
  {
    hide Splice, BlockField, Varint, EncodeFull, SizeFull;
    FullSize(m);
    BlockSize(3, EncodeFull(m));
    BlockJoins(data[..], at, 3, EncodeFull(m));
    SovIsLength(SizeFull(m));
    i := PutHead(data, at, 3, SizeFull(m));
    i := MarshalFull(data, i, m);
  }

  method PutSmallBlock(data: array<Byte>, at: nat, m: Small) returns (i: nat)
    requires at + SizeBlock(SizeSmall(m)) <= data.Length
    modifies data
    ensures i == at + SizeBlock(SizeSmall(m)) && |BlockField(4, EncodeSmall(m))| == SizeBlock(SizeSmall(m))
    ensures data[..] == Splice(old(data[..]), at, BlockField(4, EncodeSmall(m)))
  {
    hide Splice, BlockField, Varint, EncodeSmall, SizeSmall;
    SmallSize(m);
    BlockSize(4, EncodeSmall(m));
    BlockJoins(data[..], at, 4, EncodeSmall(m));
    SovIsLength(SizeSmall(m));
    i := PutHead(data, at, 4, SizeSmall(m));
    i := MarshalSmall(data, i, m);
  }

  method PutStatBlock(data: array<Byte>, at: nat, m: Stat) returns (i: nat)
    requires at + SizeBlock(SizeStat(m)) <= data.Length
    modifies data
    ensures i == at + SizeBlock(SizeStat(m)) && |BlockField(2, EncodeStat(m))| == SizeBlock(SizeStat(m))
    ensures data[..] == Splice(old(data[..]), at, BlockField(2, EncodeStat(m)))
  {
    hide Splice, BlockField, Varint, EncodeStat, SizeStat;
    StatSize(m);
    BlockSize(2, EncodeStat(m));
    BlockJoins(data[..], at, 2, EncodeStat(m));
    SovIsLength(SizeStat(m));
    i := PutHead(data, at, 2, SizeStat(m));
    i := MarshalStat(data, i, m);
  }

  /** Writes a whole series; the bytes outside the part announced by its size stay as they were. */
  method MarshalStats(data: array<Byte>, at: nat, m: Stats) returns (i: nat)
    requires at + SizeStats(m) <= data.Length
    modifies data
    ensures i == at + SizeStats(m) && |EncodeStats(m)| == SizeStats(m)
    ensures data[..] == Splice(old(data[..]), at, EncodeStats(m))
  {
    hide Splice, BlockField, BoolField, EncodeStat, SizeStat, SizeBlock;
    ghost var was := data[..];
    StatsSize(m);
    BoolSize(m.fullResolution);
    i := PutBool(data, at, m.fullResolution);
    ghost var out := BoolField(m.fullResolution);
    var k := 0;
    assert m.stats[0..] == m.stats;
    while k < |m.stats|
      invariant 0 <= k <= |m.stats| && i == at + |out| && i + SizeList(m.stats[k..]) == at + SizeStats(m)
      invariant out + EncodeList(m.stats[k..]) == EncodeStats(m)
      invariant data[..] == Splice(was, at, out)
    {
      ghost var block := BlockField(2, EncodeStat(m.stats[k]));
      assert m.stats[k..][0] == m.stats[k] && m.stats[k..][1..] == m.stats[k + 1..];
      i := PutStatBlock(data, i, m.stats[k]);
      SpliceMore(was, at, out, block);
      assert out + (block + EncodeList(m.stats[k + 1..])) == out + block + EncodeList(m.stats[k + 1..]);
      out := out + block;
      k := k + 1;
    }
    assert m.stats[k..] == [];
    assert out + [] == out;
  }

  /** Marshal: an array of exactly the announced size, filled to its end. */
  method Marshal(m: Stats) returns (bs: seq<Byte>)
    ensures bs == EncodeStats(m) && |bs| == SizeStats(m)
    ensures OkStats(m) ==> DecodeStats(NEW_STATS, bs) == Ok(Stats(m.fullResolution, NormAll(m.stats)))
  {
    hide EncodeStats, SizeStats, DecodeStats, NormAll;
    var size := SizeOf(m);
    var data := new Byte[size](_ => 0);
    var n := MarshalStats(data, 0, m);
    bs := data[..n];
    assert data[..n] == data[..];
    WholeSplice(data.Length, EncodeStats(m), data[..]);
    if OkStats(m) {
      StatsRoundTrip(m);
    }
  }

  lemma WholeSplice(n: nat, bs: seq<Byte>, out: seq<Byte>)
    requires |bs| == n
    ensures forall s: seq<Byte> {:trigger Splice(s, 0, bs)} :: |s| == n && out == Splice(s, 0, bs) ==> out == bs
  {}

  method SizeOf(m: Stats) returns (n: nat)
    ensures n == SizeStats(m)
  {
    n := 0;
    if m.fullResolution {
      n := n + 2;
    }
    var k := 0;
    assert m.stats[0..] == m.stats;
    while k < |m.stats|
      invariant 0 <= k <= |m.stats| && n + SizeList(m.stats[k..]) == SizeStats(m)
    {
      assert m.stats[k..][1..] == m.stats[k + 1..];
      var l := SizeStat(m.stats[k]);
      var s := SovProtobuf(l);
      SovIsLength(l);
      n := n + 1 + l + s;
      k := k + 1;
    }
  }

  // ---- walking over bytes ----

  datatype Walk = Walk(value: nat, index: nat) | Stopped(error: Error)

  /** The loop in front of every tag, number and length. Each byte adds seven bits above those already
      there, and what falls off at bit 64 is lost. */
  method WalkVarint(data: seq<Byte>, from: nat) returns (w: Walk)
    requires from <= |data|
    ensures match ReadVarint(data[from..])
            case VarintFail(e) => w == Stopped(e)
            case VarintRead(v, rest) => w.Walk? && w.value == v && from < w.index <= |data| && data[w.index..] == rest
  {
    hide ReadGroups, Scaled;
    var wire: nat, shift: nat, i := 0, 0, from;
    ghost var acc: nat, p: nat := 0, 1;
    ghost var all := ReadGroups(data[from..], 0);
    ScaledNone(all);
    while true
      invariant from <= i <= |data| && wire == acc % M64 && p == Pow2(shift) && p > 0
      invariant all == Scaled(acc, p, ReadGroups(data[i..], shift))
      decreases |data| - i
    {
      ScaledStop(acc, p, data[i..], shift);
      if shift >= 64 {
        return Stopped(Overflow);
      }
      if i >= |data| {
        return Stopped(UnexpectedEof);
      }
      var b := data[i];
      assert data[i..][0] == b && data[i..][1..] == data[i + 1..];
      ScaledStep(acc, p, data[i..], shift);
      i := i + 1;
      WrapAdd(acc, (b % 128) * p);
      wire := (wire + (b % 128) * Pow2(shift)) % M64;
      acc := acc + (b % 128) * p;
      if b < 128 {
        return Walk(wire, i);
      }
      SevenMore(shift);
      shift, p := shift + 7, 128 * p;
    }
  }

  /** What is left to read, put above what is already there. */
  ghost function Scaled(acc: nat, p: nat, r: VarintRead): (r': VarintRead)
  {
    match r
    case VarintFail(e) => VarintFail(e)
    case VarintRead(v, rest) => VarintRead(acc + p * v, rest)
  }

  lemma ScaledNone(r: VarintRead)
    ensures Scaled(0, 1, r) == r
  {}

  lemma ScaledStop(acc: nat, p: nat, bs: seq<Byte>, shift: nat)
    ensures shift >= 64 ==> Scaled(acc, p, ReadGroups(bs, shift)) == VarintFail(Overflow)
    ensures shift < 64 && |bs| == 0 ==> Scaled(acc, p, ReadGroups(bs, shift)) == VarintFail(UnexpectedEof)
  {}

  /** The first group and then the others, as values. */
  lemma GroupsStep(bs: seq<Byte>, shift: nat)
    requires |bs| > 0 && shift < 64
    ensures bs[0] < 128 ==> ReadGroups(bs, shift) == VarintRead(bs[0], bs[1..])
    ensures bs[0] >= 128 ==>
              match ReadGroups(bs[1..], shift + 7)
              case VarintFail(e) => ReadGroups(bs, shift) == VarintFail(e)
              case VarintRead(v, rest) => ReadGroups(bs, shift) == VarintRead(bs[0] - 128 + 128 * v, rest)
  {
  }

  lemma ScaledStep(acc: nat, p: nat, bs: seq<Byte>, shift: nat)
    requires |bs| > 0 && shift < 64
    ensures bs[0] < 128 ==> Scaled(acc, p, ReadGroups(bs, shift)) == VarintRead(acc + (bs[0] % 128) * p, bs[1..])
    ensures bs[0] >= 128 ==> Scaled(acc, p, ReadGroups(bs, shift)) ==
                             Scaled(acc + (bs[0] % 128) * p, 128 * p, ReadGroups(bs[1..], shift + 7))
  {
    hide ReadGroups;
    GroupsStep(bs, shift);
    if bs[0] >= 128 {
      var r := ReadGroups(bs[1..], shift + 7);
      assert bs[0] % 128 == bs[0] - 128;
      if r.VarintRead? {
        Distribute(p, bs[0] - 128, r.value);
      }
    }
  }

  lemma Distribute(p: nat, low: nat, v: nat)
    ensures p * (low + 128 * v) == low * p + (128 * p) * v
  {}

  lemma WrapAdd(acc: nat, more: nat)
    ensures (acc % M64 + more) % M64 == (acc + more) % M64
  {
    var q, r := acc / M64, acc % M64;
    assert acc == M64 * q + r;
    var x := r + more;
    var q', r' := x / M64, x % M64;
    assert acc + more == M64 * (q + q') + r';
    DivModUnique(acc + more, M64, q + q', r');
  }

  lemma SevenMore(shift: nat)
    ensures Pow2(shift + 7) == 128 * Pow2(shift)
  {
    Pow2Small();
    Pow2Adds(7, shift);
  }

  /** One field of whatever wire type, or the error that stops the walk. */
  method SkipProtobuf(data: seq<Byte>) returns (r: SkipRead)
    ensures r == Skip(data)
    decreases |data|
  {
    hide ReadVarint, ToInt64;
    assert data[0..] == data;
    var w := WalkVarint(data, 0);
    if w.Stopped? {
      return SkipFail(w.error);
    }
    var rest := data[w.index..];
    match w.value % 8 {
      case 0 =>
        var v := WalkVarint(data, w.index);
        return if v.Stopped? then SkipFail(v.error) else SkipRead(data[v.index..]);
      case 1 =>
        return Drop(rest, 8);
      case 2 =>
        var l := WalkVarint(data, w.index);
        if l.Stopped? {
          return SkipFail(l.error);
        }
        if ToInt64(l.value) < 0 {
          return SkipFail(InvalidLength);
        }
        r := Drop(data[l.index..], l.value);
      case 3 =>
        var at := w.index;
        while true
          invariant 0 < at <= |data| && Skip(data) == SkipGroup(data[at..])
          decreases |data| - at
        {
          var inner := WalkVarint(data, at);
          if inner.Stopped? {
            return SkipFail(inner.error);
          }
          if inner.value % 8 == 4 {
            return SkipRead(data[inner.index..]);
          }
          var next := SkipProtobuf(data[at..]);
          if next.SkipFail? {
            return next;
          }
          SkipTail(data[at..]);
          at := |data| - |next.rest|;
        }
      case 4 =>
        return SkipRead(rest);
      case 5 =>
        return Drop(rest, 4);
      case _ =>
        return SkipFail(IllegalWireType);
    }
  }

  /** The bytes that are left are the tail of those that were there. */
  ghost predicate IsTail(end: seq<Byte>, bs: seq<Byte>)
  {
    |end| <= |bs| && end == bs[|bs| - |end|..]
  }

  lemma TailOfTail(bs: seq<Byte>, mid: seq<Byte>, end: seq<Byte>)
    requires IsTail(mid, bs) && IsTail(end, mid)
    ensures IsTail(end, bs)
  {
  }

  lemma VarintTail(bs: seq<Byte>)
    ensures ReadVarint(bs).VarintRead? ==> IsTail(ReadVarint(bs).rest, bs)
  {
    hide ReadGroups;
  }

  lemma DropTail(bs: seq<Byte>, n: nat)
    ensures Drop(bs, n).SkipRead? ==> IsTail(Drop(bs, n).rest, bs)
  {
  }

  lemma BlockTail(bs: seq<Byte>)
    ensures ReadBlock(bs).BlockRead? ==> IsTail(ReadBlock(bs).rest, bs)
  {
    hide ReadVarint, ToInt64;
    VarintTail(bs);
    if ReadBlock(bs).BlockRead? {
      TailOfTail(bs, ReadVarint(bs).rest, ReadBlock(bs).rest);
    }
  }

  /** What a field leaves, by wire type. */
  lemma SkipByType(bs: seq<Byte>)
    ensures ReadVarint(bs).VarintFail? ==> Skip(bs).SkipFail?
    ensures ReadVarint(bs).VarintRead? ==>
            var (wt, rest) := (ReadVarint(bs).value % 8, ReadVarint(bs).rest);
            var r := Skip(bs);
            && (wt == 0 && r.SkipRead? ==> ReadVarint(rest).VarintRead? && r.rest == ReadVarint(rest).rest)
            && (wt == 1 ==> r == Drop(rest, 8))
            && (wt == 2 && r.SkipRead? ==> ReadBlock(rest).BlockRead? && r.rest == ReadBlock(rest).rest)
            && (wt == 3 ==> r == SkipGroup(rest))
            && (wt == 4 ==> r == SkipRead(rest))
            && (wt == 5 ==> r == Drop(rest, 4))
            && (wt > 5 ==> r.SkipFail?)
  {
    hide ReadVarint, ReadBlock, SkipGroup, Drop;
  }

  /** What is left after a field is always the tail of the bytes. */
  lemma {:induction false} SkipTail(bs: seq<Byte>)
    ensures Skip(bs).SkipRead? ==> IsTail(Skip(bs).rest, bs)
    decreases |bs|, 0
  {
    hide ReadVarint, Skip, SkipGroup, ReadBlock, Drop, IsTail;
    SkipByType(bs);
    VarintTail(bs);
    var t, r := ReadVarint(bs), Skip(bs);
    if t.VarintRead? && r.SkipRead? && t.value % 8 != 4 {
      var wt := t.value % 8;
      if wt == 0 {
        VarintTail(t.rest);
      } else if wt == 2 {
        BlockTail(t.rest);
      } else if wt == 3 {
        GroupTail(t.rest);
      } else {
        DropTail(t.rest, if wt == 1 then 8 else 4);
      }
      TailOfTail(bs, t.rest, r.rest);
    }
  }

  lemma {:induction false} GroupTail(bs: seq<Byte>)
    ensures SkipGroup(bs).SkipRead? ==> IsTail(SkipGroup(bs).rest, bs)
    decreases |bs|, 1
  {
    hide ReadVarint, Skip, IsTail;
    VarintTail(bs);
    var t, r := ReadVarint(bs), SkipGroup(bs);
    if t.VarintRead? && r.SkipRead? && t.value % 8 != 4 {
      SkipTail(bs);
      GroupTail(Skip(bs).rest);
      TailOfTail(bs, Skip(bs).rest, r.rest);
    }
  }

  // ---- unmarshalling ----

  /** The fixed 64-bit number at an index. */
  method WalkFixed(data: seq<Byte>, at: nat) returns (ok: bool, w: Word, index: nat)
    requires at <= |data|
    ensures ok == (|data[at..]| >= 8)
    ensures ok ==> w == FromFixed64(data[at..][..8]) && index == at + 8 && data[index..] == data[at..][8..]
  {
    if at + 8 > |data| {
      return false, ZERO, at;
    }
    index := at + 8;
    w := FromFixed64(data[at..index]);
    assert data[at..][..8] == data[at..index];
    ok := true;
  }

  /** A tag with its checks. */
  method WalkTag(data: seq<Byte>, at: nat) returns (num: int, wireType: nat, index: nat, err: Option<Error>)
    requires at <= |data|
    ensures match ReadTag(data[at..])
            case TagFail(e) => err == Some(e)
            case TagRead(n, wt, rest) =>
              err == None && num == n && wireType == wt && at < index <= |data| && data[index..] == rest
  {
    hide ReadVarint, ToInt32;
    var w := WalkVarint(data, at);
    if w.Stopped? {
      return 0, 0, at, Some(w.error);
    }
    num, wireType, index := ToInt32(w.value / 8), w.value % 8, w.index;
    err := if wireType == 4 || num <= 0 then Some(IllegalTag) else None;
  }

  /** The start and end of a nested message. */
  method WalkBlock(data: seq<Byte>, at: nat) returns (from: nat, to: nat, err: Option<Error>)
    requires at <= |data|
    ensures match ReadBlock(data[at..])
            case BlockFail(e) => err == Some(e)
            case BlockRead(block, rest) =>
              err == None && at < from <= to <= |data| && data[from..to] == block && data[to..] == rest
  {
    hide ReadVarint, ToInt64;
    var w := WalkVarint(data, at);
    if w.Stopped? {
      return at, at, Some(w.error);
    }
    if ToInt64(w.value) < 0 {
      return at, at, Some(InvalidLength);
    }
    from, to := w.index, w.index + w.value;
    if to > |data| {
      return at, at, Some(UnexpectedEof);
    }
    assert data[from..][..w.value] == data[from..to] && data[from..][w.value..] == data[to..];
    err := None;
  }

  /** Skips the field that starts at an index. */
  method WalkOther(data: seq<Byte>, at: nat) returns (index: nat, err: Option<Error>)
    requires at <= |data|
    ensures match Skip(data[at..])
            case SkipFail(e) => err == Some(e)
            case SkipRead(rest) => err == None && at < index <= |data| && data[index..] == rest
  {
    hide Skip;
    var r := SkipProtobuf(data[at..]);
    if r.SkipFail? {
      return at, Some(r.error);
    }
    SkipTail(data[at..]);
    index, err := |data| - |r.rest|, None;
  }

  method UnmarshalFull(into: Full, data: seq<Byte>) returns (r: Result<Full>)
    ensures r == DecodeFull(into, data)
  {
    hide ReadTag, ReadVarint, Skip, FromFixed64, SetInt, SetFloat;
    var m, i := into, 0;
    assert data[0..] == data;
    while i < |data|
      invariant 0 <= i <= |data| && DecodeFull(into, data) == DecodeFull(m, data[i..])
    {
      var num, wt, at, err := WalkTag(data, i);
      if err.Some? {
        return Err(err.value);
      }
      if num == 1 || num == 7 {
        if wt != 0 {
          return Err(WrongType);
        }
        var w := WalkVarint(data, at);
        if w.Stopped? {
          return Err(w.error);
        }
        m, i := SetInt(m, num, w.value), w.index;
      } else if 2 <= num <= 5 {
        if wt != 1 {
          return Err(WrongType);
        }
        var ok, w, index := WalkFixed(data, at);
        if !ok {
          return Err(UnexpectedEof);
        }
        m, i := SetFloat(m, num, w), index;
      } else {
        i, err := WalkOther(data, i);
        if err.Some? {
          return Err(err.value);
        }
      }
    }
    assert data[i..] == [];
    r := Ok(m);
  }

  method UnmarshalSmall(into: Small, data: seq<Byte>) returns (r: Result<Small>)
    ensures r == DecodeSmall(into, data)
  {
    hide ReadTag, ReadVarint, Skip, FromFixed64, ToInt64;
    var m, i := into, 0;
    assert data[0..] == data;
    while i < |data|
      invariant 0 <= i <= |data| && DecodeSmall(into, data) == DecodeSmall(m, data[i..])
    {
      var num, wt, at, err := WalkTag(data, i);
      if err.Some? {
        return Err(err.value);
      }
      if num == 1 {
        if wt != 0 {
          return Err(WrongType);
        }
        var w := WalkVarint(data, at);
        if w.Stopped? {
          return Err(w.error);
        }
        m, i := m.(time := ToInt64(w.value)), w.index;
      } else if num == 2 {
        if wt != 1 {
          return Err(WrongType);
        }
        var ok, w, index := WalkFixed(data, at);
        if !ok {
          return Err(UnexpectedEof);
        }
        m, i := m.(val := w), index;
      } else {
        i, err := WalkOther(data, i);
        if err.Some? {
          return Err(err.value);
        }
      }
    }
    assert data[i..] == [];
    r := Ok(m);
  }

  method UnmarshalStat(into: Stat, data: seq<Byte>) returns (r: Result<Stat>)
    ensures r == DecodeStat(into, data)
  {
    hide ReadTag, ReadVarint, ReadBlock, Skip, DecodeFull, DecodeSmall;
    var m, i := into, 0;
    assert data[0..] == data;
    while i < |data|
      invariant 0 <= i <= |data| && DecodeStat(into, data) == DecodeStat(m, data[i..])
    {
      var num, wt, at, err := WalkTag(data, i);
      if err.Some? {
        return Err(err.value);
      }
      if num == 1 {
        if wt != 0 {
          return Err(WrongType);
        }
        var w := WalkVarint(data, at);
        if w.Stopped? {
          return Err(w.error);
        }
        m, i := m.(statType := w.value != 0), w.index;
      } else if num == 3 || num == 4 {
        if wt != 2 {
          return Err(WrongType);
        }
        var from, to;
        from, to, err := WalkBlock(data, at);
        if err.Some? {
          return Err(err.value);
        }
        if num == 3 {
          var f := UnmarshalFull(if m.stat.None? then NEW_FULL else m.stat.value, data[from..to]);
          if f.Err? {
            return Err(f.error);
          }
          m := m.(stat := Some(f.value));
        } else {
          var s := UnmarshalSmall(if m.small.None? then NEW_SMALL else m.small.value, data[from..to]);
          if s.Err? {
            return Err(s.error);
          }
          m := m.(small := Some(s.value));
        }
        i := to;
      } else {
        i, err := WalkOther(data, i);
        if err.Some? {
          return Err(err.value);
        }
      }
    }
    assert data[i..] == [];
    r := Ok(m);
  }

  method UnmarshalStats(into: Stats, data: seq<Byte>) returns (r: Result<Stats>)
    ensures r == DecodeStats(into, data)
  {
    hide ReadTag, ReadVarint, ReadBlock, Skip, DecodeStat;
    var m, i := into, 0;
    assert data[0..] == data;
    while i < |data|
      invariant 0 <= i <= |data| && DecodeStats(into, data) == DecodeStats(m, data[i..])
    {
      var num, wt, at, err := WalkTag(data, i);
      if err.Some? {
        return Err(err.value);
      }
      if num == 1 {
        if wt != 0 {
          return Err(WrongType);
        }
        var w := WalkVarint(data, at);
        if w.Stopped? {
          return Err(w.error);
        }
        m, i := m.(fullResolution := w.value != 0), w.index;
      } else if num == 2 {
        if wt != 2 {
          return Err(WrongType);
        }
        var from, to;
        from, to, err := WalkBlock(data, at);
        if err.Some? {
          return Err(err.value);
        }
        var s := UnmarshalStat(NEW_STAT, data[from..to]);
        if s.Err? {
          return Err(s.error);
        }
        m, i := m.(stats := m.stats + [s.value]), to;
      } else {
        i, err := WalkOther(data, i);
        if err.Some? {
          return Err(err.value);
        }
      }
    }
    assert data[i..] == [];
    r := Ok(m);
  }
}
