/** The protobuf wire code: varints, fixed 64-bit numbers, tags, and skipping what is not known. */
module ProtoWire {
  import opened Basics
  import opened Bits
  import opened Points

  // ---- varints ----

  function Varint(v: nat): (bs: seq<Byte>)
    ensures |bs| >= 1
  {
    if v < 128 then [v] else [v % 128 + 128] + Varint(v / 128)
  }

  datatype Error = Overflow | UnexpectedEof | InvalidLength | WrongType | IllegalTag | IllegalWireType

  datatype VarintRead = VarintRead(value: nat, rest: seq<Byte>) | VarintFail(error: Error)

  /** The bytes from the first one on, seven bits each, least significant first. */
  function ReadGroups(bs: seq<Byte>, shift: nat): (r: VarintRead)
    ensures r.VarintRead? ==> |r.rest| < |bs| && r.rest == bs[|bs| - |r.rest|..]
    decreases |bs|
  {
    if shift >= 64 then VarintFail(Overflow)
    else if |bs| == 0 then VarintFail(UnexpectedEof)
    else if bs[0] < 128 then VarintRead(bs[0], bs[1..])
    else
      match ReadGroups(bs[1..], shift + 7)
      case VarintFail(e) => VarintFail(e)
      case VarintRead(v, rest) => VarintRead(bs[0] - 128 + 128 * v, rest)
  }

  /** A varint as an unsigned 64-bit number. */
  function ReadVarint(bs: seq<Byte>): (r: VarintRead)
    ensures r.VarintRead? ==> |r.rest| < |bs| && r.value < M64
  {
    match ReadGroups(bs, 0)
    case VarintFail(e) => VarintFail(e)
    case VarintRead(v, rest) => VarintRead(v % M64, rest)
  }

  lemma {:induction false} GroupsBack(v: nat, shift: nat, rest: seq<Byte>)
    requires shift <= 63 && v < Pow2(64 - shift)
    ensures ReadGroups(Varint(v) + rest, shift) == VarintRead(v, rest)
    decreases v
  {
    if v < 128 {
      assert ([v] + rest)[1..] == rest;
    } else {
      var tail := Varint(v / 128) + rest;
      assert Varint(v) + rest == [v % 128 + 128] + tail;
      assert ([v % 128 + 128] + tail)[1..] == tail;
      SevenLess(v, 64 - shift);
      GroupsBack(v / 128, shift + 7, rest);
    }
  }

  lemma SevenLess(v: nat, k: nat)
    requires 128 <= v < Pow2(k)
    ensures k >= 8 && v / 128 < Pow2(k - 7)
  {
    Pow2Small();
    if k < 8 {
      Pow2Monotone(k, 7);
    } else {
      Pow2Adds(7, k - 7);
    }
  }

  /** Every 64-bit number is read back from its varint. */
  lemma VarintBack(v: nat, rest: seq<Byte>)
    requires v < M64
    ensures ReadVarint(Varint(v) + rest) == VarintRead(v, rest)
  {
    hide Varint, ReadGroups;
    assert Pow2(64) == M64 by { Pow2Large(); }
    GroupsBack(v, 0, rest);
  }

  // ---- the length of a varint ----

  function Sov(x: nat): (n: nat)
    ensures n >= 1
  {
    if x < 128 then 1 else 1 + Sov(x / 128)
  }

  lemma {:induction false} SovIsLength(x: nat)
    ensures Sov(x) == |Varint(x)|
    decreases x
  {
    if x >= 128 {
      SovIsLength(x / 128);
    }
  }

  /** n bytes hold exactly the numbers below 2^(7n). */
  lemma {:induction false} SovBound(x: nat, n: nat)
    requires n >= 1
    ensures Sov(x) <= n <==> x < Pow2(7 * n)
    decreases n
  {
    Pow2Small();
    if n == 1 {
      assert 7 * n == 7;
    } else {
      Pow2Adds(7, 7 * (n - 1));
      assert 7 + 7 * (n - 1) == 7 * n;
      if x >= 128 {
        SovBound(x / 128, n - 1);
        assert x / 128 < Pow2(7 * (n - 1)) <==> x < 128 * Pow2(7 * (n - 1));
      } else {
        Pow2Monotone(7, 7 * n);
      }
    }
  }

  /** A 64-bit number takes at most ten bytes, and a negative int64 takes all ten. */
  lemma SovTen(x: nat)
    requires x < M64
    ensures Sov(x) <= 10
    ensures x >= 0x8000_0000_0000_0000 ==> Sov(x) == 10
  {
    var p63, p64, p70 := Pow2(63), Pow2(64), Pow2(70);
    assert p63 == 0x8000_0000_0000_0000 && p64 == M64 by { Pow2Large(); }
    SovBound(x, 10);
    SovBound(x, 9);
    Pow2Monotone(64, 70);
  }

  // ---- fixed 64-bit numbers ----

  function ByteOf(s: seq<bool>): (b: Byte)
    requires |s| == 8
  {
    FromIntToNat(s);
    Pow2Small();
    ToNat(s)
  }

  function EightBits(b: Byte): (s: seq<bool>)
    ensures |s| == 8
  {
    FromInt(b, 8)
  }

  /** Little endian: the low byte goes first. */
  function Fixed64(w: Word): (bs: seq<Byte>)
    ensures |bs| == 8
  {
    [ByteOf(w[56..64]), ByteOf(w[48..56]), ByteOf(w[40..48]), ByteOf(w[32..40]),
     ByteOf(w[24..32]), ByteOf(w[16..24]), ByteOf(w[8..16]), ByteOf(w[0..8])]
  }

  function FourBytes(a: Byte, b: Byte, c: Byte, d: Byte): (s: seq<bool>)
    ensures |s| == 32
  {
    EightBits(a) + EightBits(b) + (EightBits(c) + EightBits(d))
  }

  function FromFixed64(bs: seq<Byte>): (w: Word)
    requires |bs| == 8
  {
    FourBytes(bs[7], bs[6], bs[5], bs[4]) + FourBytes(bs[3], bs[2], bs[1], bs[0])
  }

  lemma ByteBack(s: seq<bool>)
    requires |s| == 8
    ensures EightBits(ByteOf(s)) == s
  {
    hide FromInt, ToNat;
    FromIntToNat(s);
  }

  lemma Fixed64Back(w: Word)
    ensures FromFixed64(Fixed64(w)) == w
  {
    hide EightBits, ByteOf;
    ByteBack(w[0..8]);
    ByteBack(w[8..16]);
    ByteBack(w[16..24]);
    ByteBack(w[24..32]);
    ByteBack(w[32..40]);
    ByteBack(w[40..48]);
    ByteBack(w[48..56]);
    ByteBack(w[56..64]);
    Halves(w);
  }

  lemma Halves(w: Word)
    ensures (w[0..8] + w[8..16] + (w[16..24] + w[24..32])) + (w[32..40] + w[40..48] + (w[48..56] + w[56..64])) == w
  {}

  // ---- tags ----

  datatype TagRead = TagRead(num: int, wireType: nat, rest: seq<Byte>) | TagFail(error: Error)

  /** The field number and wire type in front of a field, with the checks all messages make. */
  function ReadTag(bs: seq<Byte>): (r: TagRead)
    ensures r.TagRead? ==> |r.rest| < |bs|
  {
    match ReadVarint(bs)
    case VarintFail(e) => TagFail(e)
    case VarintRead(wire, rest) =>
      var num, wt := ToInt32(wire / 8), wire % 8;
      if wt == 4 then TagFail(IllegalTag)
      else if num <= 0 then TagFail(IllegalTag)
      else TagRead(num, wt, rest)
  }

  /** A tag that fits one byte. */
  lemma TagBack(tag: Byte, rest: seq<Byte>)
    requires 8 <= tag < 128 && tag % 8 != 4
    ensures ReadTag([tag] + rest) == TagRead(tag / 8, tag % 8, rest)
  {
    assert Varint(tag) == [tag];
    VarintBack(tag, rest);
  }

  // ---- skipping ----

  datatype SkipRead = SkipRead(rest: seq<Byte>) | SkipFail(error: Error)

  function Drop(bs: seq<Byte>, n: nat): (r: SkipRead)
    ensures r.SkipRead? ==> |r.rest| <= |bs|
  {
    if |bs| < n then SkipFail(UnexpectedEof) else SkipRead(bs[n..])
  }

  /** A length-prefixed block: the block and what follows it. */
  datatype BlockRead = BlockRead(block: seq<Byte>, rest: seq<Byte>) | BlockFail(error: Error)

  function ReadBlock(bs: seq<Byte>): (r: BlockRead)
    ensures r.BlockRead? ==> |r.rest| < |bs| && |r.block| < |bs|
  {
    match ReadVarint(bs)
    case VarintFail(e) => BlockFail(e)
    case VarintRead(v, rest) =>
      if ToInt64(v) < 0 then BlockFail(InvalidLength)
      else if |rest| < v then BlockFail(UnexpectedEof)
      else BlockRead(rest[..v], rest[v..])
  }

  /** One field of any known wire type. */
  function Skip(bs: seq<Byte>): (r: SkipRead)
    ensures r.SkipRead? ==> |r.rest| < |bs|
    decreases |bs|, 0
  {
    match ReadVarint(bs)
    case VarintFail(e) => SkipFail(e)
    case VarintRead(wire, rest) =>
      match wire % 8
      case 0 => (match ReadVarint(rest) case VarintFail(e) => SkipFail(e) case VarintRead(_, rest') => SkipRead(rest'))
      case 1 => Drop(rest, 8)
      case 2 => (match ReadBlock(rest) case BlockFail(e) => SkipFail(e) case BlockRead(_, rest') => SkipRead(rest'))
      case 3 => SkipGroup(rest)
      case 4 => SkipRead(rest)
      case 5 => Drop(rest, 4)
      case _ => SkipFail(IllegalWireType)
  }

  /** The fields of a group up to its end tag. */
  function SkipGroup(bs: seq<Byte>): (r: SkipRead)
    ensures r.SkipRead? ==> |r.rest| < |bs|
    decreases |bs|, 1
  {
    match ReadVarint(bs)
    case VarintFail(e) => SkipFail(e)
    case VarintRead(wire, rest) =>
      if wire % 8 == 4 then SkipRead(rest)
      else
        match Skip(bs)
        case SkipFail(e) => SkipFail(e)
        case SkipRead(rest') => SkipGroup(rest')
  }

  /** Fields that a message does not know. */
  datatype Unknown =
    | UVarint(num: nat, value: nat)
    | UFixed64(num: nat, w: Word)
    | UBytes(num: nat, body: seq<Byte>)
    | UGroup(num: nat, fields: seq<Unknown>)
    | UFixed32(num: nat, body: seq<Byte>)

  function Tag(num: nat, wireType: nat): (bs: seq<Byte>)
  {
    Varint(8 * num + wireType)
  }

  ghost predicate WellFormed(u: Unknown)
  {
    && 1 <= u.num <= 0x1fff_ffff
    && match u
       case UVarint(_, v) => v < M64
       case UFixed64(_, _) => true
       case UBytes(_, body) => |body| < 0x8000_0000_0000_0000
       case UGroup(_, fields) => forall f :: f in fields ==> WellFormed(f)
       case UFixed32(_, body) => |body| == 4
  }

  function EncodeUnknown(u: Unknown): (bs: seq<Byte>)
    decreases u, 0
  {
    match u
    case UVarint(num, v) => Tag(num, 0) + Varint(v)
    case UFixed64(num, w) => Tag(num, 1) + Fixed64(w)
    case UBytes(num, body) => Tag(num, 2) + (Varint(|body|) + body)
    case UGroup(num, fields) => Tag(num, 3) + (EncodeUnknowns(fields) + Tag(num, 4))
    case UFixed32(num, body) => Tag(num, 5) + body
  }

  function EncodeUnknowns(us: seq<Unknown>): (bs: seq<Byte>)
    decreases us, 1
  {
    if |us| == 0 then [] else EncodeUnknown(us[0]) + EncodeUnknowns(us[1..])
  }

  lemma BlockBack(body: seq<Byte>, rest: seq<Byte>)
    requires |body| < 0x8000_0000_0000_0000
    ensures ReadBlock(Varint(|body|) + body + rest) == BlockRead(body, rest)
  {
    hide Varint, ReadVarint;
    var n, tail := |body|, body + rest;
    assert Varint(n) + body + rest == Varint(n) + tail;
    VarintBack(n, tail);
    BlockParts(Varint(n) + tail, n, body, rest);
  }

  lemma BlockParts(bs: seq<Byte>, n: nat, body: seq<Byte>, rest: seq<Byte>)
    requires n == |body| < 0x8000_0000_0000_0000 && ReadVarint(bs) == VarintRead(n, body + rest)
    ensures ReadBlock(bs) == BlockRead(body, rest)
  {
    hide ReadVarint;
    assert (body + rest)[..n] == body && (body + rest)[n..] == rest;
  }

  lemma WireBack(num: nat, wireType: nat, rest: seq<Byte>)
    requires num <= 0x1fff_ffff && wireType < 8
    ensures ReadVarint(Tag(num, wireType) + rest) == VarintRead(8 * num + wireType, rest)
  {
    hide Varint, ReadVarint;
    VarintBack(8 * num + wireType, rest);
  }

  /** What is skipped after a tag, by wire type. */
  lemma SkipAfterTag(num: nat, wireType: nat, tail: seq<Byte>)
    requires num <= 0x1fff_ffff && wireType < 8
    ensures var r := Skip(Tag(num, wireType) + tail);
            && (wireType == 0 && ReadVarint(tail).VarintRead? ==> r == SkipRead(ReadVarint(tail).rest))
            && (wireType == 1 ==> r == Drop(tail, 8))
            && (wireType == 2 && ReadBlock(tail).BlockRead? ==> r == SkipRead(ReadBlock(tail).rest))
            && (wireType == 3 ==> r == SkipGroup(tail))
            && (wireType == 5 ==> r == Drop(tail, 4))
  {
    hide Varint, ReadVarint, Tag, ReadBlock, SkipGroup, Drop;
    WireBack(num, wireType, tail);
    assert (8 * num + wireType) % 8 == wireType;
  }

  /** A well-formed unknown field is skipped exactly. */
  lemma {:induction false} SkipUnknown(u: Unknown, rest: seq<Byte>)
    requires WellFormed(u)
    ensures Skip(EncodeUnknown(u) + rest) == SkipRead(rest)
    decreases u, 0
  {
    hide Varint, ReadVarint, Fixed64, Tag, Skip, SkipGroup, ReadBlock;
    match u {
      case UVarint(num, v) =>
        assert EncodeUnknown(u) + rest == Tag(num, 0) + (Varint(v) + rest);
        SkipAfterTag(num, 0, Varint(v) + rest);
        VarintBack(v, rest);
      case UFixed64(num, w) =>
        var bs := Fixed64(w);
        assert EncodeUnknown(u) + rest == Tag(num, 1) + (bs + rest);
        SkipAfterTag(num, 1, bs + rest);
        assert (bs + rest)[8..] == rest;
      case UBytes(num, body) =>
        assert EncodeUnknown(u) + rest == Tag(num, 2) + (Varint(|body|) + body + rest);
        SkipAfterTag(num, 2, Varint(|body|) + body + rest);
        BlockBack(body, rest);
      case UGroup(num, fields) =>
        var tail := EncodeUnknowns(fields) + (Tag(num, 4) + rest);
        assert EncodeUnknown(u) + rest == Tag(num, 3) + tail;
        SkipAfterTag(num, 3, tail);
        SkipFields(fields, num, rest);
      case UFixed32(num, body) =>
        assert EncodeUnknown(u) + rest == Tag(num, 5) + (body + rest);
        SkipAfterTag(num, 5, body + rest);
        assert (body + rest)[4..] == rest;
    }
  }

  lemma {:induction false} SkipFields(us: seq<Unknown>, num: nat, rest: seq<Byte>)
    requires (forall u :: u in us ==> WellFormed(u)) && num <= 0x1fff_ffff
    ensures SkipGroup(EncodeUnknowns(us) + (Tag(num, 4) + rest)) == SkipRead(rest)
    decreases us, 1
  {
    hide Varint, ReadVarint, Tag, Skip, EncodeUnknown;
    if |us| == 0 {
      assert EncodeUnknowns(us) + (Tag(num, 4) + rest) == Tag(num, 4) + rest;
      WireBack(num, 4, rest);
    } else {
      var tail := EncodeUnknowns(us[1..]) + (Tag(num, 4) + rest);
      assert EncodeUnknowns(us) + (Tag(num, 4) + rest) == EncodeUnknown(us[0]) + tail;
      SkipUnknown(us[0], tail);
      NotEndTag(us[0], tail);
      SkipFields(us[1..], num, rest);
    }
  }

  lemma NotEndTag(u: Unknown, rest: seq<Byte>)
    requires WellFormed(u)
    ensures var r := ReadVarint(EncodeUnknown(u) + rest); r.VarintRead? && r.value % 8 != 4
  {
    hide Varint, ReadVarint, Tag, EncodeUnknowns, Fixed64;
    match u {
      case UVarint(num, v) =>
        assert EncodeUnknown(u) + rest == Tag(num, 0) + (Varint(v) + rest);
        WireBack(num, 0, Varint(v) + rest);
      case UFixed64(num, w) =>
        assert EncodeUnknown(u) + rest == Tag(num, 1) + (Fixed64(w) + rest);
        WireBack(num, 1, Fixed64(w) + rest);
      case UBytes(num, body) =>
        assert EncodeUnknown(u) + rest == Tag(num, 2) + (Varint(|body|) + body + rest);
        WireBack(num, 2, Varint(|body|) + body + rest);
      case UGroup(num, fields) =>
        assert EncodeUnknown(u) + rest == Tag(num, 3) + (EncodeUnknowns(fields) + Tag(num, 4) + rest);
        WireBack(num, 3, EncodeUnknowns(fields) + Tag(num, 4) + rest);
      case UFixed32(num, body) =>
        assert EncodeUnknown(u) + rest == Tag(num, 5) + (body + rest);
        WireBack(num, 5, body + rest);
    }
  }

  // ---- byte order ----

  lemma LowByte(s: seq<bool>, k: nat)
    requires k + 8 <= |s|
    ensures ToNat(s[..k + 8]) == 256 * ToNat(s[..k]) + ByteOf(s[k..k + 8])
  {
    hide ToNat;
    assert s[..k + 8] == s[..k] + s[k..k + 8];
    ToNatJoined(s[..k], s[k..k + 8]);
    Pow2Small();
  }

  lemma LowFour(s: seq<bool>, k: nat)
    requires k + 32 <= |s|
    ensures ToNat(s[..k + 32])
         == ByteOf(s[k + 24..k + 32]) + 256 * (ByteOf(s[k + 16..k + 24]) as int
            + 256 * (ByteOf(s[k + 8..k + 16]) as int + 256 * (ByteOf(s[k..k + 8]) as int + 256 * ToNat(s[..k]))))
  {
    hide ToNat, ByteOf;
    LowByte(s, k);
    LowByte(s, k + 8);
    LowByte(s, k + 16);
    LowByte(s, k + 24);
  }

  /** The eight bytes of a float are its pattern as a number, the least significant byte first. */
  lemma LittleEndian(w: Word)
    ensures var b: seq<int> := Fixed64(w);
            ToNat(w) == b[0] + 256 * (b[1] + 256 * (b[2] + 256 * (b[3] + 256 * (b[4] + 256 * (b[5] + 256 * (b[6]
                        + 256 * b[7]))))))
  {
    assert ToNat(w[..0]) == 0;
    hide ToNat, ByteOf;
    LowFour(w, 0);
    LowFour(w, 32);
    assert w[..64] == w;
  }

  // ---- malformed varints ----

  /** A varint that is cut short is an error, wherever it is cut. */
  lemma {:induction false} TruncatedVarint(v: nat, n: nat)
    requires v < M64 && n < |Varint(v)|
    ensures ReadVarint(Varint(v)[..n]) == VarintFail(UnexpectedEof)
  {
    hide Varint, ReadGroups;
    assert Pow2(64) == M64 by { Pow2Large(); }
    TruncatedGroups(v, 0, n);
  }

  lemma {:induction false} TruncatedGroups(v: nat, shift: nat, n: nat)
    requires shift <= 63 && v < Pow2(64 - shift) && n < |Varint(v)|
    ensures ReadGroups(Varint(v)[..n], shift) == VarintFail(UnexpectedEof)
    decreases v
  {
    if n > 0 {
      assert Varint(v)[..n][1..] == Varint(v / 128)[..n - 1];
      SevenLess(v, 64 - shift);
      TruncatedGroups(v / 128, shift + 7, n - 1);
    }
  }

  /** Ten bytes that all ask for more are too many. */
  lemma LongVarint(bs: seq<Byte>)
    requires |bs| >= 10 && forall i :: 0 <= i < 10 ==> bs[i] >= 128
    ensures ReadVarint(bs) == VarintFail(Overflow)
  {
    hide ReadGroups;
    LongGroups(bs, 0);
  }

  lemma {:induction false} LongGroups(bs: seq<Byte>, i: nat)
    requires i <= 10 && |bs| >= 10 - i && forall j :: 0 <= j < 10 - i ==> bs[j] >= 128
    ensures ReadGroups(bs, 7 * i) == VarintFail(Overflow)
    decreases 10 - i
  {
    if i < 10 {
      LongGroups(bs[1..], i + 1);
    }
  }

  /** A length is an error if it is negative as an int64, or longer than what follows. */
  lemma BlockExactly(v: nat, rest: seq<Byte>)
    requires v < M64
    ensures ReadBlock(Varint(v) + rest) ==
            if v >= 0x8000_0000_0000_0000 then BlockFail(InvalidLength)
            else if v > |rest| then BlockFail(UnexpectedEof)
            else BlockRead(rest[..v], rest[v..])
  {
    hide Varint, ReadVarint;
    VarintBack(v, rest);
  }

  /** There are no fields of wire type 6 or 7, and a stray end of a group is a field without content. */
  lemma NoSuchWireType(num: nat, wt: nat, rest: seq<Byte>)
    requires 8 * num + wt < M64 && wt in {4, 6, 7}
    ensures Skip(Tag(num, wt) + rest) == if wt == 4 then SkipRead(rest) else SkipFail(IllegalWireType)
  {
    hide Varint, ReadVarint, SkipGroup;
    VarintBack(8 * num + wt, rest);
    assert (8 * num + wt) % 8 == wt;
  }
}
