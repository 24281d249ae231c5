/** The four protobuf messages of a series: how they are laid out in bytes and how bytes are read into them. */
module ProtoMessages {
  import opened Basics
  import opened Bits
  import opened Float64
  import opened Points
  import opened ProtoWire

  datatype Full = Full(time: int, min: Word, max: Word, sum: Word, last: Word, count: int)
  datatype Small = Small(time: int, val: Word)
  datatype Stat = Stat(statType: bool, stat: Option<Full>, small: Option<Small>)
  datatype Stats = Stats(fullResolution: bool, stats: seq<Stat>)

  const NEW_FULL := Full(0, ZERO, ZERO, ZERO, ZERO, 0)
  const NEW_SMALL := Small(0, ZERO)
  const NEW_STAT := Stat(false, None, None)
  const NEW_STATS := Stats(false, [])

  ghost predicate OkFull(m: Full)
  {
    IsInt64(m.time) && IsInt64(m.count)
  }

  ghost predicate OkSmall(m: Small)
  {
    IsInt64(m.time)
  }

  ghost predicate OkStat(m: Stat)
  {
    (m.stat.Some? ==> OkFull(m.stat.value)) && (m.small.Some? ==> OkSmall(m.small.value))
  }

  ghost predicate OkStats(m: Stats)
  {
    forall s :: s in m.stats ==> OkStat(s)
  }

  // ---- writing ----

  /** Fields at their default are not written; a float is at its default when it compares equal to zero. */
  function IntField(num: nat, v: int): (bs: seq<Byte>)
    requires num < 16
  {
    if v == 0 then [] else [8 * num] + Varint(v % M64)
  }

  function FloatField(num: nat, w: Word): (bs: seq<Byte>)
    requires num < 16
  {
    if IsZero(w) then [] else [8 * num + 1] + Fixed64(w)
  }

  function BlockField(num: nat, body: seq<Byte>): (bs: seq<Byte>)
    requires num < 16
  {
    [8 * num + 2] + (Varint(|body|) + body)
  }

  function EncodeFull(m: Full): (bs: seq<Byte>)
  {
    IntField(1, m.time) + FloatField(2, m.min) + FloatField(3, m.max) + FloatField(4, m.sum) + FloatField(5, m.last)
    + IntField(7, m.count)
  }

  function EncodeSmall(m: Small): (bs: seq<Byte>)
  {
    IntField(1, m.time) + FloatField(2, m.val)
  }

  function BoolField(b: bool): (bs: seq<Byte>)
  {
    if b then [0x08, 1] else []
  }

  function EncodeStat(m: Stat): (bs: seq<Byte>)
  {
    BoolField(m.statType)
    + (if m.stat.None? then [] else BlockField(3, EncodeFull(m.stat.value)))
    + (if m.small.None? then [] else BlockField(4, EncodeSmall(m.small.value)))
  }

  function EncodeList(ss: seq<Stat>): (bs: seq<Byte>)
  {
    if |ss| == 0 then [] else BlockField(2, EncodeStat(ss[0])) + EncodeList(ss[1..])
  }

  function EncodeStats(m: Stats): (bs: seq<Byte>)
  {
    BoolField(m.fullResolution) + EncodeList(m.stats)
  }

  // ---- reading ----

  datatype Parsed<M> = Parsed(m: M, rest: seq<Byte>) | Broken(error: Error)
  datatype Result<M> = Ok(value: M) | Err(error: Error)

  /** The three kinds of value a field can have. */
  function ReadInt<M>(wireType: nat, bs: seq<Byte>, put: nat -> M): (r: Parsed<M>)
    ensures r.Parsed? ==> |r.rest| < |bs|
  {
    if wireType != 0 then Broken(WrongType)
    else
      match ReadVarint(bs)
      case VarintFail(e) => Broken(e)
      case VarintRead(v, rest) => Parsed(put(v), rest)
  }

  function ReadFloat<M>(wireType: nat, bs: seq<Byte>, put: Word -> M): (r: Parsed<M>)
    ensures r.Parsed? ==> |r.rest| <= |bs|
  {
    if wireType != 1 then Broken(WrongType)
    else if |bs| < 8 then Broken(UnexpectedEof)
    else Parsed(put(FromFixed64(bs[..8])), bs[8..])
  }

  /** A field that is not known is skipped from its tag on. */
  function ReadOther<M>(m: M, bs: seq<Byte>): (r: Parsed<M>)
    ensures r.Parsed? ==> |r.rest| < |bs|
  {
    match Skip(bs)
    case SkipFail(e) => Broken(e)
    case SkipRead(rest) => Parsed(m, rest)
  }

  function SetInt(m: Full, num: int, v: nat): (m': Full)
  {
    if num == 1 then m.(time := ToInt64(v)) else m.(count := ToInt64(v))
  }

  function SetFloat(m: Full, num: int, w: Word): (m': Full)
  {
    match num
    case 2 => m.(min := w)
    case 3 => m.(max := w)
    case 4 => m.(sum := w)
    case _ => m.(last := w)
  }

  function FullStep(m: Full, bs: seq<Byte>): (r: Parsed<Full>)
    ensures r.Parsed? ==> |r.rest| < |bs|
  {
    match ReadTag(bs)
    case TagFail(e) => Broken(e)
    case TagRead(num, wt, rest) =>
      if num == 1 || num == 7 then ReadInt(wt, rest, v => SetInt(m, num, v))
      else if 2 <= num <= 5 then ReadFloat(wt, rest, w => SetFloat(m, num, w))
      else ReadOther(m, bs)
  }

  function DecodeFull(m: Full, bs: seq<Byte>): (r: Result<Full>)
    decreases |bs|
  {
    if |bs| == 0 then Ok(m)
    else
      match FullStep(m, bs)
      case Broken(e) => Err(e)
      case Parsed(m', rest) => DecodeFull(m', rest)
  }

  function SmallStep(m: Small, bs: seq<Byte>): (r: Parsed<Small>)
    ensures r.Parsed? ==> |r.rest| < |bs|
  {
    match ReadTag(bs)
    case TagFail(e) => Broken(e)
    case TagRead(num, wt, rest) =>
      if num == 1 then ReadInt(wt, rest, v => m.(time := ToInt64(v)))
      else if num == 2 then ReadFloat(wt, rest, w => m.(val := w))
      else ReadOther(m, bs)
  }

  function DecodeSmall(m: Small, bs: seq<Byte>): (r: Result<Small>)
    decreases |bs|
  {
    if |bs| == 0 then Ok(m)
    else
      match SmallStep(m, bs)
      case Broken(e) => Err(e)
      case Parsed(m', rest) => DecodeSmall(m', rest)
  }

  function ReadFullBlock(m: Stat, wireType: nat, bs: seq<Byte>): (r: Parsed<Stat>)
    ensures r.Parsed? ==> |r.rest| < |bs|
  {
    if wireType != 2 then Broken(WrongType)
    else
      match ReadBlock(bs)
      case BlockFail(e) => Broken(e)
      case BlockRead(block, rest) =>
        match DecodeFull(if m.stat.None? then NEW_FULL else m.stat.value, block)
        case Err(e) => Broken(e)
        case Ok(f) => Parsed(m.(stat := Some(f)), rest)
  }

  function ReadSmallBlock(m: Stat, wireType: nat, bs: seq<Byte>): (r: Parsed<Stat>)
    ensures r.Parsed? ==> |r.rest| < |bs|
  {
    if wireType != 2 then Broken(WrongType)
    else
      match ReadBlock(bs)
      case BlockFail(e) => Broken(e)
      case BlockRead(block, rest) =>
        match DecodeSmall(if m.small.None? then NEW_SMALL else m.small.value, block)
        case Err(e) => Broken(e)
        case Ok(s) => Parsed(m.(small := Some(s)), rest)
  }

  function StatStep(m: Stat, bs: seq<Byte>): (r: Parsed<Stat>)
    ensures r.Parsed? ==> |r.rest| < |bs|
  {
    match ReadTag(bs)
    case TagFail(e) => Broken(e)
    case TagRead(num, wt, rest) =>
      if num == 1 then ReadInt(wt, rest, v => m.(statType := v != 0))
      else if num == 3 then ReadFullBlock(m, wt, rest)
      else if num == 4 then ReadSmallBlock(m, wt, rest)
      else ReadOther(m, bs)
  }

  function DecodeStat(m: Stat, bs: seq<Byte>): (r: Result<Stat>)
    decreases |bs|
  {
    if |bs| == 0 then Ok(m)
    else
      match StatStep(m, bs)
      case Broken(e) => Err(e)
      case Parsed(m', rest) => DecodeStat(m', rest)
  }

  function ReadStatBlock(m: Stats, wireType: nat, bs: seq<Byte>): (r: Parsed<Stats>)
    ensures r.Parsed? ==> |r.rest| < |bs|
  {
    if wireType != 2 then Broken(WrongType)
    else
      match ReadBlock(bs)
      case BlockFail(e) => Broken(e)
      case BlockRead(block, rest) =>
        match DecodeStat(NEW_STAT, block)
        case Err(e) => Broken(e)
        case Ok(s) => Parsed(m.(stats := m.stats + [s]), rest)
  }

  function StatsStep(m: Stats, bs: seq<Byte>): (r: Parsed<Stats>)
    ensures r.Parsed? ==> |r.rest| < |bs|
  {
    match ReadTag(bs)
    case TagFail(e) => Broken(e)
    case TagRead(num, wt, rest) =>
      if num == 1 then ReadInt(wt, rest, v => m.(fullResolution := v != 0))
      else if num == 2 then ReadStatBlock(m, wt, rest)
      else ReadOther(m, bs)
  }

  function DecodeStats(m: Stats, bs: seq<Byte>): (r: Result<Stats>)
    decreases |bs|
  {
    if |bs| == 0 then Ok(m)
    else
      match StatsStep(m, bs)
      case Broken(e) => Err(e)
      case Parsed(m', rest) => DecodeStats(m', rest)
  }

  // ---- what reading does to a message ----

  function NormFloat(w: Word): (r: Word)
  {
    if IsZero(w) then ZERO else w
  }

  /** x read into m: every field that x wrote wins. */
  function OverInt(had: int, v: int): (r: int)
  {
    if v == 0 then had else v
  }

  function OverFloat(had: Word, w: Word): (r: Word)
  {
    if IsZero(w) then had else w
  }

  function MergeFull(m: Full, x: Full): (r: Full)
  {
    Full(OverInt(m.time, x.time), OverFloat(m.min, x.min), OverFloat(m.max, x.max), OverFloat(m.sum, x.sum),
         OverFloat(m.last, x.last), OverInt(m.count, x.count))
  }

  function MergeSmall(m: Small, x: Small): (r: Small)
  {
    Small(OverInt(m.time, x.time), OverFloat(m.val, x.val))
  }

  function MergeStat(m: Stat, x: Stat): (r: Stat)
  {
    Stat(m.statType || x.statType,
         if x.stat.None? then m.stat
         else Some(MergeFull(if m.stat.None? then NEW_FULL else m.stat.value, x.stat.value)),
         if x.small.None? then m.small
         else Some(MergeSmall(if m.small.None? then NEW_SMALL else m.small.value, x.small.value)))
  }

  /** A message as it comes back: negative zero is the one value that changes. */
  function NormFull(x: Full): (r: Full)
  {
    x.(min := NormFloat(x.min), max := NormFloat(x.max), sum := NormFloat(x.sum), last := NormFloat(x.last))
  }

  function NormSmall(x: Small): (r: Small)
  {
    x.(val := NormFloat(x.val))
  }

  function NormStat(x: Stat): (r: Stat)
  {
    Stat(x.statType, if x.stat.None? then None else Some(NormFull(x.stat.value)),
         if x.small.None? then None else Some(NormSmall(x.small.value)))
  }

  function NormAll(ss: seq<Stat>): (r: seq<Stat>)
    ensures |r| == |ss|
  {
    seq(|ss|, i requires 0 <= i < |ss| => NormStat(ss[i]))
  }

  function MergeStats(m: Stats, x: Stats): (r: Stats)
  {
    Stats(m.fullResolution || x.fullResolution, m.stats + NormAll(x.stats))
  }

  // ---- full messages ----

  lemma IntBack(v: int)
    requires IsInt64(v)
    ensures ToInt64(v % M64) == v
  {}

  lemma FullIntField(m: Full, num: nat, v: int, rest: seq<Byte>)
    requires IsInt64(v) && (num == 1 || num == 7)
    ensures DecodeFull(m, IntField(num, v) + rest) == DecodeFull(if v == 0 then m else SetInt(m, num, v % M64), rest)
  {
    hide ReadTag, Varint, ReadVarint, SetInt, ReadOther;
    if v == 0 {
      assert IntField(num, v) + rest == rest;
    } else {
      var tail := Varint(v % M64) + rest;
      assert IntField(num, v) + rest == [8 * num] + tail;
      TagBack(8 * num, tail);
      VarintBack(v % M64, rest);
    }
  }

  lemma FullFloatField(m: Full, num: nat, w: Word, rest: seq<Byte>)
    requires 2 <= num <= 5
    ensures DecodeFull(m, FloatField(num, w) + rest) == DecodeFull(if IsZero(w) then m else SetFloat(m, num, w), rest)
  {
    hide ReadTag, Fixed64, FromFixed64, SetFloat, ReadOther, IsZero;
    if IsZero(w) {
      assert FloatField(num, w) + rest == rest;
    } else {
      var tail := Fixed64(w) + rest;
      assert FloatField(num, w) + rest == [8 * num + 1] + tail;
      TagBack(8 * num + 1, tail);
      Fixed64Back(w);
      assert tail[..8] == Fixed64(w) && tail[8..] == rest;
    }
  }

  /** Reading a full message is merging it. */
  lemma FullMerges(m: Full, x: Full, rest: seq<Byte>)
    requires OkFull(x)
    ensures DecodeFull(m, EncodeFull(x) + rest) == DecodeFull(MergeFull(m, x), rest)
  {
    hide DecodeFull, IntField, FloatField, IsZero;
    var r6 := IntField(7, x.count) + rest;
    var r5 := FloatField(5, x.last) + r6;
    var r4 := FloatField(4, x.sum) + r5;
    var r3 := FloatField(3, x.max) + r4;
    var r2 := FloatField(2, x.min) + r3;
    Regroup6(IntField(1, x.time), FloatField(2, x.min), FloatField(3, x.max), FloatField(4, x.sum),
             FloatField(5, x.last), IntField(7, x.count), rest);
    var m1 := m.(time := OverInt(m.time, x.time));
    var m2 := m1.(min := OverFloat(m.min, x.min));
    var m3 := m2.(max := OverFloat(m.max, x.max));
    var m4 := m3.(sum := OverFloat(m.sum, x.sum));
    var m5 := m4.(last := OverFloat(m.last, x.last));
    IntBack(x.time);
    IntBack(x.count);
    FullIntField(m, 1, x.time, r2);
    FullFloatField(m1, 2, x.min, r3);
    FullFloatField(m2, 3, x.max, r4);
    FullFloatField(m3, 4, x.sum, r5);
    FullFloatField(m4, 5, x.last, r6);
    FullIntField(m5, 7, x.count, rest);
  }

  lemma Regroup6(a: seq<Byte>, b: seq<Byte>, c: seq<Byte>, d: seq<Byte>, e: seq<Byte>, f: seq<Byte>, rest: seq<Byte>)
    ensures a + b + c + d + e + f + rest == a + (b + (c + (d + (e + (f + rest)))))
  {}

  // ---- small messages ----

  lemma SmallTimeField(m: Small, v: int, rest: seq<Byte>)
    requires IsInt64(v)
    ensures DecodeSmall(m, IntField(1, v) + rest) == DecodeSmall(m.(time := OverInt(m.time, v)), rest)
  {
    hide ReadTag, Varint, ReadVarint, ReadOther;
    if v == 0 {
      assert IntField(1, v) + rest == rest;
    } else {
      var tail := Varint(v % M64) + rest;
      assert IntField(1, v) + rest == [8] + tail;
      TagBack(8, tail);
      VarintBack(v % M64, rest);
      IntBack(v);
    }
  }

  lemma SmallValField(m: Small, w: Word, rest: seq<Byte>)
    ensures DecodeSmall(m, FloatField(2, w) + rest) == DecodeSmall(m.(val := OverFloat(m.val, w)), rest)
  {
    hide ReadTag, Fixed64, FromFixed64, ReadOther, IsZero;
    if IsZero(w) {
      assert FloatField(2, w) + rest == rest;
    } else {
      var tail := Fixed64(w) + rest;
      assert FloatField(2, w) + rest == [17] + tail;
      TagBack(17, tail);
      Fixed64Back(w);
      assert tail[..8] == Fixed64(w) && tail[8..] == rest;
    }
  }

  lemma SmallMerges(m: Small, x: Small, rest: seq<Byte>)
    requires OkSmall(x)
    ensures DecodeSmall(m, EncodeSmall(x) + rest) == DecodeSmall(MergeSmall(m, x), rest)
  {
    hide DecodeSmall, IntField, FloatField, IsZero;
    assert EncodeSmall(x) + rest == IntField(1, x.time) + (FloatField(2, x.val) + rest);
    SmallTimeField(m, x.time, FloatField(2, x.val) + rest);
    SmallValField(m.(time := OverInt(m.time, x.time)), x.val, rest);
  }

  // ---- sizes ----

  /** The sizes the generated code computes before it writes. */
  function SizeInt(v: int): (n: nat)
  {
    if v == 0 then 0 else 1 + Sov(v % M64)
  }

  function SizeFloat(w: Word): (n: nat)
  {
    if IsZero(w) then 0 else 9
  }

  function SizeFull(m: Full): (n: nat)
  {
    SizeInt(m.time) + SizeFloat(m.min) + SizeFloat(m.max) + SizeFloat(m.sum) + SizeFloat(m.last) + SizeInt(m.count)
  }

  function SizeSmall(m: Small): (n: nat)
  {
    SizeInt(m.time) + SizeFloat(m.val)
  }

  function SizeBlock(l: nat): (n: nat)
  {
    1 + l + Sov(l)
  }

  function SizeStat(m: Stat): (n: nat)
  {
    (if m.statType then 2 else 0)
    + (if m.stat.None? then 0 else SizeBlock(SizeFull(m.stat.value)))
    + (if m.small.None? then 0 else SizeBlock(SizeSmall(m.small.value)))
  }

  function SizeList(ss: seq<Stat>): (n: nat)
  {
    if |ss| == 0 then 0 else SizeBlock(SizeStat(ss[0])) + SizeList(ss[1..])
  }

  function SizeStats(m: Stats): (n: nat)
  {
    (if m.fullResolution then 2 else 0) + SizeList(m.stats)
  }

  lemma IntFieldSize(num: nat, v: int)
    requires num < 16
    ensures |IntField(num, v)| == SizeInt(v) <= 11
  {
    hide Varint, Sov;
    SovIsLength(v % M64);
    SovTen(v % M64);
  }

  lemma FullSize(m: Full)
    ensures |EncodeFull(m)| == SizeFull(m) <= 58
  {
    hide IntField, SizeInt, Fixed64, IsZero;
    IntFieldSize(1, m.time);
    IntFieldSize(7, m.count);
  }

  lemma SmallSize(m: Small)
    ensures |EncodeSmall(m)| == SizeSmall(m) <= 20
  {
    hide IntField, SizeInt, Fixed64, IsZero;
    IntFieldSize(1, m.time);
  }

  lemma BlockSize(num: nat, body: seq<Byte>)
    requires num < 16
    ensures |BlockField(num, body)| == SizeBlock(|body|)
  {
    hide Varint, Sov;
    SovIsLength(|body|);
  }

  lemma StatSize(m: Stat)
    ensures |EncodeStat(m)| == SizeStat(m) <= 84
  {
    hide BlockField, EncodeFull, EncodeSmall, SizeFull, SizeSmall;
    if m.stat.Some? {
      FullSize(m.stat.value);
      BlockSize(3, EncodeFull(m.stat.value));
    }
    if m.small.Some? {
      SmallSize(m.small.value);
      BlockSize(4, EncodeSmall(m.small.value));
    }
  }

  lemma {:induction false} ListSize(ss: seq<Stat>)
    ensures |EncodeList(ss)| == SizeList(ss)
  {
    hide BlockField, SizeBlock, EncodeStat, SizeStat;
    if |ss| > 0 {
      StatSize(ss[0]);
      BlockSize(2, EncodeStat(ss[0]));
      ListSize(ss[1..]);
    }
  }

  /** The size computed in advance is exactly the number of bytes written. */
  lemma StatsSize(m: Stats)
    ensures |EncodeStats(m)| == SizeStats(m)
  {
    hide EncodeList, SizeList;
    ListSize(m.stats);
  }

  // ---- stats ----

  lemma StatBoolField(m: Stat, b: bool, rest: seq<Byte>)
    ensures DecodeStat(m, BoolField(b) + rest) == DecodeStat(m.(statType := m.statType || b), rest)
  {
    hide ReadTag, ReadVarint, ReadOther, ReadFullBlock, ReadSmallBlock;
    if b {
      assert BoolField(b) + rest == [8] + ([1] + rest);
      TagBack(8, [1] + rest);
      assert Varint(1) == [1];
      VarintBack(1, rest);
    } else {
      assert BoolField(b) + rest == rest;
    }
  }

  lemma StatFullField(m: Stat, x: Full, rest: seq<Byte>)
    requires OkFull(x)
    ensures DecodeStat(m, BlockField(3, EncodeFull(x)) + rest)
         == DecodeStat(m.(stat := Some(MergeFull(if m.stat.None? then NEW_FULL else m.stat.value, x))), rest)
  {
    hide ReadTag, ReadBlock, ReadOther, ReadInt, ReadSmallBlock, Varint, EncodeFull, MergeFull;
    var body := EncodeFull(x);
    var tail := Varint(|body|) + body + rest;
    assert BlockField(3, body) + rest == [26] + tail;
    TagBack(26, tail);
    FullSize(x);
    BlockBack(body, rest);
    FullMerges(if m.stat.None? then NEW_FULL else m.stat.value, x, []);
    assert body + [] == body;
  }

  lemma StatSmallField(m: Stat, x: Small, rest: seq<Byte>)
    requires OkSmall(x)
    ensures DecodeStat(m, BlockField(4, EncodeSmall(x)) + rest)
         == DecodeStat(m.(small := Some(MergeSmall(if m.small.None? then NEW_SMALL else m.small.value, x))), rest)
  {
    hide ReadTag, ReadBlock, ReadOther, ReadInt, ReadFullBlock, Varint, EncodeSmall, MergeSmall;
    var body := EncodeSmall(x);
    var tail := Varint(|body|) + body + rest;
    assert BlockField(4, body) + rest == [34] + tail;
    TagBack(34, tail);
    SmallSize(x);
    BlockBack(body, rest);
    SmallMerges(if m.small.None? then NEW_SMALL else m.small.value, x, []);
    assert body + [] == body;
  }

  lemma StatMerges(m: Stat, x: Stat, rest: seq<Byte>)
    requires OkStat(x)
    ensures DecodeStat(m, EncodeStat(x) + rest) == DecodeStat(MergeStat(m, x), rest)
  {
    hide DecodeStat, BoolField, BlockField, EncodeFull, EncodeSmall, MergeFull, MergeSmall;
    var small := if x.small.None? then [] else BlockField(4, EncodeSmall(x.small.value));
    var full := if x.stat.None? then [] else BlockField(3, EncodeFull(x.stat.value));
    assert EncodeStat(x) + rest == BoolField(x.statType) + (full + (small + rest));
    StatBoolField(m, x.statType, full + (small + rest));
    var m1 := m.(statType := m.statType || x.statType);
    var m2 := m1.(stat := MergeStat(m, x).stat);
    if x.stat.Some? {
      StatFullField(m1, x.stat.value, small + rest);
    } else {
      assert full + (small + rest) == small + rest;
    }
    if x.small.Some? {
      StatSmallField(m2, x.small.value, rest);
    } else {
      assert small + rest == rest;
    }
  }

  lemma FreshStat(x: Stat)
    ensures MergeStat(NEW_STAT, x) == NormStat(x)
  {}

  lemma StatRoundTrip(x: Stat)
    requires OkStat(x)
    ensures DecodeStat(NEW_STAT, EncodeStat(x)) == Ok(NormStat(x))
  {
    hide EncodeStat, MergeStat, NormStat;
    StatMerges(NEW_STAT, x, []);
    assert EncodeStat(x) + [] == EncodeStat(x);
    FreshStat(x);
  }

  // ---- a series of stats ----

  lemma StatsBoolField(m: Stats, b: bool, rest: seq<Byte>)
    ensures DecodeStats(m, BoolField(b) + rest) == DecodeStats(m.(fullResolution := m.fullResolution || b), rest)
  {
    hide ReadTag, ReadVarint, ReadOther, ReadStatBlock;
    if b {
      assert BoolField(b) + rest == [8] + ([1] + rest);
      TagBack(8, [1] + rest);
      assert Varint(1) == [1];
      VarintBack(1, rest);
    } else {
      assert BoolField(b) + rest == rest;
    }
  }

  lemma StatsStatField(m: Stats, x: Stat, rest: seq<Byte>)
    requires OkStat(x)
    ensures DecodeStats(m, BlockField(2, EncodeStat(x)) + rest) ==
            DecodeStats(m.(stats := m.stats + [NormStat(x)]), rest)
  {
    hide ReadTag, ReadBlock, ReadOther, ReadInt, Varint, EncodeStat, NormStat, DecodeStat;
    var body := EncodeStat(x);
    var tail := Varint(|body|) + body + rest;
    assert BlockField(2, body) + rest == [18] + tail;
    TagBack(18, tail);
    StatSize(x);
    BlockBack(body, rest);
    StatRoundTrip(x);
  }

  lemma {:induction false} ListMerges(m: Stats, ss: seq<Stat>, rest: seq<Byte>)
    requires forall s :: s in ss ==> OkStat(s)
    ensures DecodeStats(m, EncodeList(ss) + rest) == DecodeStats(m.(stats := m.stats + NormAll(ss)), rest)
    decreases |ss|
  {
    hide DecodeStats, BlockField, NormStat, OkStat, EncodeStat;
    if |ss| == 0 {
      assert EncodeList(ss) + rest == rest;
      assert m.stats + NormAll(ss) == m.stats;
    } else {
      var tail := EncodeList(ss[1..]) + rest;
      assert EncodeList(ss) + rest == BlockField(2, EncodeStat(ss[0])) + tail;
      StatsStatField(m, ss[0], tail);
      var m' := m.(stats := m.stats + [NormStat(ss[0])]);
      ListMerges(m', ss[1..], rest);
      assert m'.stats + NormAll(ss[1..]) == m.stats + NormAll(ss);
    }
  }

  /** Reading a series is merging it: stats are appended, and the resolution flag is or-ed. */
  lemma StatsMerges(m: Stats, x: Stats, rest: seq<Byte>)
    requires OkStats(x)
    ensures DecodeStats(m, EncodeStats(x) + rest) == DecodeStats(MergeStats(m, x), rest)
  {
    hide DecodeStats, BoolField, EncodeList, NormAll;
    assert EncodeStats(x) + rest == BoolField(x.fullResolution) + (EncodeList(x.stats) + rest);
    StatsBoolField(m, x.fullResolution, EncodeList(x.stats) + rest);
    ListMerges(m.(fullResolution := m.fullResolution || x.fullResolution), x.stats, rest);
  }

  /** A series comes back equal, but for negative zeros. */
  lemma StatsRoundTrip(x: Stats)
    requires OkStats(x)
    ensures DecodeStats(NEW_STATS, EncodeStats(x)) == Ok(Stats(x.fullResolution, NormAll(x.stats)))
  {
    hide EncodeStats, NormAll;
    StatsMerges(NEW_STATS, x, []);
    assert EncodeStats(x) + [] == EncodeStats(x);
    assert [] + NormAll(x.stats) == NormAll(x.stats);
  }

  /** Two encodings back to back decode to the appended stats. */
  lemma ConcatenationMerges(x: Stats, y: Stats)
    requires OkStats(x) && OkStats(y)
    ensures DecodeStats(NEW_STATS, EncodeStats(x) + EncodeStats(y))
         == Ok(Stats(x.fullResolution || y.fullResolution, NormAll(x.stats + y.stats)))
  {
    hide EncodeStats, NormAll;
    StatsMerges(NEW_STATS, x, EncodeStats(y));
    var m := MergeStats(NEW_STATS, x);
    assert m.stats == NormAll(x.stats);
    StatsMerges(m, y, []);
    assert EncodeStats(y) + [] == EncodeStats(y);
    NormAppend(x.stats, y.stats);
  }

  lemma NormAppend(a: seq<Stat>, b: seq<Stat>)
    ensures NormAll(a + b) == NormAll(a) + NormAll(b)
  {
    hide NormStat;
  }

  /** A well-formed field with a number the message does not know changes nothing, between any two parts. */
  lemma UnknownIgnored(m: Stats, x: Stats, u: Unknown, rest: seq<Byte>)
    requires OkStats(x) && WellFormed(u) && u.num > 2
    ensures DecodeStats(m, EncodeStats(x) + (EncodeUnknown(u) + rest)) == DecodeStats(m, EncodeStats(x) + rest)
  {
    hide DecodeStats, EncodeStats, WellFormed, EncodeUnknown, MergeStats;
    StatsMerges(m, x, EncodeUnknown(u) + rest);
    StatsMerges(m, x, rest);
    UnknownFirst(MergeStats(m, x), u, rest);
  }

  lemma UnknownFirst(m: Stats, u: Unknown, rest: seq<Byte>)
    requires WellFormed(u) && u.num > 2
    ensures DecodeStats(m, EncodeUnknown(u) + rest) == DecodeStats(m, rest)
  {
    hide ReadTag, Skip, EncodeUnknown, ReadStatBlock, ReadInt, WellFormed;
    UnknownTag(u, rest);
    SkipUnknown(u, rest);
    assert |EncodeUnknown(u) + rest| > 0;
  }

  /** The same inside a record. */
  lemma StatUnknown(m: Stat, x: Stat, u: Unknown, rest: seq<Byte>)
    requires OkStat(x) && WellFormed(u) && u.num !in {1, 3, 4}
    ensures DecodeStat(m, EncodeStat(x) + (EncodeUnknown(u) + rest)) == DecodeStat(m, EncodeStat(x) + rest)
  {
    hide DecodeStat, EncodeStat, WellFormed, EncodeUnknown, MergeStat;
    StatMerges(m, x, EncodeUnknown(u) + rest);
    StatMerges(m, x, rest);
    StatUnknownFirst(MergeStat(m, x), u, rest);
  }

  lemma StatUnknownFirst(m: Stat, u: Unknown, rest: seq<Byte>)
    requires WellFormed(u) && u.num !in {1, 3, 4}
    ensures DecodeStat(m, EncodeUnknown(u) + rest) == DecodeStat(m, rest)
  {
    hide ReadTag, Skip, EncodeUnknown, ReadFullBlock, ReadSmallBlock, ReadInt, WellFormed;
    UnknownTag(u, rest);
    SkipUnknown(u, rest);
    assert |EncodeUnknown(u) + rest| > 0;
  }

  /** The same inside a full stat. */
  lemma FullUnknown(m: Full, x: Full, u: Unknown, rest: seq<Byte>)
    requires OkFull(x) && WellFormed(u) && u.num !in {1, 2, 3, 4, 5, 7}
    ensures DecodeFull(m, EncodeFull(x) + (EncodeUnknown(u) + rest)) == DecodeFull(m, EncodeFull(x) + rest)
  {
    hide DecodeFull, EncodeFull, WellFormed, EncodeUnknown, MergeFull;
    FullMerges(m, x, EncodeUnknown(u) + rest);
    FullMerges(m, x, rest);
    FullUnknownFirst(MergeFull(m, x), u, rest);
  }

  lemma FullUnknownFirst(m: Full, u: Unknown, rest: seq<Byte>)
    requires WellFormed(u) && u.num !in {1, 2, 3, 4, 5, 7}
    ensures DecodeFull(m, EncodeUnknown(u) + rest) == DecodeFull(m, rest)
  {
    hide ReadTag, Skip, EncodeUnknown, ReadFloat, ReadInt, WellFormed;
    UnknownTag(u, rest);
    SkipUnknown(u, rest);
    assert |EncodeUnknown(u) + rest| > 0;
  }

  /** The same inside a small stat. */
  lemma SmallUnknown(m: Small, x: Small, u: Unknown, rest: seq<Byte>)
    requires OkSmall(x) && WellFormed(u) && u.num > 2
    ensures DecodeSmall(m, EncodeSmall(x) + (EncodeUnknown(u) + rest)) == DecodeSmall(m, EncodeSmall(x) + rest)
  {
    hide DecodeSmall, EncodeSmall, WellFormed, EncodeUnknown, MergeSmall;
    SmallMerges(m, x, EncodeUnknown(u) + rest);
    SmallMerges(m, x, rest);
    SmallUnknownFirst(MergeSmall(m, x), u, rest);
  }

  lemma SmallUnknownFirst(m: Small, u: Unknown, rest: seq<Byte>)
    requires WellFormed(u) && u.num > 2
    ensures DecodeSmall(m, EncodeUnknown(u) + rest) == DecodeSmall(m, rest)
  {
    hide ReadTag, Skip, EncodeUnknown, ReadFloat, ReadInt, WellFormed;
    UnknownTag(u, rest);
    SkipUnknown(u, rest);
    assert |EncodeUnknown(u) + rest| > 0;
  }

  lemma UnknownTag(u: Unknown, rest: seq<Byte>)
    requires WellFormed(u)
    ensures var r := ReadTag(EncodeUnknown(u) + rest); r.TagRead? && r.num == u.num
    ensures |EncodeUnknown(u)| > 0
  {
    hide Varint, ReadVarint, Tag, EncodeUnknowns, Fixed64, WellFormed;
    var wt := match u
      case UVarint(_, _) => 0
      case UFixed64(_, _) => 1
      case UBytes(_, _) => 2
      case UGroup(_, _) => 3
      case UFixed32(_, _) => 5;
    var body := match u
      case UVarint(_, v) => Varint(v)
      case UFixed64(_, w) => Fixed64(w)
      case UBytes(_, body) => Varint(|body|) + body
      case UGroup(num, fields) => EncodeUnknowns(fields) + Tag(num, 4)
      case UFixed32(_, body) => body;
    assert EncodeUnknown(u) + rest == Tag(u.num, wt) + (body + rest);
    NumBound(u);
    WireBack(u.num, wt, body + rest);
    TagNonEmpty(u.num, wt);
    assert (8 * u.num + wt) / 8 == u.num && (8 * u.num + wt) % 8 == wt;
  }

  lemma NumBound(u: Unknown)
    requires WellFormed(u)
    ensures 1 <= u.num <= 0x1fff_ffff
  {}

  lemma TagNonEmpty(num: nat, wireType: nat)
    ensures |Tag(num, wireType)| > 0
  {}

  // ---- field numbers and errors ----

  /** The fields of a full stat by their tags: time is field 1 and count field 7, both varints; min, max, sum and
      last are fields 2 to 5, all of eight bytes. */
  lemma FullFieldNumbers(m: Full, v: int, w: Word, rest: seq<Byte>)
    requires IsInt64(v) && v != 0 && !IsZero(w)
    ensures DecodeFull(m, [1 * 8 + 0] + Varint(v % M64) + rest) == DecodeFull(m.(time := v), rest)
    ensures DecodeFull(m, [7 * 8 + 0] + Varint(v % M64) + rest) == DecodeFull(m.(count := v), rest)
    ensures DecodeFull(m, [2 * 8 + 1] + Fixed64(w) + rest) == DecodeFull(m.(min := w), rest)
    ensures DecodeFull(m, [3 * 8 + 1] + Fixed64(w) + rest) == DecodeFull(m.(max := w), rest)
    ensures DecodeFull(m, [4 * 8 + 1] + Fixed64(w) + rest) == DecodeFull(m.(sum := w), rest)
    ensures DecodeFull(m, [5 * 8 + 1] + Fixed64(w) + rest) == DecodeFull(m.(last := w), rest)
  {
    hide DecodeFull, Varint, Fixed64, IsZero, ToInt64;
    IntBack(v);
    FullIntField(m, 1, v, rest);
    FullIntField(m, 7, v, rest);
    FullFloatField(m, 2, w, rest);
    FullFloatField(m, 3, w, rest);
    FullFloatField(m, 4, w, rest);
    FullFloatField(m, 5, w, rest);
  }

  lemma SmallFieldNumbers(m: Small, v: int, w: Word, rest: seq<Byte>)
    requires IsInt64(v) && v != 0 && !IsZero(w)
    ensures DecodeSmall(m, [1 * 8 + 0] + Varint(v % M64) + rest) == DecodeSmall(m.(time := v), rest)
    ensures DecodeSmall(m, [2 * 8 + 1] + Fixed64(w) + rest) == DecodeSmall(m.(val := w), rest)
  {
    hide DecodeSmall, Varint, Fixed64, IsZero, ToInt64;
    IntBack(v);
    SmallTimeField(m, v, rest);
    SmallValField(m, w, rest);
  }

  /** In a record the type is field 1, the full stat field 3 and the small stat field 4; in a series the
      resolution is field 1 and the records are field 2. */
  lemma RecordFieldNumbers(m: Stat, n: Stats, f: Full, s: Small, x: Stat, rest: seq<Byte>)
    requires OkFull(f) && OkSmall(s) && OkStat(x) && m.stat.None? && m.small.None?
    ensures DecodeStat(m, [1 * 8 + 0, 1] + rest) == DecodeStat(m.(statType := true), rest)
    ensures DecodeStat(m, [3 * 8 + 2] + Varint(|EncodeFull(f)|) + EncodeFull(f) + rest)
         == DecodeStat(m.(stat := Some(MergeFull(NEW_FULL, f))), rest)
    ensures DecodeStat(m, [4 * 8 + 2] + Varint(|EncodeSmall(s)|) + EncodeSmall(s) + rest)
         == DecodeStat(m.(small := Some(MergeSmall(NEW_SMALL, s))), rest)
    ensures DecodeStats(n, [1 * 8 + 0, 1] + rest) == DecodeStats(n.(fullResolution := true), rest)
    ensures DecodeStats(n, [2 * 8 + 2] + Varint(|EncodeStat(x)|) + EncodeStat(x) + rest)
         == DecodeStats(n.(stats := n.stats + [NormStat(x)]), rest)
  {
    hide DecodeStat, DecodeStats, EncodeFull, EncodeSmall, EncodeStat, Varint, MergeFull, MergeSmall, NormStat;
    StatBoolField(m, true, rest);
    StatFullField(m, f, rest);
    StatSmallField(m, s, rest);
    StatsBoolField(n, true, rest);
    StatsStatField(n, x, rest);
    BlockBytes(3, EncodeFull(f), rest);
    BlockBytes(4, EncodeSmall(s), rest);
    BlockBytes(2, EncodeStat(x), rest);
  }

  lemma BlockBytes(num: nat, body: seq<Byte>, rest: seq<Byte>)
    requires num < 16
    ensures BlockField(num, body) + rest == [num * 8 + 2] + Varint(|body|) + body + rest
  {
    hide Varint;
    assert 8 * num + 2 == num * 8 + 2;
    assert BlockField(num, body) == [num * 8 + 2] + (Varint(|body|) + body);
    InnerLeft([num * 8 + 2], Varint(|body|), body);
  }

  lemma InnerLeft(a: seq<Byte>, b: seq<Byte>, c: seq<Byte>)
    ensures a + (b + c) == a + b + c
  {
  }

  /** A known field of another wire type is an error. */
  lemma WrongTypeFails(m: Full, s: Small, x: Stat, n: Stats, num: nat, wt: nat, rest: seq<Byte>)
    requires 1 <= num <= 7 && wt < 8 && wt != 4
    ensures num in {1, 7} && wt != 0 ==> DecodeFull(m, [8 * num + wt] + rest) == Err(WrongType)
    ensures num in {2, 3, 4, 5} && wt != 1 ==> DecodeFull(m, [8 * num + wt] + rest) == Err(WrongType)
    ensures num == 1 && wt != 0 ==> DecodeSmall(s, [8 * num + wt] + rest) == Err(WrongType)
    ensures num == 2 && wt != 1 ==> DecodeSmall(s, [8 * num + wt] + rest) == Err(WrongType)
    ensures num == 1 && wt != 0 ==> DecodeStat(x, [8 * num + wt] + rest) == Err(WrongType)
    ensures num in {3, 4} && wt != 2 ==> DecodeStat(x, [8 * num + wt] + rest) == Err(WrongType)
    ensures num == 1 && wt != 0 ==> DecodeStats(n, [8 * num + wt] + rest) == Err(WrongType)
    ensures num == 2 && wt != 2 ==> DecodeStats(n, [8 * num + wt] + rest) == Err(WrongType)
  {
    hide DecodeFull, DecodeSmall, DecodeStat, DecodeStats;
    var bs := [8 * num + wt] + rest;
    assert ReadTag(bs) == TagRead(num, wt, rest) by {
      hide ReadTag;
      TagBack(8 * num + wt, rest);
      assert (8 * num + wt) / 8 == num && (8 * num + wt) % 8 == wt;
    }
    FullTypeFails(m, num, wt, bs, rest);
    SmallTypeFails(s, num, wt, bs, rest);
    RecordTypeFails(x, n, num, wt, bs, rest);
  }

  lemma FullTypeFails(m: Full, num: int, wt: nat, bs: seq<Byte>, rest: seq<Byte>)
    requires |bs| > 0 && ReadTag(bs) == TagRead(num, wt, rest)
    ensures num in {1, 7} && wt != 0 ==> DecodeFull(m, bs) == Err(WrongType)
    ensures num in {2, 3, 4, 5} && wt != 1 ==> DecodeFull(m, bs) == Err(WrongType)
  {
    hide ReadTag, ReadVarint, ReadOther;
  }

  lemma SmallTypeFails(s: Small, num: int, wt: nat, bs: seq<Byte>, rest: seq<Byte>)
    requires |bs| > 0 && ReadTag(bs) == TagRead(num, wt, rest)
    ensures num == 1 && wt != 0 ==> DecodeSmall(s, bs) == Err(WrongType)
    ensures num == 2 && wt != 1 ==> DecodeSmall(s, bs) == Err(WrongType)
  {
    hide ReadTag, ReadVarint, ReadOther;
  }

  lemma RecordTypeFails(x: Stat, n: Stats, num: int, wt: nat, bs: seq<Byte>, rest: seq<Byte>)
    requires |bs| > 0 && ReadTag(bs) == TagRead(num, wt, rest)
    ensures num == 1 && wt != 0 ==> DecodeStat(x, bs) == Err(WrongType) && DecodeStats(n, bs) == Err(WrongType)
    ensures num in {3, 4} && wt != 2 ==> DecodeStat(x, bs) == Err(WrongType)
    ensures num == 2 && wt != 2 ==> DecodeStats(n, bs) == Err(WrongType)
  {
    hide ReadTag, ReadVarint, ReadOther, ReadBlock;
  }

  /** Field number zero and the end of a group that was not begun are errors. */
  lemma IllegalTagFails(m: Full, s: Small, x: Stat, n: Stats, tag: Byte, rest: seq<Byte>)
    requires tag < 8 || (tag < 128 && tag % 8 == 4)
    ensures DecodeFull(m, [tag] + rest) == Err(IllegalTag) && DecodeSmall(s, [tag] + rest) == Err(IllegalTag)
    ensures DecodeStat(x, [tag] + rest) == Err(IllegalTag) && DecodeStats(n, [tag] + rest) == Err(IllegalTag)
  {
    assert ReadTag([tag] + rest) == TagFail(IllegalTag) by {
      assert Varint(tag) == [tag];
      VarintBack(tag, rest);
    }
    hide ReadTag, ReadVarint, ReadOther, ReadBlock;
  }
}
