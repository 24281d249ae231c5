/** The two series that keep a list of records: the plain one, which the compressed formats have to match,
    and the protobuf one, whose list can also go through bytes. */
module ListSeries {
  import opened Basics
  import opened Bits
  import opened Float64
  import opened Points
  import opened ProtoWire
  import opened ProtoMessages
  import opened ProtoCodec

  // ---- the plain list ----

  /** The plain series stores a number that is not finite, or the flag -2^63, as zero. */
  function Checked(p: Point): (q: Point)
  {
    Point(p.t, CheckFloat(p.min), CheckFloat(p.max), CheckFloat(p.last), CheckFloat(p.sum), p.count)
  }

  /** Field by field: stamp and count stay, and each value stays if it is usable and is zero otherwise. */
  lemma CheckedExactly(p: Point)
    ensures var q := Checked(p);
            && q.t == p.t && q.count == p.count
            && q.min == (if IsUsable(p.min) then p.min else ZERO)
            && q.max == (if IsUsable(p.max) then p.max else ZERO)
            && q.last == (if IsUsable(p.last) then p.last else ZERO)
            && q.sum == (if IsUsable(p.sum) then p.sum else ZERO)
  {
    hide CheckFloat, IsUsable;
    UsableStays(p.min);
    UsableStays(p.max);
    UsableStays(p.last);
    UsableStays(p.sum);
  }

  function CheckedAll(ps: seq<Point>): (qs: seq<Point>)
    ensures |qs| == |ps|
  {
    seq(|ps|, i requires 0 <= i < |ps| => Checked(ps[i]))
  }

  class ReprTimeSeries {
    var T0: int
    var curTime: int
    var Stats: seq<Point>
    ghost var points: seq<Point>

    ghost predicate Valid()
      reads this
    {
      Stats == CheckedAll(points)
    }

    constructor (t0: int)
      ensures Valid() && points == [] && T0 == t0 && curTime == 0
    {
      T0, curTime, Stats, points := t0, 0, [], [];
    }

    method AddPoint(t: int, min: Word, max: Word, last: Word, sum: Word, count: int)
      requires Valid()
      modifies this
      ensures Valid() && points == old(points) + [Point(t, min, max, last, sum, count)]
      ensures T0 == (if t < old(T0) then t else old(T0)) && curTime == (if t > old(curTime) then t else old(curTime))
    {
      hide CheckFloat;
      Stats := Stats + [Point(t, CheckFloat(min), CheckFloat(max), CheckFloat(last), CheckFloat(sum), count)];
      points := points + [Point(t, min, max, last, sum, count)];
      if t > curTime {
        curTime := t;
      }
      if t < T0 {
        T0 := t;
      }
    }

    method Iter() returns (it: ReprIter)
      requires Valid()
      ensures fresh(it) && it.Valid() && it.Pending() == CheckedAll(points)
    {
      it := new ReprIter(Stats);
    }
  }

  class ReprIter {
    const Stats: seq<Point>
    var curIdx: nat
    var curStat: Point

    ghost predicate Valid()
      reads this
    {
      curIdx <= |Stats|
    }

    ghost function Pending(): (ps: seq<Point>)
      requires Valid()
      reads this
    {
      Stats[curIdx..]
    }

    constructor (stats: seq<Point>)
      ensures Valid() && Pending() == stats
    {
      Stats, curIdx, curStat := stats, 0, Point(0, ZERO, ZERO, ZERO, ZERO, 0);
    }

    method Next() returns (ok: bool)
      requires Valid()
      modifies this
      ensures Valid() && ok == (|old(Pending())| > 0)
      ensures if ok then curStat == old(Pending())[0] && Pending() == old(Pending())[1..] else Pending() == []
    {
      if curIdx >= |Stats| {
        return false;
      }
      curStat := Stats[curIdx];
      curIdx := curIdx + 1;
      ok := true;
    }

    method Values() returns (p: Point)
      ensures p == curStat
    {
      return curStat;
    }
  }

  // ---- the protobuf list ----

  /** The record of a point. */
  function StatOf(full: bool, p: Point): (s: Stat)
  {
    var t := if full then p.t else SplitNano(p.t).0;
    if IsSmall(p) then Stat(false, None, Some(Small(t, p.sum)))
    else Stat(true, Some(Full(t, p.min, p.max, p.sum, p.last, p.count)), None)
  }

  predicate HasValue(s: Stat)
  {
    if s.statType then s.stat.Some? else s.small.Some?
  }

  function ShownTime(full: bool, t: int): (r: int)
  {
    if full then t else CombineSecNano(t % M32, 0)
  }

  /** The values of a record, as the iterator reports them. */
  function ValuesOf(full: bool, s: Stat): (p: Point)
    requires HasValue(s)
  {
    if s.statType then
      var f := s.stat.value;
      Point(ShownTime(full, f.time), f.min, f.max, f.last, f.sum, f.count)
    else
      var v := s.small.value.val;
      Point(ShownTime(full, s.small.value.time), v, v, v, v, 1)
  }

  lemma StatKeepsPoint(full: bool, p: Point)
    ensures HasValue(StatOf(full, p)) && ValuesOf(full, StatOf(full, p)) == AsStored(full, p)
  {}

  /** A record keeps each value under its own name. */
  lemma StatKeepsNames(full: bool, p: Point)
    ensures var s, t := StatOf(full, p), if full then p.t else SplitNano(p.t).0;
            if IsSmall(p) then !s.statType && s.stat.None? && s.small.Some? && s.small.value == Small(t, p.sum)
            else
              && s.statType && s.stat.Some? && s.small.None?
              && var f := s.stat.value;
                 f.time == t && f.min == p.min && f.max == p.max && f.last == p.last && f.sum == p.sum
                 && f.count == p.count
  {
    hide IsSmall;
  }

  /** No value that is stored for the point is a negative zero. */
  predicate NoNegativeZero(p: Point)
  {
    !NegativeZero(p.sum)
    && (IsSmall(p) || (!NegativeZero(p.min) && !NegativeZero(p.max) && !NegativeZero(p.last)))
  }

  /** A point survives the bytes exactly when none of its stored values is a negative zero. */
  lemma BytesKeepPoint(full: bool, p: Point)
    ensures var s := NormStat(StatOf(full, p));
            HasValue(s) && (ValuesOf(full, s) == AsStored(full, p) <==> NoNegativeZero(p))
  {
    hide IsSmall, IsZero;
  }

  function StatsOf(full: bool, ps: seq<Point>): (ss: seq<Stat>)
    ensures |ss| == |ps|
    ensures forall s :: s in ss ==> HasValue(s)
    decreases |ps|
  {
    if |ps| == 0 then [] else [StatOf(full, ps[0])] + StatsOf(full, ps[1..])
  }

  function ValuesAll(full: bool, ss: seq<Stat>): (ps: seq<Point>)
    requires forall s :: s in ss ==> HasValue(s)
    ensures |ps| == |ss|
    decreases |ss|
  {
    if |ss| == 0 then [] else [ValuesOf(full, ss[0])] + ValuesAll(full, ss[1..])
  }

  lemma {:induction false} StatsSnoc(full: bool, ps: seq<Point>, p: Point)
    ensures StatsOf(full, ps + [p]) == StatsOf(full, ps) + [StatOf(full, p)]
    decreases |ps|
  {
    hide StatOf;
    if |ps| == 0 {
      assert ps + [p] == [p] && [p][1..] == [];
      assert StatsOf(full, [p]) == [StatOf(full, p)] + StatsOf(full, []);
    } else {
      assert (ps + [p])[1..] == ps[1..] + [p];
      StatsSnoc(full, ps[1..], p);
    }
  }

  lemma {:induction false} MemoryKeepsPoints(full: bool, ps: seq<Point>)
    ensures ValuesAll(full, StatsOf(full, ps)) == AsStoredAll(full, ps)
    decreases |ps|
  {
    hide StatOf, ValuesOf, AsStored;
    if |ps| > 0 {
      StatKeepsPoint(full, ps[0]);
      MemoryKeepsPoints(full, ps[1..]);
    }
  }

  lemma {:induction false} BytesKeepPoints(full: bool, ps: seq<Point>)
    ensures forall s :: s in NormAll(StatsOf(full, ps)) ==> HasValue(s)
    ensures ValuesAll(full, NormAll(StatsOf(full, ps))) == AsStoredAll(full, ps)
       <==> forall p :: p in ps ==> NoNegativeZero(p)
    decreases |ps|
  {
    hide StatOf, ValuesOf, AsStored, NormStat, NoNegativeZero;
    if |ps| > 0 {
      var p, tail := ps[0], ps[1..];
      BytesKeepPoint(full, p);
      BytesKeepPoints(full, tail);
      NormCons(StatOf(full, p), StatsOf(full, tail));
      var s, ss := NormStat(StatOf(full, p)), NormAll(StatsOf(full, tail));
      assert NormAll(StatsOf(full, ps)) == [s] + ss;
      assert ([s] + ss)[1..] == ss;
      ConsEqual(ValuesOf(full, s), ValuesAll(full, ss), AsStored(full, p), AsStoredAll(full, tail));
      assert ps == [p] + tail;
    }
  }

  lemma NormCons(s: Stat, ss: seq<Stat>)
    ensures NormAll([s] + ss) == [NormStat(s)] + NormAll(ss)
  {
    hide NormStat;
  }

  lemma RecordOk(full: bool, p: Point)
    requires IsPoint(p)
    ensures OkStat(StatOf(full, p))
  {}

  lemma {:induction false} RecordsOk(full: bool, ps: seq<Point>)
    requires forall p :: p in ps ==> IsPoint(p)
    ensures forall s :: s in StatsOf(full, ps) ==> OkStat(s)
    decreases |ps|
  {
    hide StatOf, OkStat, IsPoint;
    if |ps| > 0 {
      RecordOk(full, ps[0]);
      RecordsOk(full, ps[1..]);
    }
  }

  class ProtobufTimeSeries {
    var T0: int
    var curTime: int
    var stats: Stats
    var len: nat
    var curCount: nat
    ghost var points: seq<Point>

    ghost predicate Valid()
      reads this
    {
      && (forall p :: p in points ==> IsPoint(p))
      && stats.stats == StatsOf(stats.fullResolution, points)
      && curCount == |points|
      && len == SizeSum(stats.stats)
    }

    constructor (t0: int, highTimeResolution: bool)
      ensures Valid() && points == [] && stats.fullResolution == highTimeResolution
      ensures T0 == t0 && curTime == 0
    {
      T0, curTime, len, curCount, points := t0, 0, 0, 0, [];
      stats := Stats(highTimeResolution, []);
    }

    method AddPoint(t: int, min: Word, max: Word, last: Word, sum: Word, count: int)
      requires Valid() && IsPoint(Point(t, min, max, last, sum, count))
      modifies this
      ensures Valid() && points == old(points) + [Point(t, min, max, last, sum, count)]
      ensures stats.fullResolution == old(stats.fullResolution)
      ensures T0 == (if t < old(T0) then t else old(T0)) && curTime == (if t > old(curTime) then t else old(curTime))
    {
      hide SameFloatVals, SplitNano, SizeStat, StatsOf, SizeSum;
      ghost var p := Point(t, min, max, last, sum, count);
      var useT := t;
      if !stats.fullResolution {
        useT := SplitNano(t).0;
      }
      var s;
      if count == 1 || SameFloatVals(min, max, last, sum) {
        s := Stat(false, None, Some(Small(useT, sum)));
      } else {
        s := Stat(true, Some(Full(useT, min, max, sum, last, count)), None);
      }
      assert s == StatOf(stats.fullResolution, p);
      StatsSnoc(stats.fullResolution, points, p);
      SizeSnoc(stats.stats, s);
      stats := stats.(stats := stats.stats + [s]);
      len := len + SizeStat(s);
      curCount := curCount + 1;
      points := points + [p];
      if t > curTime {
        curTime := t;
      }
      if t < T0 {
        T0 := t;
      }
    }

    /** The series as bytes. */
    method Bytes() returns (bs: seq<Byte>)
      requires Valid()
      ensures var full := stats.fullResolution;
              var back := NormAll(StatsOf(full, points));
              DecodeStats(NEW_STATS, bs) == Ok(Stats(full, back))
              && (forall s :: s in back ==> HasValue(s))
              && (ValuesAll(full, back) == AsStoredAll(full, points) <==> forall p :: p in points ==> NoNegativeZero(p))
    {
      hide DecodeStats, NormAll, StatsOf, EncodeStats, SizeStats, SizeSum, ValuesAll, NoNegativeZero;
      bs := Marshal(stats);
      RecordsOk(stats.fullResolution, points);
      BytesKeepPoints(stats.fullResolution, points);
    }

    /** An iterator over the list in memory yields every point. */
    method Iter() returns (it: ProtobufIter)
      requires Valid()
      ensures fresh(it) && it.Left() == stats.stats && it.fullResolution == stats.fullResolution
      ensures ValuesAll(it.fullResolution, it.Left()) == AsStoredAll(stats.fullResolution, points)
    {
      hide StatsOf, SizeSum;
      MemoryKeepsPoints(stats.fullResolution, points);
      it := new ProtobufIter(stats.stats, stats.fullResolution);
    }
  }

  function SizeSum(ss: seq<Stat>): (n: nat)
  {
    if |ss| == 0 then 0 else SizeStat(ss[0]) + SizeSum(ss[1..])
  }

  lemma {:induction false} SizeSnoc(ss: seq<Stat>, s: Stat)
    ensures SizeSum(ss + [s]) == SizeSum(ss) + SizeStat(s)
    decreases |ss|
  {
    hide SizeStat;
    if |ss| == 0 {
      assert ss + [s] == [s] && [s][1..] == [];
    } else {
      assert (ss + [s])[1..] == ss[1..] + [s];
      SizeSnoc(ss[1..], s);
    }
  }

  /** An iterator over bytes, or the error that the bytes hold. */
  method NewProtobufIterFromBytes(data: seq<Byte>) returns (it: ProtobufIter?, err: Option<Error>)
    ensures match DecodeStats(NEW_STATS, data)
            case Err(e) => it == null && err == Some(e)
            case Ok(m) => it != null && fresh(it) && err == None && it.Left() == m.stats
                          && it.fullResolution == m.fullResolution
  {
    hide DecodeStats;
    var r := UnmarshalStats(NEW_STATS, data);
    if r.Err? {
      return null, Some(r.error);
    }
    it := new ProtobufIter(r.value.stats, r.value.fullResolution);
    err := None;
  }

  class ProtobufIter {
    const Stats: seq<Stat>
    const fullResolution: bool
    var curIdx: nat
    var curStat: Stat

    /** The records still to come. */
    ghost function Left(): (ss: seq<Stat>)
      reads this
    {
      if curIdx <= |Stats| then Stats[curIdx..] else []
    }

    constructor (stats: seq<Stat>, full: bool)
      ensures Left() == stats && fullResolution == full
    {
      Stats, fullResolution, curIdx, curStat := stats, full, 0, NEW_STAT;
    }

    method Next() returns (ok: bool)
      modifies this
      ensures ok == (|old(Left())| > 0)
      ensures ok ==> curStat == old(Left())[0] && Left() == old(Left())[1..]
    {
      if curIdx >= |Stats| {
        return false;
      }
      curStat := Stats[curIdx];
      curIdx := curIdx + 1;
      ok := true;
    }

    /** Fails on a record without its value, which no series writes. */
    method Values() returns (p: Point)
      requires HasValue(curStat)
      ensures p == ValuesOf(fullResolution, curStat)
    {
      if curStat.statType {
        var f := curStat.stat.value;
        return Point(ShownTime(fullResolution, f.time), f.min, f.max, f.last, f.sum, f.count);
      }
      var v := curStat.small.value.val;
      return Point(ShownTime(fullResolution, curStat.small.value.time), v, v, v, v, 1);
    }

    /** The loop of every caller. */
    method Drain() returns (ps: seq<Point>)
      requires forall s :: s in Left() ==> HasValue(s)
      modifies this
      ensures forall s :: s in old(Left()) ==> HasValue(s)
      ensures ps == ValuesAll(fullResolution, old(Left()))
    {
      hide ValuesOf, HasValue, Left;
      ps := [];
      ghost var all := Left();
      ghost var rest := all;
      var more := Next();
      while more
        invariant more == (|rest| > 0) && forall s :: s in rest ==> HasValue(s)
        invariant more ==> curStat == rest[0] && Left() == rest[1..]
        invariant ps + ValuesAll(fullResolution, rest) == ValuesAll(fullResolution, all)
        decreases |rest|
      {
        var p := Values();
        ps := ps + [p];
        rest := Left();
        more := Next();
      }
    }
  }
}
