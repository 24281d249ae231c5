/** The gob time series and its iterator, as the objects that write and read the token stream. */
module Gob {
  import opened Bits
  import opened Float64
  import opened Points
  import opened GobCode

  const TAG := "gobn"
  const TAG_LOWRES := "gobl"
  const ZIP_TAG_LOWRES := "zbtl"

  class GobTimeSeries {
    const T0: int
    const fullResolution: bool
    const sTag: string
    var curDelta: int
    var curTime: int
    var curCountDelta: int
    var curVals: seq<Word>
    var curValDeltas: seq<Word>
    var curValCount: int
    var buf: seq<Token>
    var curCount: nat

    /** The points added so far. */
    ghost var points: seq<Point>

    ghost function State(): (w: Writer)
      requires |curVals| == 4
      reads this
    {
      Writer(fullResolution, T0, curTime, Regs(curVals[0], curVals[1], curVals[2], curVals[3], curValCount))
    }

    ghost predicate Valid()
      reads this
    {
      && |curVals| == 4 && |curValDeltas| == 4
      && IsStart(fullResolution, T0) && sTag == (if fullResolution then TAG else TAG_LOWRES)
      && (forall p :: p in points ==> IsPoint(p))
      && curCount == |points|
      && State() == StreamNext(Writer(fullResolution, T0, 0, NO_REGS), points)
      && buf == [TString(sTag), TInt(T0)] + StreamTokens(Writer(fullResolution, T0, 0, NO_REGS), points)
    }

    constructor (t0: int, highTimeResolution: bool)
      requires IsInt64(t0)
      ensures Valid() && points == [] && fullResolution == highTimeResolution && T0 == UseTime(fullResolution, t0)
    {
      fullResolution := highTimeResolution;
      T0 := if highTimeResolution then t0 else SplitNano(t0).0;
      sTag := if highTimeResolution then TAG else TAG_LOWRES;
      curDelta, curTime, curCountDelta, curValCount, curCount := 0, 0, 0, 0, 0;
      curVals := [ZERO, ZERO, ZERO, ZERO];
      curValDeltas := [ZERO, ZERO, ZERO, ZERO];
      points := [];
      buf := [];
      new;
      Encode(TString(sTag));
      Encode(TInt(T0));
      assert buf == [TString(sTag), TInt(T0)] + [];
    }

    method Encode(t: Token)
      modifies this`buf
      ensures buf == old(buf) + [t]
    {
      buf := buf + [t];
    }

    /** Just the sum. */
    method EncodeSum()
      requires |curVals| == 4 && |curValDeltas| == 4
      modifies this`buf
      ensures buf == old(buf) + [TBool(false), if curTime == 0 then TFloat(curVals[3]) else TUint(curValDeltas[3])]
    {
      Encode(TBool(false));
      if curTime == 0 {
        Encode(TFloat(curVals[3]));
      } else {
        Encode(TUint(curValDeltas[3]));
      }
    }

    method EncodeAll()
      requires |curVals| == 4 && |curValDeltas| == 4
      modifies this`buf
      ensures buf == old(buf) + (if curTime == 0
        then [TBool(true), TFloat(curVals[0]), TFloat(curVals[1]), TFloat(curVals[2]), TFloat(curVals[3]),
              TInt(curValCount)]
        else [TBool(true), TUint(curValDeltas[0]), TUint(curValDeltas[1]), TUint(curValDeltas[2]),
              TUint(curValDeltas[3]), TInt(curCountDelta)])
    {
      Encode(TBool(true));
      if curTime == 0 {
        Encode(TFloat(curVals[0]));
        Encode(TFloat(curVals[1]));
        Encode(TFloat(curVals[2]));
        Encode(TFloat(curVals[3]));
        Encode(TInt(curValCount));
      } else {
        Encode(TUint(curValDeltas[0]));
        Encode(TUint(curValDeltas[1]));
        Encode(TUint(curValDeltas[2]));
        Encode(TUint(curValDeltas[3]));
        Encode(TInt(curCountDelta));
      }
    }

    /** Appends one point: the stamp as a difference, then the sum alone or all five values. */
    method AddPoint(t: int, min: Word, max: Word, last: Word, sum: Word, count: int)
      requires Valid() && IsPoint(Point(t, min, max, last, sum, count))
      modifies this
      ensures Valid() && points == old(points) + [Point(t, min, max, last, sum, count)]
    {
      hide Xor, ToInt64, StreamTokens, StreamNext, SameFloatVals, SplitNano;
      ghost var p, w, before := Point(t, min, max, last, sum, count), State(), buf;
      var useT := t;
      if !fullResolution {
        useT := SplitNano(t).0;
      }
      TakeDeltas(useT, min, max, last, sum, count);
      Encode(TInt(curDelta));
      if count == 1 || SameFloatVals(min, max, last, sum) {
        EncodeSum();
      } else {
        EncodeAll();
      }
      assert buf == before + PointTokens(w, p);
      curTime := useT;
      curValCount := count;
      curCount := curCount + 1;
      Extend(w, p, before);
    }

    /** The differences to the point before. */
    method TakeDeltas(useT: int, min: Word, max: Word, last: Word, sum: Word, count: int)
      requires |curVals| == 4 && |curValDeltas| == 4
      modifies this`curDelta, this`curVals, this`curValDeltas, this`curValCount, this`curCountDelta
      ensures curVals == [min, max, last, sum] && |curValDeltas| == 4
      ensures curDelta == ToInt64(useT - (if curTime == 0 then T0 else curTime))
      ensures curTime == 0 ==> curValCount == count
      ensures curTime != 0 ==>
                curValDeltas == [Xor(old(curVals)[0], min), Xor(old(curVals)[1], max), Xor(old(curVals)[2], last),
                                 Xor(old(curVals)[3], sum)]
                && curCountDelta == ToInt64(count - old(curValCount))
    {
      hide Xor, ToInt64;
      if curTime == 0 {
        curDelta := ToInt64(useT - T0);
        curVals := [min, max, last, sum];
        curValCount := count;
      } else {
        curDelta := ToInt64(useT - curTime);
        curValDeltas := [Xor(curVals[0], min), Xor(curVals[1], max), Xor(curVals[2], last), Xor(curVals[3], sum)];
        curVals := [min, max, last, sum];
        curCountDelta := ToInt64(count - curValCount);
      }
    }

    /** Records a point whose tokens are already on the stream. */
    ghost method Extend(w: Writer, p: Point, before: seq<Token>)
      requires |curVals| == 4 && |curValDeltas| == 4
      requires IsStart(fullResolution, T0) && sTag == (if fullResolution then TAG else TAG_LOWRES)
      requires (forall q :: q in points ==> IsPoint(q)) && IsPoint(p) && curCount == |points| + 1
      requires w == StreamNext(Writer(fullResolution, T0, 0, NO_REGS), points) && State() == PointNext(w, p)
      requires before == [TString(sTag), TInt(T0)] + StreamTokens(Writer(fullResolution, T0, 0, NO_REGS), points)
      requires buf == before + PointTokens(w, p)
      modifies this`points
      ensures Valid() && points == old(points) + [p]
    {
      hide PointTokens, PointNext, StreamTokens, StreamNext;
      StreamSnoc(Writer(fullResolution, T0, 0, NO_REGS), points, p);
      points := points + [p];
    }

    /** A snapshot: an iterator over a copy of the stream. */
    method Iter() returns (it: GobIter)
      requires Valid()
      ensures fresh(it) && !it.finished
      ensures it.Pending() == DecodeAll(Reader(fullResolution, T0, 0, 0, NO_REGS), buf[2..])
      ensures it.Pending() == AsStoredAll(fullResolution, points) <==> Safe(fullResolution, T0, true, points)
    {
      hide DecodeAll, StreamTokens, StreamNext, AsStoredAll, Safe, UseTime;
      it := new GobIter(buf);
      var w, r := Writer(fullResolution, T0, 0, NO_REGS), Reader(fullResolution, T0, 0, 0, NO_REGS);
      assert buf[2..] == StreamTokens(w, points);
      StreamExact(w, r, points);
    }
  }

  class GobIter {
    var T0: int
    var curTime: int
    var tDelta: int
    const fullResolution: bool
    var min: Word
    var max: Word
    var last: Word
    var sum: Word
    var count: int
    var decoder: seq<Token>
    var finished: bool

    ghost function State(): (r: Reader)
      reads this
    {
      Reader(fullResolution, T0, curTime, tDelta, Regs(min, max, last, sum, count))
    }

    /** Everything that calls of Next will still yield. */
    ghost function Pending(): (ps: seq<Point>)
      reads this
    {
      DecodeAll(State(), decoder)
    }

    constructor (buf: seq<Token>)
      requires |buf| >= 2 && buf[0].TString? && buf[1].TInt?
      ensures State() == Reader(buf[0].s != TAG_LOWRES && buf[0].s != ZIP_TAG_LOWRES, buf[1].v, 0, 0, NO_REGS)
      ensures decoder == buf[2..] && !finished
    {
      fullResolution := buf[0].s != TAG_LOWRES && buf[0].s != ZIP_TAG_LOWRES;
      T0 := buf[1].v;
      curTime, tDelta, count, finished := 0, 0, 0, false;
      min, max, last, sum := ZERO, ZERO, ZERO, ZERO;
      decoder := buf[2..];
    }

    /** The next token, if it is of the wanted kind. */
    method Decode(wanted: Token -> bool) returns (t: Token, ok: bool)
      modifies this`decoder
      ensures ok == (|old(decoder)| > 0 && wanted(old(decoder)[0]))
      ensures ok ==> t == old(decoder)[0] && decoder == old(decoder)[1..]
    {
      if |decoder| == 0 || !wanted(decoder[0]) {
        return TBool(false), false;
      }
      t, decoder, ok := decoder[0], decoder[1..], true;
    }

    method Next() returns (ok: bool)
      modifies this
      ensures old(finished) ==> !ok && State() == old(State()) && decoder == old(decoder) && finished
      ensures !old(finished) ==>
                match ReadPoint(old(State()), old(decoder))
                case Ended => !ok && finished
                case Got(r, rest) => ok && State() == r && decoder == rest && !finished
    {
      hide Xor, ToInt64;
      if finished {
        return false;
      }
      ghost var ts := decoder;
      var delta, good := Decode((x: Token) => x.TInt?);
      if !good {
        finished := true;
        return false;
      }
      var isStart := curTime == 0;
      tDelta := ToInt64(tDelta + delta.v);
      curTime := ToInt64(T0 + tDelta);
      var fBit, good2 := Decode((x: Token) => x.TBool?);
      if !good2 {
        finished := true;
        return false;
      }
      assert decoder == ts[2..];
      if !fBit.b {
        ok := NextSmall(isStart);
      } else {
        ok := NextFull(isStart);
      }
    }

    method NextSmall(isStart: bool) returns (ok: bool)
      requires !finished
      modifies this
      ensures match ReadSmall(old(State()), isStart, old(decoder))
              case Ended => !ok && finished
              case Got(r, rest) => ok && State() == r && decoder == rest && !finished
    {
      hide Xor;
      var v, good := Decode(if isStart then (x: Token) => x.TFloat? else (x: Token) => x.TUint?);
      if !good {
        finished := true;
        return false;
      }
      sum := if isStart then v.w else Xor(sum, v.w);
      min, max, last, count := sum, sum, sum, 1;
      ok := true;
    }

    method NextFull(isStart: bool) returns (ok: bool)
      requires !finished
      modifies this
      ensures match ReadFull(old(State()), isStart, old(decoder))
              case Ended => !ok && finished
              case Got(r, rest) => ok && State() == r && decoder == rest && !finished
    {
      hide Xor, ToInt64;
      ghost var ts := decoder;
      var good;
      min, max, good := DecodeTwo(isStart, min, max);
      if !good {
        finished := true;
        return false;
      }
      last, sum, good := DecodeTwo(isStart, last, sum);
      if !good {
        finished := true;
        return false;
      }
      assert decoder == ts[4..];
      var c, okCount := Decode((x: Token) => x.TInt?);
      if !okCount {
        finished := true;
        return false;
      }
      assert decoder == ts[5..];
      count := if isStart then c.v else ToInt64(count + c.v);
      ok := true;
    }

    static predicate Stored(isStart: bool, t: Token)
    {
      if isStart then t.TFloat? else t.TUint?
    }

    static function Restored(isStart: bool, had: Word, t: Token): (v: Word)
      requires Stored(isStart, t)
    {
      if isStart then t.w else Xor(had, t.w)
    }

    method DecodeTwo(isStart: bool, a: Word, b: Word) returns (a': Word, b': Word, ok: bool)
      modifies this`decoder
      ensures ok == (|old(decoder)| >= 2 && Stored(isStart, old(decoder)[0]) && Stored(isStart, old(decoder)[1]))
      ensures ok ==> decoder == old(decoder)[2..]
                     && a' == Restored(isStart, a, old(decoder)[0]) && b' == Restored(isStart, b, old(decoder)[1])
    {
      hide Xor;
      b' := b;
      a', ok := DecodeWord(isStart, a);
      if ok {
        b', ok := DecodeWord(isStart, b);
      }
    }

    /** A value: stored whole at the start, as a difference later. */
    method DecodeWord(isStart: bool, had: Word) returns (v: Word, ok: bool)
      modifies this`decoder
      ensures ok == (|old(decoder)| > 0 && Stored(isStart, old(decoder)[0]))
      ensures ok ==> decoder == old(decoder)[1..] && v == Restored(isStart, had, old(decoder)[0])
    {
      hide Xor;
      var t;
      t, ok := Decode(if isStart then (x: Token) => x.TFloat? else (x: Token) => x.TUint?);
      v := if !ok then had else if isStart then t.w else Xor(had, t.w);
    }

    method Values() returns (p: Point)
      ensures p == GobCode.Values(State())
    {
      var t := curTime;
      if !fullResolution {
        t := CombineSecNano(curTime % M32, 0);
      }
      return Point(t, min, max, last, sum, count);
    }

    /** The loop of every caller: all that is pending comes out, in order. */
    method Drain() returns (ps: seq<Point>)
      requires !finished
      modifies this
      ensures ps == old(Pending()) && finished
    {
      hide GobCode.Values, ReadPoint;
      ps := [];
      ghost var all := Pending();
      var more := Next();
      while more
        invariant if more then !finished && ps + [GobCode.Values(State())] + Pending() == all else ps == all && finished
        decreases more, |decoder|
      {
        var p := Values();
        ps := ps + [p];
        assert ps + [] == ps;
        more := Next();
      }
    }
  }
}
