/** The gob series: deltas as typed tokens of a gob stream, and how the iterator adds them up again. */
module GobCode {
  import opened Bits
  import opened Float64
  import opened Points

  /** What one Encode call puts on the stream. Decoding into a variable of another type is an error. */
  datatype Token = TString(s: string) | TInt(v: int) | TBool(b: bool) | TFloat(w: Word) | TUint(w: Word)

  /** The five values that are stored as differences: min, max, last, sum and the count. */
  datatype Regs = Regs(min: Word, max: Word, last: Word, sum: Word, count: int)

  function RegsOf(p: Point): (r: Regs)
  {
    Regs(p.min, p.max, p.last, p.sum, p.count)
  }

  const NO_REGS := Regs(ZERO, ZERO, ZERO, ZERO, 0)

  /** The stamp that is stored: nanoseconds, or whole seconds at low resolution. */
  function UseTime(full: bool, t: int): (u: int)
    ensures IsInt64(t) ==> IsInt64(u)
  {
    if full then t else SplitNano(t).0
  }

  // ---- writing ----

  datatype Writer = Writer(full: bool, t0: int, curTime: int, regs: Regs)

  ghost function PointTokens(w: Writer, p: Point): (ts: seq<Token>)
    requires IsPoint(p)
  {
    var first := w.curTime == 0;
    var delta := ToInt64(UseTime(w.full, p.t) - (if first then w.t0 else w.curTime));
    if IsSmall(p) then
      [TInt(delta), TBool(false), if first then TFloat(p.sum) else TUint(Xor(w.regs.sum, p.sum))]
    else if first then
      [TInt(delta), TBool(true), TFloat(p.min), TFloat(p.max), TFloat(p.last), TFloat(p.sum), TInt(p.count)]
    else
      [TInt(delta), TBool(true), TUint(Xor(w.regs.min, p.min)), TUint(Xor(w.regs.max, p.max)),
       TUint(Xor(w.regs.last, p.last)), TUint(Xor(w.regs.sum, p.sum)), TInt(ToInt64(p.count - w.regs.count))]
  }

  function PointNext(w: Writer, p: Point): (w': Writer)
    requires IsPoint(p)
  {
    w.(curTime := UseTime(w.full, p.t), regs := RegsOf(p))
  }

  ghost function StreamTokens(w: Writer, ps: seq<Point>): (ts: seq<Token>)
    requires forall p :: p in ps ==> IsPoint(p)
    decreases |ps|
  {
    if |ps| == 0 then [] else PointTokens(w, ps[0]) + StreamTokens(PointNext(w, ps[0]), ps[1..])
  }

  function StreamNext(w: Writer, ps: seq<Point>): (w': Writer)
    requires forall p :: p in ps ==> IsPoint(p)
    decreases |ps|
  {
    if |ps| == 0 then w else StreamNext(PointNext(w, ps[0]), ps[1..])
  }

  lemma {:induction false} StreamSnoc(w: Writer, ps: seq<Point>, p: Point)
    requires (forall q :: q in ps ==> IsPoint(q)) && IsPoint(p)
    ensures StreamNext(w, ps + [p]) == PointNext(StreamNext(w, ps), p)
    ensures StreamTokens(w, ps + [p]) == StreamTokens(w, ps) + PointTokens(StreamNext(w, ps), p)
    decreases |ps|
  {
    hide PointTokens, PointNext;
    if |ps| == 0 {
      assert ps + [p] == [p] && [p][1..] == [];
      assert StreamTokens(w, [p]) == PointTokens(w, p) + StreamTokens(PointNext(w, p), []);
    } else {
      assert (ps + [p])[0] == ps[0] && (ps + [p])[1..] == ps[1..] + [p];
      StreamSnoc(PointNext(w, ps[0]), ps[1..], p);
    }
  }

  // ---- reading ----

  datatype Reader = Reader(full: bool, t0: int, curTime: int, tDelta: int, regs: Regs)

  datatype Step = Got(r: Reader, rest: seq<Token>) | Ended

  function ReadSmall(r: Reader, first: bool, ts: seq<Token>): (s: Step)
    ensures s.Got? ==> |s.rest| < |ts|
  {
    if |ts| < 1 then Ended
    else if first && ts[0].TFloat? then
      var v := ts[0].w;
      Got(r.(regs := Regs(v, v, v, v, 1)), ts[1..])
    else if !first && ts[0].TUint? then
      var v := Xor(r.regs.sum, ts[0].w);
      Got(r.(regs := Regs(v, v, v, v, 1)), ts[1..])
    else Ended
  }

  function ReadFull(r: Reader, first: bool, ts: seq<Token>): (s: Step)
    ensures s.Got? ==> |s.rest| < |ts|
  {
    if |ts| < 5 || !ts[4].TInt? then Ended
    else if first then
      if ts[0].TFloat? && ts[1].TFloat? && ts[2].TFloat? && ts[3].TFloat? then
        Got(r.(regs := Regs(ts[0].w, ts[1].w, ts[2].w, ts[3].w, ts[4].v)), ts[5..])
      else Ended
    else if ts[0].TUint? && ts[1].TUint? && ts[2].TUint? && ts[3].TUint? then
      var g := r.regs;
      Got(r.(regs := Regs(Xor(g.min, ts[0].w), Xor(g.max, ts[1].w), Xor(g.last, ts[2].w), Xor(g.sum, ts[3].w),
                          ToInt64(g.count + ts[4].v))), ts[5..])
    else Ended
  }

  /** One call of the iterator's Next that returns true, or the end of the stream. */
  function ReadPoint(r: Reader, ts: seq<Token>): (s: Step)
    ensures s.Got? ==> |s.rest| < |ts|
  {
    if |ts| < 2 || !ts[0].TInt? || !ts[1].TBool? then Ended
    else
      var first := r.curTime == 0;
      var delta := ToInt64(r.tDelta + ts[0].v);
      var r' := r.(tDelta := delta, curTime := ToInt64(r.t0 + delta));
      if ts[1].b then ReadFull(r', first, ts[2..]) else ReadSmall(r', first, ts[2..])
  }

  function Values(r: Reader): (p: Point)
  {
    Point(if r.full then r.curTime else CombineSecNano(r.curTime % M32, 0),
          r.regs.min, r.regs.max, r.regs.last, r.regs.sum, r.regs.count)
  }

  function DecodeAll(r: Reader, ts: seq<Token>): (ps: seq<Point>)
    decreases |ts|
  {
    match ReadPoint(r, ts)
    case Ended => []
    case Got(r', rest) => [Values(r')] + DecodeAll(r', rest)
  }

  // ---- the clock ----

  /** Writer and reader between points: the clocks agree, and so do the sums. The other registers may not. */
  ghost predicate Together(w: Writer, r: Reader)
  {
    && w.full == r.full && w.t0 == r.t0 && w.curTime == r.curTime
    && IsInt64(w.t0) && IsInt64(w.curTime) && IsInt64(r.tDelta) && IsInt64(r.regs.count) && IsInt64(w.regs.count)
    && (w.curTime != 0 ==> w.curTime == ToInt64(w.t0 + r.tDelta) && w.regs.sum == r.regs.sum)
    && (w.curTime == 0 ==> r.tDelta == 0)
  }

  lemma Int64Unique(a: int, b: int)
    requires IsInt64(a) && a % M64 == b % M64
    ensures ToInt64(b) == a
  {}

  lemma WrapSum(a: int, b: int)
    ensures ToInt64(a + ToInt64(b)) == ToInt64(a + b)
    ensures ToInt64(ToInt64(a) + b) == ToInt64(a + b)
  {
    WrapMod(a, b, ToInt64(b));
    WrapMod(b, a, ToInt64(a));
    Int64Unique(ToInt64(a + b), a + ToInt64(b));
    Int64Unique(ToInt64(a + b), ToInt64(a) + b);
  }

  lemma WrapMod(a: int, b: int, c: int)
    requires b % M64 == c % M64
    ensures (a + b) % M64 == (a + c) % M64
  {}

  /** The stamp is recovered by adding the differences up, whatever the order of the stamps. */
  lemma ClockBack(t0: int, cur: int, tDelta: int, u: int)
    requires IsInt64(u) && cur == ToInt64(t0 + tDelta)
    ensures ToInt64(t0 + ToInt64(tDelta + ToInt64(u - cur))) == u
  {
    hide ToInt64;
    WrapSum(tDelta, u - cur);
    WrapSum(t0, tDelta + (u - cur));
    WrapSum(t0 + tDelta, u - cur);
    assert ToInt64(t0 + tDelta + (u - cur)) == ToInt64(cur + (u - cur));
    assert cur + (u - cur) == u;
    InRange(u);
  }

  lemma InRange(u: int)
    requires IsInt64(u)
    ensures ToInt64(u) == u
  {}

  // ---- one point ----

  /** What the reader ends up with: a small point is its sum four times with a count of one; in a full
      point the difference that was between the registers stays. */
  function RegsAfter(w: Writer, r: Reader, p: Point): (g: Regs)
  {
    if IsSmall(p) then Regs(p.sum, p.sum, p.sum, p.sum, 1)
    else if w.curTime == 0 then RegsOf(p)
    else
      Regs(Xor(p.min, Xor(w.regs.min, r.regs.min)), Xor(p.max, Xor(w.regs.max, r.regs.max)),
           Xor(p.last, Xor(w.regs.last, r.regs.last)), p.sum,
           ToInt64(p.count + (r.regs.count - w.regs.count)))
  }

  lemma XorSwap(a: Word, b: Word, c: Word)
    ensures Xor(a, Xor(b, c)) == Xor(c, Xor(b, a))
    ensures Xor(a, Xor(a, c)) == c
  {
    assert Xor(a, Xor(b, c)) == Xor(c, Xor(b, a));
    assert Xor(a, Xor(a, c)) == c;
  }

  lemma TimeStep(w: Writer, r: Reader, u: int)
    requires Together(w, r) && IsInt64(u)
    ensures var delta := ToInt64(r.tDelta + ToInt64(u - (if w.curTime == 0 then w.t0 else w.curTime)));
            ToInt64(r.t0 + delta) == u
  {
    if w.curTime == 0 {
      InRange(w.t0);
      ClockBack(w.t0, w.t0, 0, u);
    } else {
      ClockBack(w.t0, w.curTime, r.tDelta, u);
    }
  }

  lemma PointRead(w: Writer, r: Reader, p: Point, rest: seq<Token>)
    requires Together(w, r) && IsPoint(p)
    ensures var s := ReadPoint(r, PointTokens(w, p) + rest);
            s.Got? && s.rest == rest && s.r.regs == RegsAfter(w, r, p)
            && s.r.full == r.full && s.r.t0 == r.t0 && IsInt64(s.r.tDelta)
            && s.r.curTime == UseTime(w.full, p.t) && s.r.curTime == ToInt64(s.r.t0 + s.r.tDelta)
  {
    hide Xor, ToInt64, UseTime, IsSmall;
    var ts := PointTokens(w, p);
    var u := UseTime(w.full, p.t);
    TimeStep(w, r, u);
    HeadTokens(ts, rest);
    var first := w.curTime == 0;
    if IsSmall(p) {
      assert ((ts + rest)[2..])[1..] == rest;
      XorSwap(w.regs.sum, p.sum, p.sum);
    } else {
      assert ((ts + rest)[2..])[5..] == rest;
      XorSwap(r.regs.min, w.regs.min, p.min);
      XorSwap(r.regs.max, w.regs.max, p.max);
      XorSwap(r.regs.last, w.regs.last, p.last);
      XorSwap(w.regs.sum, p.sum, p.sum);
      CountStep(r.regs.count, p.count, w.regs.count);
    }
  }

  lemma HeadTokens(ts: seq<Token>, rest: seq<Token>)
    requires |ts| >= 3
    ensures (ts + rest)[0] == ts[0] && (ts + rest)[1] == ts[1] && (ts + rest)[2..] == ts[2..] + rest
  {}

  lemma CountStep(had: int, count: int, was: int)
    ensures ToInt64(had + ToInt64(count - was)) == ToInt64(count + (had - was))
  {
    WrapSum(had, count - was);
    assert had + (count - was) == count + (had - was);
  }

  // ---- whole streams ----

  /** A small point that loses nothing when only its sum is kept. */
  predicate Clean(p: Point)
  {
    p.min == p.sum && p.max == p.sum && p.last == p.sum && p.count == 1
  }

  /** No full point comes after a small point that was not clean, unless a clean one or a zero stamp is in
      between; and no stamp before the last is zero, unless the stored start time is zero too. */
  predicate Safe(full: bool, t0: int, level: bool, ps: seq<Point>)
    decreases |ps|
  {
    |ps| == 0
    || var zero := UseTime(full, ps[0].t) == 0;
       && (zero && |ps| > 1 ==> t0 == 0)
       && (IsSmall(ps[0]) || level)
       && Safe(full, t0, zero || !IsSmall(ps[0]) || Clean(ps[0]), ps[1..])
  }

  lemma XorIdentity(a: Word, b: Word, c: Word)
    ensures Xor(a, Xor(b, c)) == a <==> b == c
  {
    if Xor(a, Xor(b, c)) == a {
      forall i | 0 <= i < 64 ensures b[i] == c[i] {
        assert Xor(a, Xor(b, c))[i] == a[i];
      }
      assert b == c;
    }
    assert Xor(a, Xor(b, b)) == a;
  }

  lemma CountIdentity(count: int, had: int, was: int)
    requires IsInt64(count) && IsInt64(had) && IsInt64(was)
    ensures ToInt64(count + (had - was)) == count <==> had == was
  {}

  /** A full point comes back right exactly when the registers were level before it. */
  lemma LevelAfter(w: Writer, r: Reader, p: Point)
    requires Together(w, r) && IsPoint(p)
    ensures var level := w.curTime == 0 || w.regs == r.regs;
            if IsSmall(p) then (RegsAfter(w, r, p) == RegsOf(p) <==> Clean(p))
            else (RegsAfter(w, r, p) == RegsOf(p) <==> level)
  {
    hide Xor, ToInt64;
    if !IsSmall(p) && w.curTime != 0 {
      XorIdentity(p.min, w.regs.min, r.regs.min);
      XorIdentity(p.max, w.regs.max, r.regs.max);
      XorIdentity(p.last, w.regs.last, r.regs.last);
      CountIdentity(p.count, r.regs.count, w.regs.count);
    }
  }

  lemma NextTogether(w: Writer, r: Reader, p: Point, rest: seq<Token>)
    requires Together(w, r) && IsPoint(p) && (UseTime(w.full, p.t) != 0 || w.t0 == 0)
    ensures var s := ReadPoint(r, PointTokens(w, p) + rest);
            s.Got? && Together(PointNext(w, p), s.r) && s.r.regs == RegsAfter(w, r, p)
  {
    hide PointTokens, ReadPoint, Xor, ToInt64, UseTime;
    PointRead(w, r, p, rest);
    InRange(ReadPoint(r, PointTokens(w, p) + rest).r.tDelta);
  }

  /** The stored start time: an int64, and at low resolution the seconds of one. */
  predicate IsStart(full: bool, t0: int)
  {
    IsInt64(t0) && (full || 0 <= t0 < M32)
  }

  lemma LostStart(t0: int, tDelta: int, u: int)
    requires IsInt64(t0) && IsInt64(u) && 0 == ToInt64(t0 + tDelta)
    ensures ToInt64(t0 + ToInt64(tDelta + ToInt64(u - t0))) == ToInt64(u - t0)
    ensures ToInt64(u - t0) == u <==> t0 == 0
  {
    CountIdentity(u, 0, t0);
    hide ToInt64;
    WrapSum(tDelta, u - t0);
    WrapSum(t0, tDelta + (u - t0));
    WrapSum(t0 + tDelta, u - t0);
  }

  lemma LostSeconds(t0: int, u: int)
    requires 0 < t0 < M32 && 0 <= u < M32
    ensures ToInt64(u - t0) % M32 != u
  {
  }

  /** After a zero stamp the writer counts from the start time again, which the reader has already added:
      the next stamp comes back wrong. */
  lemma StampLost(w: Writer, r: Reader, p: Point, rest: seq<Token>)
    requires IsPoint(p) && IsStart(w.full, w.t0) && w.t0 != 0
    requires w.full == r.full && w.t0 == r.t0 && w.curTime == 0 && 0 == ToInt64(r.t0 + r.tDelta)
    ensures var s := ReadPoint(r, PointTokens(w, p) + rest);
            s.Got? ==> Values(s.r).t != AsStored(w.full, p).t
  {
    hide Xor, ToInt64, IsSmall;
    var ts, u := PointTokens(w, p), UseTime(w.full, p.t);
    HeadTokens(ts, rest);
    LostStart(w.t0, r.tDelta, u);
    if !w.full {
      LostSeconds(w.t0, u);
    }
  }

  lemma TailLost(w: Writer, r: Reader, ps: seq<Point>)
    requires |ps| > 0 && (forall p :: p in ps ==> IsPoint(p)) && IsStart(w.full, w.t0) && w.t0 != 0
    requires w.full == r.full && w.t0 == r.t0 && w.curTime == 0 && 0 == ToInt64(r.t0 + r.tDelta)
    ensures DecodeAll(r, StreamTokens(w, ps)) != AsStoredAll(w.full, ps)
  {
    hide PointTokens, ReadPoint, Values, AsStored, ToInt64;
    var rest := StreamTokens(PointNext(w, ps[0]), ps[1..]);
    StampLost(w, r, ps[0], rest);
    var s := ReadPoint(r, PointTokens(w, ps[0]) + rest);
    if s.Got? {
      ConsEqual(Values(s.r), DecodeAll(s.r, s.rest), AsStored(w.full, ps[0]), AsStoredAll(w.full, ps[1..]));
    }
  }

  lemma ValueRight(w: Writer, r: Reader, p: Point, rest: seq<Token>)
    requires Together(w, r) && IsPoint(p)
    ensures var s := ReadPoint(r, PointTokens(w, p) + rest);
            s.Got? && (Values(s.r) == AsStored(w.full, p) <==> IsSmall(p) || RegsAfter(w, r, p) == RegsOf(p))
  {
    hide PointTokens, ReadPoint, Xor, ToInt64;
    PointRead(w, r, p, rest);
  }

  /** The gob round trip, exactly: the points come back if and only if the sequence is safe. */
  lemma {:induction false} StreamExact(w: Writer, r: Reader, ps: seq<Point>)
    requires (forall p :: p in ps ==> IsPoint(p)) && (|ps| > 0 ==> Together(w, r)) && IsStart(w.full, w.t0)
    ensures DecodeAll(r, StreamTokens(w, ps)) == AsStoredAll(w.full, ps)
       <==> Safe(w.full, w.t0, w.curTime == 0 || w.regs == r.regs, ps)
    decreases |ps|
  {
    hide PointTokens, ReadPoint, Together, Values, AsStored, RegsAfter, UseTime, IsSmall, ToInt64;
    if |ps| > 0 {
      var p, tail := ps[0], ps[1..];
      var w', rest := PointNext(w, p), StreamTokens(PointNext(w, p), ps[1..]);
      var s := ReadPoint(r, PointTokens(w, p) + rest);
      ValueRight(w, r, p, rest);
      LevelAfter(w, r, p);
      PointRead(w, r, p, rest);
      ConsEqual(Values(s.r), DecodeAll(s.r, rest), AsStored(w.full, p), AsStoredAll(w.full, tail));
      if |tail| > 0 && w'.curTime == 0 && w.t0 != 0 {
        TailStart(w, r);
        TailLost(w', s.r, tail);
      } else {
        if |tail| > 0 {
          NextTogether(w, r, p, rest);
        }
        StreamExact(w', s.r, tail);
      }
    }
  }

  lemma TailStart(w: Writer, r: Reader)
    requires Together(w, r)
    ensures w.full == r.full && w.t0 == r.t0
  {
  }

  function NewWriter(full: bool, t0: int): (w: Writer)
    requires IsInt64(t0)
    ensures IsStart(full, w.t0)
  {
    Writer(full, UseTime(full, t0), 0, NO_REGS)
  }

  function NewReader(full: bool, t0: int): (r: Reader)
    requires IsInt64(t0)
  {
    Reader(full, UseTime(full, t0), 0, 0, NO_REGS)
  }

  /** The gob round trip of a whole series, for every sequence of points. */
  lemma RoundTripExact(full: bool, t0: int, ps: seq<Point>)
    requires IsInt64(t0) && forall p :: p in ps ==> IsPoint(p)
    ensures DecodeAll(NewReader(full, t0), StreamTokens(NewWriter(full, t0), ps)) == AsStoredAll(full, ps)
       <==> Safe(full, UseTime(full, t0), true, ps)
  {
    hide DecodeAll, StreamTokens, AsStoredAll, Safe, UseTime;
    StreamExact(NewWriter(full, t0), NewReader(full, t0), ps);
  }

  /** Two points that show it: a count of one with different values, then a full point. */
  lemma UnsafeExample(a: Word, b: Word, c: Word)
    requires a != b && !IsNaN(a) && !IsNaN(b) && !FloatEq(b, c)
    ensures var small := Point(1, a, a, a, b, 1);
            var full := Point(2, b, c, c, c, 2);
            DecodeAll(NewReader(true, 1), StreamTokens(NewWriter(true, 1), [small, full]))
              != AsStoredAll(true, [small, full])
  {
    hide DecodeAll, StreamTokens, AsStoredAll, IsNaN, FloatEq, Xor;
    var small, full := Point(1, a, a, a, b, 1), Point(2, b, c, c, c, 2);
    assert [small, full][1..] == [full];
    assert IsSmall(small) && !Clean(small) && !IsSmall(full);
    assert !Safe(true, 1, false, [full]);
    RoundTripExact(true, 1, [small, full]);
  }

  lemma {:induction false} ZeroIsUnsafe(full: bool, t0: int, level: bool, ps: seq<Point>, i: nat)
    requires t0 != 0 && i < |ps| - 1 && UseTime(full, ps[i].t) == 0
    ensures !Safe(full, t0, level, ps)
    decreases |ps|
  {
    hide UseTime;
    if i > 0 {
      ZeroIsUnsafe(full, t0, UseTime(full, ps[0].t) == 0 || !IsSmall(ps[0]) || Clean(ps[0]), ps[1..], i - 1);
    }
  }

  /** A stamp of zero is taken for "no point yet": no series with one before its last point comes back, at
      either resolution and wherever it stands, unless the stored start time is zero. */
  lemma ZeroStampBreaks(full: bool, t0: int, ps: seq<Point>, i: nat)
    requires IsInt64(t0) && UseTime(full, t0) != 0 && forall p :: p in ps ==> IsPoint(p)
    requires i < |ps| - 1 && UseTime(full, ps[i].t) == 0
    ensures DecodeAll(NewReader(full, t0), StreamTokens(NewWriter(full, t0), ps)) != AsStoredAll(full, ps)
  {
    hide DecodeAll, StreamTokens, AsStoredAll, Safe, UseTime;
    RoundTripExact(full, t0, ps);
    ZeroIsUnsafe(full, UseTime(full, t0), true, ps, i);
  }

  lemma {:induction false} ResolutionKept(w: Writer, ps: seq<Point>)
    requires forall p :: p in ps ==> IsPoint(p)
    ensures StreamNext(w, ps).full == w.full
    decreases |ps|
  {
    if |ps| > 0 {
      ResolutionKept(PointNext(w, ps[0]), ps[1..]);
    }
  }

  /** The tokens of p after a writer that holds q. */
  predicate Differences(full: bool, q: Point, p: Point, ts: seq<Token>)
  {
    && |ts| == (if IsSmall(p) then 3 else 7)
    && ts[0] == TInt(ToInt64(UseTime(full, p.t) - UseTime(full, q.t))) && ts[1] == TBool(!IsSmall(p))
    && (IsSmall(p) ==> ts[2] == TUint(Xor(q.sum, p.sum)))
    && (!IsSmall(p) ==>
          && ts[2] == TUint(Xor(q.min, p.min)) && ts[3] == TUint(Xor(q.max, p.max))
          && ts[4] == TUint(Xor(q.last, p.last)) && ts[5] == TUint(Xor(q.sum, p.sum))
          && ts[6] == TInt(ToInt64(p.count - q.count)))
  }

  lemma TokensAfter(w: Writer, q: Point, p: Point)
    requires IsPoint(p) && w.regs == RegsOf(q) && w.curTime == UseTime(w.full, q.t) != 0
    ensures Differences(w.full, q, p, PointTokens(w, p))
  {
    hide IsSmall, UseTime, ToInt64, Xor;
  }

  /** Over every stream a point is written as its difference to the point before, small or not: the step of the
      clock, then the sum alone or minimum, maximum, last, sum and count. */
  lemma CodedAgainstLast(full: bool, t0: int, ps: seq<Point>, q: Point, p: Point)
    requires IsInt64(t0) && (forall x :: x in ps ==> IsPoint(x)) && IsPoint(q) && IsPoint(p)
    requires UseTime(full, q.t) != 0
    ensures Differences(full, q, p, PointTokens(StreamNext(NewWriter(full, t0), ps + [q]), p))
  {
    hide UseTime, PointTokens, StreamTokens, StreamNext, Differences, IsPoint;
    var w := NewWriter(full, t0);
    StreamSnoc(w, ps, q);
    ResolutionKept(w, ps);
    TokensAfter(StreamNext(w, ps + [q]), q, p);
  }
}
