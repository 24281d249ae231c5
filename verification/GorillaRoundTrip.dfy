/** The Gorilla round trip over whole streams. */
module GorillaRoundTrip {
  import opened Bits
  import opened Float64
  import opened Points
  import opened GorillaValue
  import opened GorillaTime
  import opened GorillaCode

  // ---- one slot, five slots ----

  ghost predicate Agree(a: Slot, b: Slot)
  {
    a.val == b.val && InStep(a.win, b.win)
  }

  ghost predicate AgreeAll(ss: seq<Slot>, rs: seq<Slot>)
  {
    |ss| == |rs| && forall i :: 0 <= i < |ss| ==> Agree(ss[i], rs[i])
  }

  lemma SlotInStep(a: Slot, b: Slot, v: Word, first: bool, rest: seq<bool>)
    requires Agree(a, b)
    ensures var r := Get(b, first, PutBits(a, v, first) + rest);
            r.SlotRead? && r.rest == rest && r.slot.val == v && Agree(Put(a, v, first), r.slot)
  {
    if first {
      assert (v + rest)[..64] == v && (v + rest)[64..] == rest;
    } else {
      ValueInStep(a.val, v, a.win, b.win, rest);
    }
  }

  lemma {:induction false} SlotsInStep(ss: seq<Slot>, rs: seq<Slot>, vs: seq<Word>, first: bool, rest: seq<bool>)
    requires AgreeAll(ss, rs) && |vs| == |ss|
    ensures var r := GetAll(rs, first, PutAllBits(ss, vs, first) + rest);
            r.SlotsRead? && r.rest == rest && AgreeAll(PutAll(ss, vs, first), r.slots)
            && forall i :: 0 <= i < |vs| ==> r.slots[i].val == vs[i]
    decreases |ss|
  {
    hide PutBits, Put, Get;
    if |ss| == 0 {
      assert PutAllBits(ss, vs, first) + rest == rest;
    } else {
      var tail := PutAllBits(ss[1..], vs[1..], first) + rest;
      assert PutAllBits(ss, vs, first) + rest == PutBits(ss[0], vs[0], first) + tail;
      SlotInStep(ss[0], rs[0], vs[0], first, tail);
      SlotsInStep(ss[1..], rs[1..], vs[1..], first, rest);
    }
  }

  // ---- the clock ----

  /** Registers of both sides between points. The reader's clock may lag behind by `drift`, which
      grows by `lag` at every step; both are zero in a good stream. */
  ghost predicate Together(w: Writer, r: Reader, lag: int, drift: int)
  {
    && w.full == r.full
    && w.ts == r.ts
    && Agree(w.ms, r.ms)
    && (!w.full ==> w.ms.val == ZERO)
    && AgreeAll(w.slots, r.slots)
    && |w.slots| == 5
    && r.tDelta == (w.curDelta - lag) % M32
    && r.curTime == (w.curTime - drift) % M32
  }

  lemma ModCancel(a: int, b: int, m: int)
    requires m > 0
    ensures (a % m + b) % m == (a + b) % m
    ensures (a + b % m) % m == (a + b) % m
  {
    var x := (a + b) % m;
    assert a + b == m * ((a + b) / m) + x;
    assert a == m * (a / m) + a % m;
    assert b == m * (b / m) + b % m;
    assert a % m + b == m * ((a + b) / m - a / m) + x;
    assert a + b % m == m * ((a + b) / m - b / m) + x;
    DivModUnique(a % m + b, m, (a + b) / m - a / m, x);
    DivModUnique(a + b % m, m, (a + b) / m - b / m, x);
  }

  /** A step change carries the reader's clock to the new stamp, with the lag added once more. */
  lemma ClockStep(curTime: int, curDelta: int, sec: int, lag: int, drift: int, dod: int)
    requires dod % M32 == ((sec - curTime) % M32 - curDelta) % M32
    ensures ((curDelta - lag) % M32 + dod) % M32 == ((sec - curTime) % M32 - lag) % M32
    ensures ((curTime - drift) % M32 + ((sec - curTime) % M32 - lag) % M32) % M32 == (sec - (drift + lag)) % M32
  {
    var step := (sec - curTime) % M32;
    ModCancel(curDelta - lag, dod, M32);
    ModCancel(curDelta - lag, dod, M32);
    ModCancel(curDelta - lag, step - curDelta, M32);
    ModCancel(curTime - drift, (step - lag) % M32, M32);
    ModCancel(curTime - drift, step - lag, M32);
    ModCancel(sec - curTime, curTime - drift - lag, M32);
  }

  lemma MsInStep(w: Writer, r: Reader, nano: nat, rest: seq<bool>)
    requires w.full == r.full && Agree(w.ms, r.ms) && nano < BILLION
    ensures var x := ReadMs(r, MsBits(w, nano) + rest);
            x.TimeRead? && x.rest == rest && x.r == r.(ms := x.r.ms) && Agree(MsNext(w, nano), x.r.ms)
            && MsNext(w, nano).val == (if w.full then FloatOfInt(nano) else w.ms.val)
  {
    if w.full {
      SlotInStep(w.ms, r.ms, FloatOfInt(nano), false, rest);
    } else {
      assert MsBits(w, nano) + rest == rest;
    }
  }

  lemma TimeInStep(w: Writer, r: Reader, t: int, lag: int, drift: int, rest: seq<bool>)
    requires Together(w, r, lag, drift) && w.curTime != 0 && !r.start
    ensures var x := ReadTime(r, TimeBits(w, t) + rest);
            x.TimeRead? && x.rest == rest && !x.r.start && x.r.slots == r.slots
            && Together(TimeNext(w, t), x.r, lag, drift + lag)
  {
    hide FloatOfInt, DodBits, CompressBits, CompressWindow, Uncompress, ReadDod;
    var (sec, nano) := SplitNano(t);
    var dod := ToInt32((sec - w.curTime) % M32 - w.curDelta);
    var tail := MsBits(w, nano) + rest;
    assert TimeBits(w, t) + rest == DodBits(dod) + tail;
    DodInStep(dod, tail);
    ClockStep(w.curTime, w.curDelta, sec, lag, drift, dod);
    MsInStep(w, NextStep(r, dod), nano, rest);
  }

  /** How far the first step overflows the 14 bits it is stored in. */
  function Lag(ts: nat, p: Point): (lag: int)
    ensures lag >= 0
  {
    var delta := (SplitNano(p.t).0 - ts) % M32;
    delta - delta % 16384
  }

  lemma FirstField(delta: nat, tail: seq<bool>)
    ensures var bits := FromInt(delta, 14) + tail;
            ToNat(bits[..14]) == delta % 16384 && bits[14..] == tail
  {
    var field := FromInt(delta, 14);
    assert (field + tail)[..14] == field && (field + tail)[14..] == tail;
    Pow2Small();
    ToNatFromInt(delta, 14);
  }

  lemma FirstClock(ts: int, sec: int, delta: int, lag: int)
    requires delta == (sec - ts) % M32 && lag == delta - delta % 16384
    ensures (delta - lag) % M32 == delta % 16384
    ensures (ts + delta % 16384) % M32 == (sec - lag) % M32
  {
    ModCancel(ts - lag, sec - ts, M32);
  }

  lemma FirstTimeInStep(w: Writer, r: Reader, p: Point, rest: seq<bool>)
    requires Together(w, r, 0, 0) && w.curTime == 0 && r.start
    ensures var x := ReadTime(r, TimeBits(w, p.t) + rest);
            x.TimeRead? && x.rest == rest && x.r.start && x.r.slots == r.slots
            && Together(TimeNext(w, p.t), x.r, Lag(w.ts, p), Lag(w.ts, p))
  {
    hide FloatOfInt, FromInt, ToNat, CompressBits, CompressWindow, Uncompress;
    var (sec, nano) := SplitNano(p.t);
    var delta := (sec - w.ts) % M32;
    var tail := MsBits(w, nano) + rest;
    assert TimeBits(w, p.t) + rest == FromInt(delta, 14) + tail;
    FirstField(delta, tail);
    FirstClock(w.ts, sec, delta, Lag(w.ts, p));
    MsInStep(w, FirstStep(r, delta % 16384), nano, rest);
  }

  // ---- the values ----

  lemma ValuesInStep(w: Writer, r: Reader, p: Point, rest: seq<bool>)
    requires OkWriter(w) && AgreeAll(w.slots, r.slots) && |r.slots| == 5 && r.start == (w.curTime == 0) && IsPoint(p)
    ensures var s := ReadValues(r, ValueBits(w, p) + rest);
            s.Got? && s.rest == rest && s.r == r.(slots := s.r.slots, start := false, small := IsSmall(p))
            && AgreeAll(SlotsNext(w, p), s.r.slots)
            && (if IsSmall(p) then s.r.slots[3].val == p.sum
                else forall i :: 0 <= i < 5 ==> s.r.slots[i].val == FullValues(p)[i])
  {
    hide FloatOfInt, PutBits, Put, PutAllBits, PutAll, Get, GetAll;
    var first := w.curTime == 0;
    if IsSmall(p) {
      var tail := PutBits(w.slots[3], p.sum, first) + rest;
      assert ValueBits(w, p) + rest == [false] + tail;
      assert ([false] + tail)[1..] == tail;
      SlotInStep(w.slots[3], r.slots[3], p.sum, first, rest);
    } else {
      var tail := PutAllBits(w.slots, FullValues(p), first) + rest;
      assert ValueBits(w, p) + rest == [true] + tail;
      assert ([true] + tail)[1..] == tail;
      SlotsInStep(w.slots, r.slots, FullValues(p), first, rest);
    }
  }

  /** What the iterator should report for a point: nanoseconds only at full resolution, a small point
      as its sum, and a count as its float64 rounding. */
  function Expected(full: bool, p: Point, drift: int): (q: Point)
    requires IsPoint(p)
  {
    var (sec, nano) := SplitNano(p.t);
    var t := CombineSecNano((sec - drift) % M32, if full then nano else 0);
    if IsSmall(p) then Point(t, p.sum, p.sum, p.sum, p.sum, 1)
    else Point(t, p.min, p.max, p.last, p.sum, IntOfFloat(FloatOfInt(p.count)))
  }

  lemma ZeroNanos()
    ensures UintOfFloat(ZERO) == 0
  {
    ZeroWord(11);
    assert ZERO[1..12] == Zeros(11);
  }

  lemma ValuesAreExpected(w: Writer, r: Reader, p: Point, lag: int, drift: int)
    requires IsPoint(p) && Together(w, r, lag, drift) && r.small == IsSmall(p)
    requires w.curTime == SplitNano(p.t).0
    requires w.ms.val == if w.full then FloatOfInt(SplitNano(p.t).1) else ZERO
    requires if IsSmall(p) then r.slots[3].val == p.sum
             else forall i :: 0 <= i < 5 ==> r.slots[i].val == FullValues(p)[i]
    ensures Values(r) == Expected(w.full, p, drift)
  {
    hide FloatOfInt, IntOfFloat;
    if w.full {
      UintRoundTrip(SplitNano(p.t).1);
    } else {
      ZeroNanos();
    }
    if !IsSmall(p) {
      var vs := FullValues(p);
      assert r.slots[0].val == vs[0] && r.slots[1].val == vs[1] && r.slots[2].val == vs[2];
      assert r.slots[3].val == vs[3] && r.slots[4].val == vs[4];
    }
  }

  // ---- whole streams ----

  ghost function StreamBits(w: Writer, ps: seq<Point>): (bits: seq<bool>)
    requires OkWriter(w) && forall p :: p in ps ==> IsPoint(p)
    decreases |ps|
  {
    if |ps| == 0 then [] else PointBits(w, ps[0]) + StreamBits(PointNext(w, ps[0]), ps[1..])
  }

  ghost function StreamNext(w: Writer, ps: seq<Point>): (w': Writer)
    requires OkWriter(w) && forall p :: p in ps ==> IsPoint(p)
    ensures OkWriter(w')
    decreases |ps|
  {
    if |ps| == 0 then w else StreamNext(PointNext(w, ps[0]), ps[1..])
  }

  lemma {:induction false} StreamSnoc(w: Writer, ps: seq<Point>, p: Point)
    requires OkWriter(w) && (forall q :: q in ps ==> IsPoint(q)) && IsPoint(p)
    ensures StreamNext(w, ps + [p]) == PointNext(StreamNext(w, ps), p)
    ensures StreamBits(w, ps + [p]) == StreamBits(w, ps) + PointBits(StreamNext(w, ps), p)
    decreases |ps|
  {
    hide PointBits, PointNext;
    if |ps| == 0 {
      assert ps + [p] == [p] && [p][1..] == [];
      assert StreamBits(w, [p]) == PointBits(w, p) + StreamBits(PointNext(w, p), []);
    } else {
      assert (ps + [p])[0] == ps[0] && (ps + [p])[1..] == ps[1..] + [p];
      StreamSnoc(PointNext(w, ps[0]), ps[1..], p);
    }
  }

  /** Everything an iterator yields until Next returns false, and whether it stopped at the end record. */
  datatype Decoded = Decoded(points: seq<Point>, finished: bool)

  ghost function DecodeAll(r: Reader, bits: seq<bool>): (d: Decoded)
    requires |r.slots| == 5
    decreases |bits|
  {
    match ReadPoint(r, bits)
    case Finished => Decoded([], true)
    case Failed => Decoded([], false)
    case Got(r', rest) => var d := DecodeAll(r', rest); Decoded([Values(r')] + d.points, d.finished)
  }

  /** The points expected from a stream whose clock lags. */
  ghost function ExpectedAll(full: bool, ps: seq<Point>, lag: int, drift: int): (qs: seq<Point>)
    requires forall p :: p in ps ==> IsPoint(p)
    ensures |qs| == |ps|
  {
    if |ps| == 0 then [] else [Expected(full, ps[0], drift)] + ExpectedAll(full, ps[1..], lag, drift + lag)
  }

  /** A stamp of zero seconds would make the writer take the next point for the first one. */
  ghost predicate StampsNonZero(ps: seq<Point>)
  {
    forall i :: 0 <= i < |ps| - 1 ==> SplitNano(ps[i].t).0 != 0
  }

  /** One point after the first: bits, clock, values and windows all stay in step. */
  lemma PointInStep(w: Writer, r: Reader, p: Point, lag: int, drift: int, rest: seq<bool>)
    requires OkWriter(w) && IsPoint(p) && Together(w, r, lag, drift) && w.curTime != 0 && !r.start
    ensures var s := ReadPoint(r, PointBits(w, p) + rest);
            s.Got? && s.rest == rest && Together(PointNext(w, p), s.r, lag, drift + lag) && !s.r.start
            && Values(s.r) == Expected(w.full, p, drift + lag)
  {
    hide FloatOfInt, IntOfFloat, ReadTime, ReadValues, TimeBits, ValueBits, Values, Expected, SlotsNext;
    var tail := ValueBits(w, p) + rest;
    assert PointBits(w, p) + rest == TimeBits(w, p.t) + tail;
    TimeInStep(w, r, p.t, lag, drift, tail);
    var x := ReadTime(r, TimeBits(w, p.t) + tail);
    ValuesInStep(w, x.r, p, rest);
    var s := ReadValues(x.r, tail);
    NextTogether(w, p, x.r, s.r, lag, drift + lag);
  }

  /** Putting the halves of a point together. */
  lemma NextTogether(w: Writer, p: Point, r: Reader, r': Reader, lag: int, drift: int)
    requires |w.slots| == 5 && IsPoint(p) && (!w.full ==> w.ms.val == ZERO)
    requires Together(TimeNext(w, p.t), r, lag, drift)
    requires r' == r.(slots := r'.slots, start := false, small := IsSmall(p))
    requires AgreeAll(SlotsNext(w, p), r'.slots)
    requires if IsSmall(p) then r'.slots[3].val == p.sum
             else forall i :: 0 <= i < 5 ==> r'.slots[i].val == FullValues(p)[i]
    ensures Together(PointNext(w, p), r', lag, drift) && Values(r') == Expected(w.full, p, drift)
  {
    hide FloatOfInt, IntOfFloat, CompressWindow, SlotsNext;
    ValuesAreExpected(PointNext(w, p), r', p, lag, drift);
  }

  lemma FirstPointInStep(w: Writer, r: Reader, p: Point, rest: seq<bool>)
    requires OkWriter(w) && IsPoint(p) && Together(w, r, 0, 0) && w.curTime == 0 && r.start
    ensures var s := ReadPoint(r, PointBits(w, p) + rest);
            var lag := Lag(w.ts, p);
            s.Got? && s.rest == rest && Together(PointNext(w, p), s.r, lag, lag) && !s.r.start
            && Values(s.r) == Expected(w.full, p, lag)
  {
    hide FloatOfInt, IntOfFloat, ReadTime, ReadValues, TimeBits, ValueBits, Values, Expected, SlotsNext, Lag;
    var tail := ValueBits(w, p) + rest;
    assert PointBits(w, p) + rest == TimeBits(w, p.t) + tail;
    FirstTimeInStep(w, r, p, tail);
    var x := ReadTime(r, TimeBits(w, p.t) + tail);
    ValuesInStep(w, x.r, p, rest);
    var s := ReadValues(x.r, tail);
    NextTogether(w, p, x.r, s.r, Lag(w.ts, p), Lag(w.ts, p));
  }

  lemma {:induction false} StreamInStep(w: Writer, r: Reader, ps: seq<Point>, lag: int, drift: int, rest: seq<bool>)
    requires OkWriter(w) && (forall p :: p in ps ==> IsPoint(p)) && StampsNonZero(ps)
    requires |r.slots| == 5 && Together(w, r, lag, drift) && !r.start && (|ps| > 0 ==> w.curTime != 0)
    ensures DecodeAll(r, StreamBits(w, ps) + (EndRecord() + rest))
         == Decoded(ExpectedAll(w.full, ps, lag, drift + lag), true)
    decreases |ps|
  {
    hide PointBits, PointNext, ReadPoint, Values, Expected, EndRecord, Together;
    if |ps| == 0 {
      assert StreamBits(w, ps) + (EndRecord() + rest) == EndRecord() + rest;
      EndRead(r, rest);
    } else {
      var p, w' := ps[0], PointNext(w, ps[0]);
      var tail := StreamBits(w', ps[1..]) + (EndRecord() + rest);
      assert StreamBits(w, ps) + (EndRecord() + rest) == PointBits(w, p) + tail;
      PointInStep(w, r, p, lag, drift, tail);
      var s := ReadPoint(r, PointBits(w, p) + tail);
      StampsTail(ps);
      ClockAfter(w, p);
      StreamInStep(w', s.r, ps[1..], lag, drift + lag, rest);
    }
  }

  lemma EndRead(r: Reader, rest: seq<bool>)
    requires |r.slots| == 5 && !r.start
    ensures ReadPoint(r, EndRecord() + rest) == Finished
  {
    hide EndRecord, ReadDod;
    EndInStep(rest);
  }

  lemma ClockAfter(w: Writer, p: Point)
    requires |w.slots| == 5 && IsPoint(p)
    ensures PointNext(w, p).curTime == SplitNano(p.t).0 && PointNext(w, p).full == w.full
  {
    hide SlotsNext, MsNext;
  }

  lemma StampsTail(ps: seq<Point>)
    requires |ps| > 0 && StampsNonZero(ps)
    ensures StampsNonZero(ps[1..]) && (|ps| > 1 ==> SplitNano(ps[0].t).0 != 0)
  {
    var qs := ps[1..];
    forall i | 0 <= i < |qs| - 1 ensures SplitNano(qs[i].t).0 != 0 {
      assert qs[i] == ps[i + 1];
    }
  }

  // ---- a whole series ----

  /** The registers of a new series and of a new iterator over it. */
  ghost function NewWriter(full: bool, ts: nat, tms: nat): (w: Writer)
    requires tms < M32
    ensures OkWriter(w)
  {
    var blank := Slot(ZERO, Window(NONE, 0));
    Writer(full, ts, 0, 0, if full then Slot(FloatOfInt(tms), Window(NONE, 0)) else blank,
           [blank, blank, blank, blank, blank])
  }

  ghost function NewReader(full: bool, ts: nat, tms: nat): (r: Reader)
    requires tms < M32
    ensures |r.slots| == 5
  {
    var blank := Slot(ZERO, Window(0, 0));
    Reader(full, ts, 0, 0, if full then Slot(FloatOfInt(tms), Window(0, 0)) else blank,
           [blank, blank, blank, blank, blank], true, false)
  }

  /** What is read back from a series that was closed with the end record, whatever follows it. */
  ghost function ReadBack(full: bool, ts: nat, tms: nat, ps: seq<Point>, rest: seq<bool>): (d: Decoded)
    requires tms < M32 && forall p :: p in ps ==> IsPoint(p)
  {
    DecodeAll(NewReader(full, ts, tms), StreamBits(NewWriter(full, ts, tms), ps) + (EndRecord() + rest))
  }

  /** The round trip: every point comes back, in order, then a clean end. The clock lags by exactly what the
      first step overflows its 14 bits, once more at every point; stamps are recombined from their seconds and
      nanoseconds and counts are rounded to floats. */
  lemma RoundTrip(full: bool, ts: nat, tms: nat, ps: seq<Point>, rest: seq<bool>)
    requires tms < M32 && (forall p :: p in ps ==> IsPoint(p)) && |ps| > 0 && StampsNonZero(ps)
    ensures ReadBack(full, ts, tms, ps, rest)
         == Decoded(ExpectedAll(full, ps, Lag(ts, ps[0]), Lag(ts, ps[0])), true)
  {
    hide FloatOfInt, PointBits, PointNext, ReadPoint, Values, Expected, EndRecord, Lag;
    var w, r, p, lag := NewWriter(full, ts, tms), NewReader(full, ts, tms), ps[0], Lag(ts, ps[0]);
    var w' := PointNext(w, p);
    var tail := StreamBits(w', ps[1..]) + (EndRecord() + rest);
    assert StreamBits(w, ps) + (EndRecord() + rest) == PointBits(w, p) + tail;
    FirstPointInStep(w, r, p, tail);
    var s := ReadPoint(r, PointBits(w, p) + tail);
    StampsTail(ps);
    ClockAfter(w, p);
    StreamInStep(w', s.r, ps[1..], lag, lag, rest);
  }

  /** The points that come back when the clock does not lag. */
  ghost function Plain(full: bool, ps: seq<Point>): (qs: seq<Point>)
    requires forall p :: p in ps ==> IsPoint(p)
    ensures |qs| == |ps|
  {
    ExpectedAll(full, ps, 0, 0)
  }

  /** The clock does not lag if and only if the first stamp is less than 2^14 seconds after the start. */
  lemma ClockExact(full: bool, ts: nat, tms: nat, ps: seq<Point>, rest: seq<bool>)
    requires ts < M32 && tms < M32 && (forall p :: p in ps ==> IsPoint(p)) && |ps| > 0 && StampsNonZero(ps)
    ensures ReadBack(full, ts, tms, ps, rest) == Decoded(Plain(full, ps), true)
       <==> (SplitNano(ps[0].t).0 - ts) % M32 < 16384
  {
    hide ReadBack, FloatOfInt, IntOfFloat;
    RoundTrip(full, ts, tms, ps, rest);
    var lag, sec := Lag(ts, ps[0]), SplitNano(ps[0].t).0;
    if lag != 0 {
      assert ExpectedAll(full, ps, lag, lag)[0] == Expected(full, ps[0], lag);
      assert Plain(full, ps)[0] == Expected(full, ps[0], 0);
      LagShows(sec, lag);
    }
  }

  lemma LagShows(sec: nat, lag: int)
    requires sec < M32 && 0 < lag < M32
    ensures (sec - lag) % M32 != sec == (sec - 0) % M32
  {}

  /** A point that the format can hold: a count kept beside its values has at most 53 significant bits, and a
      stamp kept with its nanoseconds is zero or in nanoseconds with seconds that fit 32 bits. */
  predicate Fits(full: bool, p: Point)
  {
    && (IsSmall(p) || Exact(if p.count < 0 then -p.count else p.count))
    && (full ==> p.t == 0 || 2147483647 < p.t < M32 * BILLION)
  }

  lemma FitsExactly(full: bool, p: Point)
    requires IsPoint(p)
    ensures Expected(full, p, 0) == AsStored(full, p) <==> Fits(full, p)
  {
    hide IsSmall, FloatOfInt, IntOfFloat, Exact, SplitNano;
    StampRoundTrip(p.t);
    CountRoundTrip(p.count);
    var sec := SplitNano(p.t).0;
    assert (sec - 0) % M32 == sec;
  }

  /** A lagging first stamp always shows: no lag, a multiple of 2^14, carries a stamp of seconds to a stamp of
      as many nanoseconds. */
  lemma LagAlwaysShows(full: bool, p: Point, lag: int)
    requires IsPoint(p) && 0 < lag < M32 && lag % 16384 == 0
    ensures Expected(full, p, lag).t != AsStored(full, p).t
  {
    hide IsSmall, FloatOfInt, IntOfFloat, SplitNano;
    var (sec, nano) := SplitNano(p.t);
    LagShows(sec, lag);
    if full {
      LagMisses(p.t, sec, nano, lag);
    }
  }

  lemma LagMisses(t: int, sec: nat, nano: nat, lag: int)
    requires (sec, nano) == SplitNano(t) && 0 < lag < M32 && lag % 16384 == 0
    ensures CombineSecNano((sec - lag) % M32, nano) != t
  {
    if 0 <= t <= 2147483647 {
      SecondsMiss(t, lag);
    } else if t > 2147483647 {
      LagShows(sec, lag);
      NanosMiss(t, (sec - lag) % M32);
    }
  }

  lemma SecondsMiss(t: int, lag: int)
    requires 0 <= t <= 2147483647 && 0 < lag < M32 && lag % 16384 == 0
    ensures (t - lag) % M32 * BILLION != t
  {
    var k := (t - lag) % M32;
    assert k == t - lag || k == t - lag + M32;
  }

  lemma NanosMiss(t: int, k: nat)
    requires t > 0 && k < M32 && k != (t / BILLION) % M32
    ensures k * BILLION + t % BILLION != t
  {
    DivModUnique(k * BILLION + t % BILLION, BILLION, k, t % BILLION);
  }

  lemma {:induction false} AllFit(full: bool, ps: seq<Point>)
    requires forall p :: p in ps ==> IsPoint(p)
    ensures ExpectedAll(full, ps, 0, 0) == AsStoredAll(full, ps) <==> forall p :: p in ps ==> Fits(full, p)
    decreases |ps|
  {
    hide Expected, AsStored, Fits;
    if |ps| > 0 {
      FitsExactly(full, ps[0]);
      AllFit(full, ps[1..]);
      ConsEqual(Expected(full, ps[0], 0), ExpectedAll(full, ps[1..], 0, 0), AsStored(full, ps[0]),
                AsStoredAll(full, ps[1..]));
      forall p ensures p in ps <==> p == ps[0] || p in ps[1..] {
        assert ps == [ps[0]] + ps[1..];
      }
    }
  }

  /** The round trip gives back the points as they were added (small ones as their sum, stamps cut to seconds
      at second resolution) if and only if the first stamp is less than 2^14 seconds after the start and the
      format can hold every point. */
  lemma RoundTripExact(full: bool, ts: nat, tms: nat, ps: seq<Point>, rest: seq<bool>)
    requires ts < M32 && tms < M32 && (forall p :: p in ps ==> IsPoint(p)) && |ps| > 0 && StampsNonZero(ps)
    ensures ReadBack(full, ts, tms, ps, rest) == Decoded(AsStoredAll(full, ps), true)
       <==> (SplitNano(ps[0].t).0 - ts) % M32 < 16384 && forall p :: p in ps ==> Fits(full, p)
  {
    hide ReadBack, Expected, AsStored, Fits, SplitNano;
    RoundTrip(full, ts, tms, ps, rest);
    var lag := Lag(ts, ps[0]);
    if lag == 0 {
      AllFit(full, ps);
    } else {
      LagIsMultiple(ts, ps[0]);
      LagAlwaysShows(full, ps[0], lag);
      assert ExpectedAll(full, ps, lag, lag)[0] == Expected(full, ps[0], lag);
      assert AsStoredAll(full, ps)[0] == AsStored(full, ps[0]);
    }
  }

  lemma LagIsMultiple(ts: nat, p: Point)
    ensures Lag(ts, p) % 16384 == 0 && Lag(ts, p) < M32
    ensures Lag(ts, p) == 0 <==> (SplitNano(p.t).0 - ts) % M32 < 16384
  {
    hide SplitNano;
    var delta := (SplitNano(p.t).0 - ts) % M32;
    DivModUnique(delta - delta % 16384, 16384, delta / 16384, 0);
  }

  lemma {:induction false} ExpectedPrefix(full: bool, ps: seq<Point>, qs: seq<Point>, lag: int, drift: int)
    requires forall p :: p in ps + qs ==> IsPoint(p)
    ensures forall p :: p in ps ==> IsPoint(p)
    ensures ExpectedAll(full, ps, lag, drift) <= ExpectedAll(full, ps + qs, lag, drift)
    decreases |ps|
  {
    hide Expected;
    forall p | p in ps ensures IsPoint(p) {
      assert p in ps + qs;
    }
    if |ps| > 0 {
      assert (ps + qs)[1..] == ps[1..] + qs;
      assert forall p :: p in (ps + qs)[1..] ==> p in ps + qs;
      ExpectedPrefix(full, ps[1..], qs, lag, drift + lag);
    }
  }

  /** What was decoded from an earlier snapshot is a prefix of what is decoded from a later one. */
  lemma SnapshotsGrow(full: bool, ts: nat, tms: nat, ps: seq<Point>, more: seq<Point>,
                      rest: seq<bool>, rest': seq<bool>)
    requires tms < M32 && (forall p :: p in ps + more ==> IsPoint(p)) && |ps| > 0 && StampsNonZero(ps + more)
    ensures forall p :: p in ps ==> IsPoint(p)
    ensures var early, late := ReadBack(full, ts, tms, ps, rest), ReadBack(full, ts, tms, ps + more, rest');
            early.finished && late.finished && early.points <= late.points
            && |early.points| == |ps| && |late.points| == |ps| + |more|
  {
    hide ReadBack, Expected, Lag, SplitNano;
    assert (ps + more)[0] == ps[0];
    ExpectedPrefix(full, ps, more, Lag(ts, ps[0]), Lag(ts, ps[0]));
    StampsPrefix(ps, more);
    RoundTrip(full, ts, tms, ps, rest);
    RoundTrip(full, ts, tms, ps + more, rest');
  }

  lemma StampsPrefix(ps: seq<Point>, more: seq<Point>)
    requires StampsNonZero(ps + more)
    ensures StampsNonZero(ps)
  {
    forall i | 0 <= i < |ps| - 1 ensures SplitNano(ps[i].t).0 != 0 {
      assert (ps + more)[i] == ps[i];
    }
  }
}
