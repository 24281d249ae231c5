/** What Gorilla streams cost, and where the format stops working. */
module GorillaLimits {
  import opened Bits
  import opened Float64
  import opened Points
  import opened GorillaValue
  import opened GorillaTime
  import opened GorillaCode
  import opened GorillaRoundTrip

  // ---- size ----

  lemma ValueCost(cur: Word, next: Word, w: Window)
    requires w.leading == NONE || Usable(w)
    ensures 1 <= |CompressBits(cur, next, w)| <= 77
    ensures |CompressBits(cur, next, w)| == 1 <==> cur == next
  {
    hide LeadingZeros, TrailingZeros, FromInt;
    XorCancels(cur, next);
    WindowBounds(Xor(next, cur));
  }

  lemma SlotCost(s: Slot, v: Word, first: bool)
    requires OkSlot(s)
    ensures first ==> |PutBits(s, v, first)| == 64
    ensures !first ==> 1 <= |PutBits(s, v, first)| <= 77 && (|PutBits(s, v, first)| == 1 <==> s.val == v)
  {
    hide CompressBits;
    if !first {
      ValueCost(s.val, v, s.win);
    }
  }

  ghost predicate SameVals(ss: seq<Slot>, vs: seq<Word>)
  {
    |ss| == |vs| && forall i :: 0 <= i < |ss| ==> ss[i].val == vs[i]
  }

  lemma SameValsCons(ss: seq<Slot>, vs: seq<Word>)
    requires |ss| == |vs| > 0
    ensures SameVals(ss, vs) <==> ss[0].val == vs[0] && SameVals(ss[1..], vs[1..])
  {
    if ss[0].val == vs[0] && SameVals(ss[1..], vs[1..]) {
      forall i | 0 <= i < |ss| ensures ss[i].val == vs[i] {
        if i > 0 { assert ss[1..][i - 1].val == vs[1..][i - 1]; }
      }
    }
  }

  lemma {:induction false} SlotsCost(ss: seq<Slot>, vs: seq<Word>, first: bool)
    requires |ss| == |vs| && OkSlots(ss)
    ensures first ==> |PutAllBits(ss, vs, first)| == 64 * |ss|
    ensures !first ==> |ss| <= |PutAllBits(ss, vs, first)| <= 77 * |ss|
    ensures !first ==> (|PutAllBits(ss, vs, first)| == |ss| <==> SameVals(ss, vs))
    decreases |ss|
  {
    hide PutBits, SameVals;
    if |ss| == 0 {
      NoVals(ss, vs);
    } else {
      SlotCost(ss[0], vs[0], first);
      SlotsCost(ss[1..], vs[1..], first);
      SameValsCons(ss, vs);
    }
  }

  lemma NoVals(ss: seq<Slot>, vs: seq<Word>)
    requires |ss| == |vs| == 0
    ensures SameVals(ss, vs)
  {}

  lemma TimeCost(w: Writer, t: int)
    requires OkWriter(w)
    ensures var most := if w.full then 77 else 0;
            if w.curTime == 0 then 14 <= |TimeBits(w, t)| <= 14 + most else 1 <= |TimeBits(w, t)| <= 36 + most
  {
    hide FromInt, DodBits, PutBits, FloatOfInt;
    if w.full {
      SlotCost(w.ms, FloatOfInt(SplitNano(t).1), false);
    }
  }

  /** The most that one point can cost, in bits. */
  function MostBits(full: bool): (n: nat)
  {
    if full then 36 + 77 + 1 + 5 * 77 else 36 + 1 + 5 * 77
  }

  lemma PointCost(w: Writer, p: Point)
    requires OkWriter(w) && IsPoint(p)
    ensures 3 <= |PointBits(w, p)| <= MostBits(w.full)
  {
    hide TimeBits, PutBits, PutAllBits, FloatOfInt;
    TimeCost(w, p.t);
    SlotCost(w.slots[3], p.sum, w.curTime == 0);
    SlotsCost(w.slots, FullValues(p), w.curTime == 0);
  }

  /** A stream of n points takes at least 3 bits and at most 499 bits a point (422 at second resolution). */
  lemma {:induction false} StreamCost(w: Writer, ps: seq<Point>)
    requires OkWriter(w) && forall p :: p in ps ==> IsPoint(p)
    ensures 3 * |ps| <= |StreamBits(w, ps)| <= MostBits(w.full) * |ps|
    decreases |ps|
  {
    hide PointBits, PointNext;
    if |ps| > 0 {
      PointCost(w, ps[0]);
      ClockAfter(w, ps[0]);
      StreamCost(PointNext(w, ps[0]), ps[1..]);
    }
  }

  /** A full point that repeats the values at the same step. */
  ghost predicate Repeats(w: Writer, p: Point)
    requires |w.slots| == 5 && IsPoint(p)
  {
    && !IsSmall(p) && w.curTime != 0
    && SameVals(w.slots, FullValues(p))
    && (SplitNano(p.t).0 - w.curTime) % M32 == w.curDelta
    && (w.full ==> w.ms.val == FloatOfInt(SplitNano(p.t).1))
  }

  /** Such a point costs 7 bits (8 with nanoseconds), and no other full point after the first is as cheap. */
  lemma RepeatCost(w: Writer, p: Point)
    requires OkWriter(w) && IsPoint(p) && !IsSmall(p) && w.curTime != 0 && w.curDelta < M32
    ensures |PointBits(w, p)| == (if w.full then 8 else 7) <==> Repeats(w, p)
    ensures |PointBits(w, p)| >= (if w.full then 8 else 7)
  {
    hide PutBits, PutAllBits, FloatOfInt, DodBits;
    var (sec, nano) := SplitNano(p.t);
    var dod := ToInt32((sec - w.curTime) % M32 - w.curDelta);
    DodCost(dod);
    if w.full {
      SlotCost(w.ms, FloatOfInt(nano), false);
    }
    SlotsCost(w.slots, FullValues(p), false);
  }

  lemma DodCost(dod: int)
    ensures |DodBits(dod)| == 1 <==> dod == 0
  {}

  // ---- the empty series ----

  /** With no point at all the end record is taken for a first point, and the iterator stops with an error. */
  lemma EmptyFails(full: bool, ts: nat, tms: nat, pad: nat)
    requires tms < M32 && pad <= 8
    ensures ReadBack(full, ts, tms, [], Zeros(pad)) == Decoded([], false)
  {
    hide FloatOfInt, EndRecord;
    var r, bits := NewReader(full, ts, tms), EndRecord() + Zeros(pad);
    assert StreamBits(NewWriter(full, ts, tms), []) + bits == bits;
    OnesInEnd();
    var r', rest := FirstStep(r, ToNat(bits[..14])), bits[14..];
    if full {
      EmptyNanos(r.ms.val, r.ms.win, rest);
      assert ReadTime(r, bits) == TimeEof;
    } else {
      assert ReadTime(r, bits) == TimeRead(r', rest);
      assert Get(r.slots[0], true, rest[1..]) == SlotEof;
      assert GetAll(r.slots, true, rest[1..]) == SlotsEof;
    }
  }

  lemma OnesInEnd()
    ensures forall i :: 0 <= i < 36 ==> EndRecord()[i]
  {
    AllOnes(32);
    Pow2Large();
  }

  lemma {:induction false} AllOnes(n: nat)
    ensures FromInt(Pow2(n) - 1, n) == seq(n, _ => true)
  {
    if n > 0 {
      AllOnes(n - 1);
      assert (Pow2(n) - 1) / 2 == Pow2(n - 1) - 1;
      assert seq(n, _ => true) == seq(n - 1, _ => true) + [true];
    }
  }

  lemma EmptyNanos(cur: Word, w: Window, bits: seq<bool>)
    requires 22 <= |bits| <= 31 && forall i :: 0 <= i < 22 ==> bits[i]
    ensures Uncompress(cur, w, bits) == ValueEof
  {
    hide ToNat;
    assert bits[2..7] == [true, true, true, true, true];
    assert bits[7..13] == [true, true, true, true, true, true];
    Ones();
  }

  lemma Ones()
    ensures ToNat([true, true, true, true, true]) == 31
    ensures ToNat([true, true, true, true, true, true]) == 63
  {
    var s := [true, true, true, true, true, true];
    assert s[..5] == [true, true, true, true, true] && s[..5][..4] == [true, true, true, true];
    assert [true, true, true, true][..3] == [true, true, true] && [true, true, true][..2] == [true, true];
    assert [true, true][..1] == [true] && [true][..0] == [];
  }

  // ---- a stamp of zero seconds ----

  /** Seconds of a stamp. */
  function Sec(p: Point): (sec: nat)
    ensures sec < M32
  {
    SplitNano(p.t).0
  }

  /** The step the writer has in its registers after the last of these points. */
  function LastStep(ts: nat, ps: seq<Point>): (step: nat)
    requires |ps| > 0
    ensures step < M32
  {
    (Sec(ps[|ps| - 1]) - (if |ps| == 1 then ts else Sec(ps[|ps| - 2]))) % M32
  }

  lemma {:induction false} StreamSplit(w: Writer, ps: seq<Point>, qs: seq<Point>)
    requires OkWriter(w) && (forall p :: p in ps ==> IsPoint(p)) && forall p :: p in qs ==> IsPoint(p)
    ensures forall p :: p in ps + qs ==> IsPoint(p)
    ensures StreamBits(w, ps + qs) == StreamBits(w, ps) + StreamBits(StreamNext(w, ps), qs)
    decreases |ps|
  {
    hide PointBits, PointNext, IsPoint;
    if |ps| == 0 {
      assert ps + qs == qs;
    } else {
      assert (ps + qs)[1..] == ps[1..] + qs;
      StreamSplit(PointNext(w, ps[0]), ps[1..], qs);
    }
  }

  lemma ClockRegisters(w: Writer, p: Point)
    requires |w.slots| == 5 && IsPoint(p)
    ensures var w' := PointNext(w, p);
            && w'.full == w.full && w'.ts == w.ts && w'.curTime == Sec(p)
            && w'.curDelta == (Sec(p) - (if w.curTime == 0 then w.ts else w.curTime)) % M32
  {
    hide SlotsNext, SplitNano, MsNext;
  }

  /** The clock registers after a stream whose stamps, but for the last, are not zero. */
  lemma {:induction false} LastRegisters(w: Writer, ps: seq<Point>)
    requires OkWriter(w) && w.curTime == 0 && |ps| > 0 && (forall p :: p in ps ==> IsPoint(p)) && StampsNonZero(ps)
    ensures var w' := StreamNext(w, ps);
            && w'.full == w.full && w'.ts == w.ts && w'.curTime == Sec(ps[|ps| - 1])
            && w'.curDelta == LastStep(w.ts, ps)
    decreases |ps|
  {
    hide PointNext, PointBits, StreamBits, StreamNext, SplitNano, StampsNonZero, IsPoint;
    var n := |ps| - 1;
    var init := ps[..n];
    assert ps == init + [ps[n]];
    StreamSnoc(w, init, ps[n]);
    ClockRegisters(StreamNext(w, init), ps[n]);
    if n == 0 {
      NoStream(w);
    } else {
      StampsOfInit(ps);
      LastRegisters(w, init);
    }
  }

  lemma NoStream(w: Writer)
    requires OkWriter(w)
    ensures StreamNext(w, []) == w
  {
  }

  lemma StampsOfInit(ps: seq<Point>)
    requires |ps| > 0 && StampsNonZero(ps)
    ensures StampsNonZero(ps[..|ps| - 1]) && (|ps| > 1 ==> Sec(ps[|ps| - 2]) != 0)
  {
    hide SplitNano;
  }

  /** Reading a stream from registers in step yields its points and leaves registers in step. */
  lemma {:induction false} PartRead(w: Writer, r: Reader, ps: seq<Point>, rest: seq<bool>) returns (r': Reader)
    requires OkWriter(w) && (forall p :: p in ps ==> IsPoint(p)) && StampsNonZero(ps) && Together(w, r, 0, 0)
    requires if |ps| == 0 then !r.start else r.start == (w.curTime == 0)
    requires |ps| > 0 && r.start ==> Lag(w.ts, ps[0]) == 0
    ensures |r'.slots| == 5 && !r'.start && Together(StreamNext(w, ps), r', 0, 0)
    ensures var d, e := DecodeAll(r, StreamBits(w, ps) + rest), DecodeAll(r', rest);
            |d.points| == |ps| + |e.points| && d.points[|ps|..] == e.points
    decreases |ps|
  {
    hide PointBits, PointNext, ReadPoint, GorillaCode.Values, Expected, SplitNano, Lag;
    InStepSlots(w, r);
    if |ps| == 0 {
      r' := r;
      assert StreamBits(w, ps) + rest == rest;
    } else {
      hide Together;
      var p, tail := ps[0], ps[1..];
      var more := StreamBits(PointNext(w, p), tail) + rest;
      assert StreamBits(w, ps) + rest == PointBits(w, p) + more;
      if r.start {
        FirstPointInStep(w, r, p, more);
      } else {
        PointInStep(w, r, p, 0, 0, more);
      }
      var s := ReadPoint(r, PointBits(w, p) + more);
      ClockAfter(w, p);
      StampsTail(ps);
      r' := PartRead(PointNext(w, p), s.r, tail, rest);
      OneMore(GorillaCode.Values(s.r), DecodeAll(s.r, more).points, |tail|);
    }
  }

  lemma OneMore<T>(x: T, xs: seq<T>, n: nat)
    requires n <= |xs|
    ensures ([x] + xs)[n + 1..] == xs[n..]
  {
  }

  lemma InStepSlots(w: Writer, r: Reader)
    requires Together(w, r, 0, 0)
    ensures |r.slots| == 5
  {
  }

  /** After a zero stamp the writer stores the next step from the start time in fourteen bits. If the first of
      these is a zero the reader takes it for an unchanged step, at either resolution and from any registers in
      step: its clock goes from zero to the step before. */
  lemma ZeroStampNext(w: Writer, r: Reader, p: Point, tail: seq<bool>)
    requires OkWriter(w) && IsPoint(p) && Together(w, r, 0, 0) && !r.start && w.curTime == 0 && w.curDelta < M32
    requires (Sec(p) - w.ts) % M32 % 16384 < 8192
    ensures |r.slots| == 5
    ensures var s := ReadPoint(r, PointBits(w, p) + tail);
            s.Got? ==> s.r.curTime == w.curDelta && (!w.full ==> s.r.ms.val == ZERO)
  {
    hide ValueBits, SplitNano, FromInt, Get, GetAll, ReadValues, MsBits;
    var field, bits := FromInt((Sec(p) - w.ts) % M32, 14), PointBits(w, p) + tail;
    TopBitClear((Sec(p) - w.ts) % M32);
    assert bits[0] == field[0];
    assert ReadPrefix(bits) == PrefixRead(0, bits[1..]);
    assert bits[1..][..0] == [];
    assert ReadDod(bits) == DodRead(0, bits[1..]);
    var x := ReadTime(r, bits);
    assert x == ReadMs(NextStep(r, 0), bits[1..]);
    if x.TimeRead? {
      assert x.r.curTime == w.curDelta;
      KeepsClock(x.r, x.rest);
    }
  }

  /** A stamp that the reader's clock, with any nanoseconds, cannot show. */
  predicate Missed(full: bool, step: nat, sec: nat)
  {
    if full then !(step <= sec <= step + 4) else sec != step
  }

  lemma MissedShows(full: bool, r: Reader, step: nat, p: Point)
    requires |r.slots| == 5 && IsPoint(p) && r.curTime == step && (!full ==> r.ms.val == ZERO)
    requires Missed(full, step, Sec(p))
    ensures GorillaCode.Values(r).t != Expected(full, p, 0).t
  {
    hide IsSmall, SplitNano, IntOfFloat, FloatOfInt, UintOfFloat;
    var sec := Sec(p);
    assert (sec - 0) % M32 == sec;
    ZeroNanos();
  }

  /** A zero stamp at any position before the last, at either resolution and with any start near enough for the
      clock not to lag: if the step from the start to the next point begins with a zero bit and the reader
      cannot show that stamp, the series does not read back, whatever the points' values and whatever follows. */
  lemma ZeroStampBreaks(full: bool, ts: nat, tms: nat, ps: seq<Point>, p: Point, more: seq<Point>, rest: seq<bool>)
    requires ts < M32 && tms < M32 && |ps| > 0 && StampsNonZero(ps) && Sec(ps[|ps| - 1]) == 0
    requires forall q :: q in ps + [p] + more ==> IsPoint(q)
    requires (Sec(ps[0]) - ts) % M32 < 16384
    requires (Sec(p) - ts) % M32 % 16384 < 8192 && Missed(full, LastStep(ts, ps), Sec(p))
    ensures ReadBack(full, ts, tms, ps + [p] + more, rest) != Decoded(Plain(full, ps + [p] + more), true)
    ensures Fits(full, p) ==>
              ReadBack(full, ts, tms, ps + [p] + more, rest) != Decoded(AsStoredAll(full, ps + [p] + more), true)
  {
    hide PointBits, PointNext, ReadPoint, EndRecord, GorillaCode.Values, Together, Plain, LastStep, Missed, Lag;
    hide StreamBits, StreamNext, Expected, NewReader, NewWriter, SplitNano, Fits, AsStored, AsStoredAll;
    AllPoints(ps, p, more);
    var w, r := NewWriter(full, ts, tms), NewReader(full, ts, tms);
    StartTogether(full, ts, tms);
    LagIsMultiple(ts, ps[0]);
    var w' := StreamNext(w, ps);
    var end := EndRecord() + rest;
    var tail := StreamBits(PointNext(w', p), more) + end;
    PointsSplit(w, ps, p, more, end);
    var r' := PartRead(w, r, ps, PointBits(w', p) + tail);
    LastRegisters(w, ps);
    ZeroStampNext(w', r', p, tail);
    var s := ReadPoint(r', PointBits(w', p) + tail);
    FirstDecoded(r', PointBits(w', p) + tail);
    NthExpected(full, ps, p, more);
    FitsExactly(full, p);
    assert (ps + [p] + more)[|ps|] == p;
    NthStored(full, ps + [p] + more, |ps|);
    if s.Got? {
      MissedShows(full, s.r, LastStep(ts, ps), p);
    }
  }

  lemma AllPoints(ps: seq<Point>, p: Point, more: seq<Point>)
    requires forall q :: q in ps + [p] + more ==> IsPoint(q)
    ensures IsPoint(p) && (forall q :: q in ps ==> IsPoint(q)) && forall q :: q in more ==> IsPoint(q)
  {
    hide IsPoint;
    assert (ps + [p] + more)[|ps|] == p;
    forall q | q in ps || q in more ensures IsPoint(q) {
      assert q in ps + [p] + more;
    }
  }

  lemma StartTogether(full: bool, ts: nat, tms: nat)
    requires tms < M32
    ensures var w, r := NewWriter(full, ts, tms), NewReader(full, ts, tms);
            Together(w, r, 0, 0) && r.start && w.curTime == 0 && w.full == full && w.ts == ts
  {
    hide FloatOfInt;
  }

  lemma PointsSplit(w: Writer, ps: seq<Point>, p: Point, more: seq<Point>, end: seq<bool>)
    requires OkWriter(w) && IsPoint(p) && (forall q :: q in ps ==> IsPoint(q)) && forall q :: q in more ==> IsPoint(q)
    ensures forall q :: q in ps + [p] + more ==> IsPoint(q)
    ensures var w' := StreamNext(w, ps);
            StreamBits(w, ps + [p] + more) + end ==
            StreamBits(w, ps) + (PointBits(w', p) + (StreamBits(PointNext(w', p), more) + end))
  {
    hide PointBits, PointNext, IsPoint, StreamBits, StreamNext;
    var w' := StreamNext(w, ps);
    assert ps + [p] + more == ps + ([p] + more);
    StreamSplit(w, ps, [p] + more);
    FirstBits(w', p, more);
    Grouped(StreamBits(w, ps), PointBits(w', p), StreamBits(PointNext(w', p), more), end);
  }

  lemma FirstBits(w: Writer, p: Point, more: seq<Point>)
    requires OkWriter(w) && IsPoint(p) && forall q :: q in more ==> IsPoint(q)
    ensures forall q :: q in [p] + more ==> IsPoint(q)
    ensures StreamBits(w, [p] + more) == PointBits(w, p) + StreamBits(PointNext(w, p), more)
  {
    hide PointBits, PointNext, IsPoint;
    assert ([p] + more)[1..] == more;
  }

  lemma Grouped(a: seq<bool>, b: seq<bool>, c: seq<bool>, d: seq<bool>)
    ensures a + (b + c) + d == a + (b + (c + d))
  {
  }

  lemma FirstDecoded(r: Reader, bits: seq<bool>)
    requires |r.slots| == 5
    ensures var d, s := DecodeAll(r, bits), ReadPoint(r, bits);
            |d.points| > 0 ==> s.Got? && d.points[0] == GorillaCode.Values(s.r)
  {
    hide ReadPoint, GorillaCode.Values;
  }

  lemma {:induction false} NthStored(full: bool, ps: seq<Point>, i: nat)
    requires i < |ps|
    ensures AsStoredAll(full, ps)[i] == AsStored(full, ps[i])
    decreases i
  {
    hide AsStored;
    if i > 0 {
      NthStored(full, ps[1..], i - 1);
    }
  }

  lemma {:induction false} NthExpected(full: bool, ps: seq<Point>, p: Point, more: seq<Point>)
    requires forall q :: q in ps + [p] + more ==> IsPoint(q)
    ensures IsPoint(p)
    ensures Plain(full, ps + [p] + more)[|ps|] == Expected(full, p, 0)
    decreases |ps|
  {
    hide Expected, IsPoint;
    AllPoints(ps, p, more);
    if |ps| > 0 {
      assert (ps + [p] + more)[1..] == ps[1..] + [p] + more;
      NthExpected(full, ps[1..], p, more);
    }
  }

  lemma KeepsClock(r: Reader, bits: seq<bool>)
    requires |r.slots| == 5
    ensures var s := ReadValues(r, bits); s.Got? ==> s.r.curTime == r.curTime && s.r.ms == r.ms
  {
    hide Get, GetAll;
  }

  lemma TopBitClear(delta: nat)
    requires delta % 16384 < 8192
    ensures |FromInt(delta, 14)| == 14 && !FromInt(delta, 14)[0]
  {
    hide ToNat, FromInt;
    Pow2Small();
    ToNatFromInt(delta, 14);
    TopBitWeighs(FromInt(delta, 14));
  }

  lemma {:induction false} TopBitWeighs(s: seq<bool>)
    requires |s| > 0
    ensures s[0] ==> ToNat(s) >= Pow2(|s| - 1)
    decreases |s|
  {
    if |s| > 1 {
      TopBitWeighs(s[..|s| - 1]);
    }
  }

  // ---- the first point ----

  /** The time of the first point: 14 bits of the step and, at full resolution, the coded nanoseconds. */
  lemma FirstTimeLayout(w: Writer, t: int)
    requires OkWriter(w) && w.curTime == 0
    ensures var (sec, nano) := SplitNano(t);
            TimeBits(w, t) == FromInt((sec - w.ts) % M32, 14)
                              + (if w.full then CompressBits(w.ms.val, FloatOfInt(nano), w.ms.win) else [])
  {
    hide FloatOfInt, SplitNano, CompressBits, FromInt;
  }

  /** The first point: its time, then the sum, or all five values, whole and in this order. */
  lemma FirstPointLayout(w: Writer, p: Point)
    requires OkWriter(w) && IsPoint(p) && w.curTime == 0
    ensures IsSmall(p) ==> PointBits(w, p) == TimeBits(w, p.t) + [false] + p.sum
    ensures !IsSmall(p) ==>
              PointBits(w, p) == TimeBits(w, p.t) + [true] + p.min + p.max + p.last + p.sum + FloatOfInt(p.count)
  {
    hide FloatOfInt, TimeBits, IsSmall, PutAllBits;
    if IsSmall(p) {
      Three(TimeBits(w, p.t), [false], p.sum);
    } else {
      FiveWhole(w.slots, p.min, p.max, p.last, p.sum, FloatOfInt(p.count));
      Seven(TimeBits(w, p.t), [true], p.min, p.max, p.last, p.sum, FloatOfInt(p.count));
    }
  }

  lemma Three(a: seq<bool>, b: seq<bool>, c: seq<bool>)
    ensures a + (b + c) == a + b + c
  {
  }

  lemma Seven(a: seq<bool>, b: seq<bool>, c: seq<bool>, d: seq<bool>, e: seq<bool>, f: seq<bool>, g: seq<bool>)
    ensures a + (b + (c + d + e + f + g)) == a + b + c + d + e + f + g
  {
    Three(a, b, c + d + e + f + g);
    Three(a + b, c + d + e + f, g);
    Three(a + b, c + d + e, f);
    Three(a + b, c + d, e);
    Three(a + b, c, d);
  }

  lemma FiveWhole(ss: seq<Slot>, a: Word, b: Word, c: Word, d: Word, e: Word)
    requires |ss| == 5 && OkSlots(ss)
    ensures PutAllBits(ss, [a, b, c, d, e], true) == a + b + c + d + e
  {
    assert [a, b, c, d, e][1..] == [b, c, d, e] && [b, c, d, e][1..] == [c, d, e];
    assert [c, d, e][1..] == [d, e] && [d, e][1..] == [e];
    var s1, s2, s3, s4 := ss[1..], ss[2..], ss[3..], ss[4..];
    assert s1[1..] == s2 && s2[1..] == s3 && s3[1..] == s4;
    assert PutAllBits(s4, [e], true) == e + PutAllBits(s4[1..], [e][1..], true);
    assert PutAllBits(s3, [d, e], true) == d + PutAllBits(s4, [e], true);
    assert PutAllBits(s2, [c, d, e], true) == c + PutAllBits(s3, [d, e], true);
    assert PutAllBits(s1, [b, c, d, e], true) == b + PutAllBits(s2, [c, d, e], true);
  }

  // ---- what the next values are coded against ----

  lemma {:induction false} PutAllVals(ss: seq<Slot>, vs: seq<Word>, first: bool, i: nat)
    requires |ss| == |vs| && i < |ss|
    ensures |PutAll(ss, vs, first)| == |vs| && PutAll(ss, vs, first)[i].val == vs[i]
    decreases |ss|
  {
    hide CompressWindow;
    if |ss| > 1 {
      PutAllVals(ss[1..], vs[1..], first, if i == 0 then 0 else i - 1);
    }
  }

  /** The values of the last point that was written in full, zeros before that. */
  function LastFull(ps: seq<Point>): (vs: seq<Word>)
    requires forall p :: p in ps ==> IsPoint(p)
    ensures |vs| == 5
    decreases |ps|
  {
    if |ps| == 0 then [ZERO, ZERO, ZERO, ZERO, ZERO]
    else
      var p := ps[|ps| - 1];
      assert IsPoint(p);
      if IsSmall(p) then LastFull(ps[..|ps| - 1]) else [p.min, p.max, p.last, p.sum, FloatOfInt(p.count)]
  }

  /** All slots but that of the sum hold these values. */
  ghost predicate SlotsHold(ss: seq<Slot>, vs: seq<Word>)
    ensures SlotsHold(ss, vs) ==> |ss| == 5
  {
    && |ss| == |vs| == 5
    && ss[0].val == vs[0] && ss[1].val == vs[1] && ss[2].val == vs[2] && ss[4].val == vs[4]
  }

  /** Over every stream the next sum is coded against the sum of the last point, and the other four values
      against those of the last point written in full. */
  lemma {:induction false} LastValues(full: bool, ts: nat, tms: nat, ps: seq<Point>)
    requires tms < M32 && forall p :: p in ps ==> IsPoint(p)
    ensures var ss := StreamNext(NewWriter(full, ts, tms), ps).slots;
            && SlotsHold(ss, LastFull(ps))
            && ss[3].val == (if |ps| == 0 then ZERO else ps[|ps| - 1].sum)
    decreases |ps|
  {
    hide FloatOfInt, IsSmall, PointNext, StreamBits, SlotsHold;
    if |ps| == 0 {
      BlankSlots(full, ts, tms);
    } else {
      var init, p := ps[..|ps| - 1], ps[|ps| - 1];
      assert ps == init + [p];
      LastValues(full, ts, tms, init);
      StreamSnoc(NewWriter(full, ts, tms), init, p);
      SlotsAfter(StreamNext(NewWriter(full, ts, tms), init), p, LastFull(init));
    }
  }

  lemma BlankSlots(full: bool, ts: nat, tms: nat)
    requires tms < M32
    ensures SlotsHold(NewWriter(full, ts, tms).slots, LastFull([])) && NewWriter(full, ts, tms).slots[3].val == ZERO
  {
    hide FloatOfInt;
  }

  lemma SlotsAfter(w: Writer, p: Point, vs: seq<Word>)
    requires SlotsHold(w.slots, vs) && IsPoint(p)
    ensures var ss := PointNext(w, p).slots;
            && SlotsHold(ss, if IsSmall(p) then vs else [p.min, p.max, p.last, p.sum, FloatOfInt(p.count)])
            && ss[3].val == p.sum
  {
    hide FloatOfInt, IsSmall, CompressWindow, PutAll, TimeNext;
    if !IsSmall(p) {
      forall i | 0 <= i < 5 ensures PointNext(w, p).slots[i].val == FullValues(p)[i] {
        PutAllVals(w.slots, FullValues(p), w.curTime == 0, i);
      }
    }
  }
}
