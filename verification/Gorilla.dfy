/** The Gorilla time series and its iterator, as the objects that write and read the bit stream. */
module Gorilla {
  import opened Bits
  import opened Float64
  import opened Points
  import opened BitStreams
  import opened GorillaValue
  import opened GorillaTime
  import opened GorillaCode
  import opened GorillaRoundTrip

  function Octets(s: string): (bs: seq<Octet>)
    ensures |bs| == |s|
  {
    seq(|s|, i requires 0 <= i < |s| => FromInt(s[i] as int, 8))
  }

  const TAG_NANOSECOND := "gorn"
  const TAG_SECOND := "gors"
  const TAG_NANO_SMART := "gort"

  const NUM_VALUES: nat := 5

  ghost function HeaderBits(full: bool, ts: nat, tms: nat): (bits: seq<bool>)
  {
    Flatten(Octets(if full then TAG_NANO_SMART else TAG_SECOND)) + FromInt(NUM_VALUES, 8) + FromInt(ts, 32)
    + (if full then FromInt(tms, 32) else [])
  }

  /** uint64(v) */
  function U64(v: int): (w: Word)
  {
    FromInt(v, 64)
  }

  /** The value registers, kept as three parallel arrays. */
  function Zipped(vals: seq<Word>, leading: seq<nat>, trailing: seq<nat>): (ss: seq<Slot>)
    requires |vals| == |leading| == |trailing|
    ensures |ss| == |vals|
    ensures forall i :: 0 <= i < |ss| ==> ss[i] == Slot(vals[i], Window(leading[i], trailing[i]))
  {
    seq(|vals|, i requires 0 <= i < |vals| => Slot(vals[i], Window(leading[i], trailing[i])))
  }

  class GorillaTimeSeries {
    const fullResolution: bool
    const Ts: nat
    const Tms: nat
    var curTime: nat
    var curDelta: nat
    var curTimeMs: Word
    var leadingMs: nat
    var trailingMs: nat
    var curVals: seq<Word>
    var leading: seq<nat>
    var trailing: seq<nat>
    var curCount: nat
    const bw: BitStream

    /** The points added so far. */
    ghost var points: seq<Point>

    ghost predicate Shaped()
      reads this
    {
      |curVals| == 5 && |leading| == 5 && |trailing| == 5
    }

    /** The registers, as a value. */
    ghost function State(): (w: Writer)
      requires Shaped()
      reads this
    {
      Writer(fullResolution, Ts, curTime, curDelta, Slot(curTimeMs, Window(leadingMs, trailingMs)),
             Zipped(curVals, leading, trailing))
    }

    ghost predicate Ready()
      reads this, bw
    {
      Shaped() && bw.Writing() && OkWriter(State()) && Ts < M32 && Tms < BILLION
    }

    /** The stream holds the header and exactly the points, and the registers are those of a writer
        that went through them. */
    ghost predicate Valid()
      reads this, bw
    {
      && Ready()
      && (forall p :: p in points ==> IsPoint(p))
      && curCount == |points|
      && State() == StreamNext(NewWriter(fullResolution, Ts, Tms), points)
      && bw.Written() == HeaderBits(fullResolution, Ts, Tms) + StreamBits(NewWriter(fullResolution, Ts, Tms), points)
    }

    constructor (t0: int, highTimeResolution: bool)
      ensures Valid() && fresh(bw) && points == [] && fullResolution == highTimeResolution
      ensures (Ts, Tms) == SplitNano(t0)
    {
      var (ts, tms) := SplitNano(t0);
      Ts, Tms, fullResolution := ts, tms, highTimeResolution;
      curTime, curDelta, curTimeMs, curCount := 0, 0, ZERO, 0;
      leadingMs, trailingMs := NONE, 0;
      leading, trailing := [NONE, NONE, NONE, NONE, NONE], [0, 0, 0, 0, 0];
      curVals := [ZERO, ZERO, ZERO, ZERO, ZERO];
      bw := new BitStream.Writer();
      points := [];
      new;
      hide FloatOfInt, HeaderBits, Fillable, Filled, StreamBits, StreamNext, OkWriter, NewWriter, SplitNano, Zipped;
      WriteHeader();
      BlankState();
      NoPoints(NewWriter(fullResolution, Ts, Tms));
    }

    /** The registers of a series without points. */
    lemma BlankState()
      requires curTime == 0 && curDelta == 0 && Tms < M32 && leadingMs == NONE && trailingMs == 0
      requires curVals == [ZERO, ZERO, ZERO, ZERO, ZERO] && leading == [NONE, NONE, NONE, NONE, NONE]
      requires trailing == [0, 0, 0, 0, 0] && curTimeMs == if fullResolution then FloatOfInt(Tms) else ZERO
      ensures Shaped() && State() == NewWriter(fullResolution, Ts, Tms)
    {
      hide FloatOfInt;
      assert State().slots == NewWriter(fullResolution, Ts, Tms).slots;
    }

    method WriteHeader()
      requires Shaped() && bw.Writing() && bw.Written() == [] && Ts < M32 && Tms < BILLION
      modifies this`curTimeMs, bw
      ensures bw.Writing() && bw.Written() == HeaderBits(fullResolution, Ts, Tms)
      ensures curTimeMs == if fullResolution then FloatOfInt(Tms) else old(curTimeMs)
    {
      hide FloatOfInt, FromInt, Flatten;
      if fullResolution {
        bw.WriteBytes(Octets(TAG_NANO_SMART));
      } else {
        bw.WriteBytes(Octets(TAG_SECOND));
      }
      bw.WriteBits(U64(NUM_VALUES), 8);
      LowBits(NUM_VALUES, 64, 8);
      bw.WriteBits(U64(Ts), 32);
      LowBits(Ts, 64, 32);
      if fullResolution {
        bw.WriteBits(U64(Tms), 32);
        LowBits(Tms, 64, 32);
        curTimeMs := FloatOfInt(Tms);
      }
    }

    method CompressValue(curV: Word, newV: Word, lead: nat, trail: nat) returns (nLead: nat, nTrail: nat)
      requires bw.Writing() && OkSlot(Slot(curV, Window(lead, trail)))
      modifies bw
      ensures bw.Writing()
      ensures bw.Written() == old(bw.Written()) + CompressBits(curV, newV, Window(lead, trail))
      ensures Window(nLead, nTrail) == CompressWindow(curV, newV, Window(lead, trail))
    {
      hide Fillable, Filled, FromInt, LeadingZeros, TrailingZeros, Xor, Shr, Zeros, Inside;
      var vDelta := Xor(newV, curV);
      ghost var before := bw.Written();
      if vDelta == ZERO {
        bw.WriteBit(false);
        return lead, trail;
      }
      WindowBounds(vDelta);
      bw.WriteBit(true);
      nLead := LeadingZeros(vDelta);
      nTrail := TrailingZeros(vDelta);
      if nLead >= 32 {
        nLead := 31;
      }
      ghost var v := Window(nLead, nTrail);
      if lead != NONE && nLead >= lead && nTrail >= trail {
        bw.WriteBit(false);
        bw.WriteBits(Shr(vDelta, trail), 64 - lead - trail);
        ShiftedInside(vDelta, Window(lead, trail));
        ReuseJoins(before, Inside(vDelta, Window(lead, trail)));
        nLead := lead;
        nTrail := trail;
      } else {
        WriteWindow(vDelta, nLead, nTrail);
        HeaderJoins(before, FromInt(nLead, 5), FromInt(64 - nLead - nTrail, 6), Inside(vDelta, v));
      }
    }

    /** A window of its own and the bits inside it. */
    method WriteWindow(vDelta: Word, lead: nat, trail: nat)
      requires bw.Writing() && Usable(Window(lead, trail))
      modifies bw
      ensures bw.Writing()
      ensures bw.Written() == old(bw.Written()) + [true] + FromInt(lead, 5) + FromInt(64 - lead - trail, 6)
                              + Inside(vDelta, Window(lead, trail))
    {
      hide Fillable, Filled, FromInt, Shr, Inside;
      bw.WriteBit(true);
      bw.WriteBits(U64(lead), 5);
      var sigbits := 64 - lead - trail;
      bw.WriteBits(U64(sigbits), 6);
      bw.WriteBits(Shr(vDelta, trail), sigbits);
      LowBits(lead, 64, 5);
      LowBits(sigbits, 64, 6);
      ShiftedInside(vDelta, Window(lead, trail));
    }

    method AddValue(idx: nat, v: Word, isFirst: bool)
      requires Ready() && idx < 5
      modifies this`curVals, this`leading, this`trailing, bw
      ensures Ready()
      ensures State() == old(State()).(slots := old(State().slots)[idx := Put(old(State().slots)[idx], v, isFirst)])
      ensures bw.Written() == old(bw.Written()) + PutBits(old(State().slots)[idx], v, isFirst)
    {
      hide Fillable, Filled, CompressBits, CompressWindow;
      ghost var slots := State().slots;
      assert OkSlot(slots[idx]);
      if isFirst {
        curVals := curVals[idx := v];
        bw.WriteBits(v, 64);
        assert v[0..] == v;
      } else {
        var l, t := CompressValue(curVals[idx], v, leading[idx], trailing[idx]);
        leading, trailing := leading[idx := l], trailing[idx := t];
        curVals := curVals[idx := v];
      }
      assert State().slots == slots[idx := Put(slots[idx], v, isFirst)];
    }

    method AddMs(nano: nat)
      requires Ready() && fullResolution && nano < BILLION
      modifies this`curTimeMs, this`leadingMs, this`trailingMs, bw
      ensures Ready()
      ensures State() == old(State()).(ms := MsNext(old(State()), nano))
      ensures bw.Written() == old(bw.Written()) + MsBits(old(State()), nano)
    {
      hide Fillable, Filled, CompressBits, CompressWindow, FloatOfInt;
      leadingMs, trailingMs := CompressValue(curTimeMs, FloatOfInt(nano), leadingMs, trailingMs);
      curTimeMs := FloatOfInt(nano);
    }

    /** The step change goes out in the shortest of the five codes that holds it. */
    method WriteDod(dod: int)
      requires bw.Writing()
      modifies bw
      ensures bw.Writing() && bw.Written() == old(bw.Written()) + DodBits(dod)
    {
      hide Fillable, Filled, FromInt, U64;
      ghost var before := bw.Written();
      CodePrefixes();
      WordLow(dod);
      if dod == 0 {
        bw.WriteBit(false);
        assert DodBits(dod) == [false];
      } else {
        ghost var c := CodeFor(dod);
        if -63 <= dod <= 64 {
          bw.WriteBits(U64(0x02), 2);
          bw.WriteBits(U64(dod), 7);
        } else if -255 <= dod <= 256 {
          bw.WriteBits(U64(0x06), 3);
          bw.WriteBits(U64(dod), 9);
        } else if -2047 <= dod <= 2048 {
          bw.WriteBits(U64(0x0e), 4);
          bw.WriteBits(U64(dod), 12);
        } else {
          bw.WriteBits(U64(0x0f), 4);
          bw.WriteBits(U64(dod), 32);
        }
        assert before + c.prefix + FromInt(dod, c.size) == before + DodBits(dod);
      }
    }

    method AddTime(t: int)
      requires Ready()
      modifies this`curTime, this`curDelta, this`curTimeMs, this`leadingMs, this`trailingMs, bw
      ensures Ready()
      ensures State() == TimeNext(old(State()), t)
      ensures bw.Written() == old(bw.Written()) + TimeBits(old(State()), t)
    {
      hide Fillable, Filled, FloatOfInt, PutBits, Put, DodBits, FromInt;
      var (ut, utms) := SplitNano(t);
      if curTime == 0 {
        curTime := ut;
        curDelta := (ut - Ts) % M32;
        bw.WriteBits(U64(curDelta), 14);
        LowBits(curDelta, 64, 14);
      } else {
        var tDelta := (ut - curTime) % M32;
        var dod := ToInt32(tDelta - curDelta);
        WriteDod(dod);
        curDelta := tDelta;
        curTime := ut;
      }
      if fullResolution {
        AddMs(utms);
      }
    }

    method AddAllValues(vs: seq<Word>, start: bool)
      requires Ready() && |vs| == 5
      modifies this`curVals, this`leading, this`trailing, bw
      ensures Ready()
      ensures State() == old(State()).(slots := PutAll(old(State()).slots, vs, start))
      ensures bw.Written() == old(bw.Written()) + PutAllBits(old(State()).slots, vs, start)
    {
      hide Fillable, Filled, OkSlot, PutBits, Put, PutAll, PutAllBits, Zipped;
      ghost var w, before := State(), bw.Written();
      assert OkSlots(w.slots);
      AddValue(0, vs[0], start);
      AddValue(1, vs[1], start);
      AddValue(2, vs[2], start);
      AddValue(3, vs[3], start);
      AddValue(4, vs[4], start);
      FivePuts(before, w.slots, vs, start);
      assert State().slots == PutAll(w.slots, vs, start);
    }

    /** Appends one point. */
    method AddPoint(t: int, min: Word, max: Word, last: Word, sum: Word, count: int)
      requires Valid() && IsPoint(Point(t, min, max, last, sum, count))
      modifies this, bw
      ensures Valid() && points == old(points) + [Point(t, min, max, last, sum, count)]
    {
      hide Fillable, Filled, HeaderBits, TimeBits, PutBits, PutAllBits, Put, PutAll, OkSlot, FloatOfInt, MsNext;
      hide SplitNano, StreamBits, StreamNext, NewWriter, SameFloatVals, Zipped;
      ghost var p, w := Point(t, min, max, last, sum, count), State();
      ghost var head, body := bw.Written(), StreamBits(NewWriter(fullResolution, Ts, Tms), points);
      var start := curTime == 0;
      AddTime(t);
      if count == 1 || SameFloatVals(min, max, last, sum) {
        bw.WriteBit(false);
        AddValue(3, sum, start);
        SmallJoins(head, TimeBits(w, t), PutBits(w.slots[3], sum, start));
      } else {
        bw.WriteBit(true);
        AddAllValues([min, max, last, sum, FloatOfInt(count)], start);
        FullJoins(head, TimeBits(w, t), PutAllBits(w.slots, FullValues(p), start));
      }
      assert State() == PointNext(w, p);
      assert bw.Written() == head + PointBits(w, p);
      StreamSnoc(NewWriter(fullResolution, Ts, Tms), points, p);
      StreamJoins(HeaderBits(fullResolution, Ts, Tms), body, PointBits(w, p));
      points := points + [p];
      curCount := curCount + 1;
    }

    /** A finished copy of the stream. The series itself is not touched, so it can grow further. */
    method Bytes() returns (b: seq<Octet>)
      requires Valid()
      ensures exists pad: nat :: pad <= 8 && Flatten(b) == bw.Written() + EndRecord() + Zeros(pad)
    {
      hide Fillable, Filled, EndRecord, HeaderBits, StreamBits, StreamNext, NewWriter;
      var bb := bw.Clone();
      SetFinished(bb);
      b := bb.Bytes();
    }

    /** A snapshot of the series: an iterator that will yield the points added so far, exactly so if and only if
        the first is near enough to the start and the format can hold them. */
    method Iter() returns (it: GorillaIter?)
      requires Valid()
      ensures it != null && fresh(it) && fresh(it.br) && it.Ready() && it.err == NoError && !it.finished
      ensures |points| > 0 && StampsNonZero(points) ==>
                var lag := Lag(Ts, points[0]);
                it.Pending() == Decoded(ExpectedAll(fullResolution, points, lag, lag), true)
      ensures |points| > 0 && StampsNonZero(points) ==>
                (it.Pending() == Decoded(AsStoredAll(fullResolution, points), true) <==>
                 (SplitNano(points[0].t).0 - Ts) % M32 < 16384 && forall p :: p in points ==> Fits(fullResolution, p))
    {
      hide Fillable, Filled, Drainable, Remaining, EndRecord, HeaderBits, StreamBits, StreamNext, NewWriter, NewReader;
      hide FloatOfInt, DecodeAll, ExpectedAll, ParseHead, StampsNonZero, SplitNano, Fits, AsStoredAll;
      var b := Bytes();
      ghost var pad: nat :| pad <= 8 && Flatten(b) == bw.Written() + EndRecord() + Zeros(pad);
      ghost var tms := if fullResolution then Tms else 0;
      ghost var body := StreamBits(NewWriter(fullResolution, Ts, Tms), points) + (EndRecord() + Zeros(pad));
      assert Flatten(b) == HeaderBits(fullResolution, Ts, Tms) + body;
      HeadBack(fullResolution, Ts, Tms, body);
      var err;
      it, err := NewGorillaIterFromBytes(b);
      WriterIgnoresNanos(fullResolution, Ts, Tms);
      if |points| > 0 && StampsNonZero(points) {
        RoundTrip(fullResolution, Ts, tms, points, Zeros(pad));
        RoundTripExact(fullResolution, Ts, tms, points, Zeros(pad));
      }
    }
  }

  lemma NoPoints(w: Writer)
    requires OkWriter(w)
    ensures StreamBits(w, []) == [] && StreamNext(w, []) == w
  {
  }

  /** The end-of-stream record. */
  method SetFinished(bw: BitStream)
    requires bw.Writing()
    modifies bw
    ensures bw.Writing() && bw.Written() == old(bw.Written()) + EndRecord()
  {
    hide Fillable, Filled, FromInt, U64;
    ghost var before := bw.Written();
    CodePrefixes();
    WordLow(0xffff_ffff);
    bw.WriteBits(U64(0x0f), 4);
    bw.WriteBits(U64(0xffff_ffff), 32);
    bw.WriteBit(false);
    EndJoins(before, FromInt(END_MARK, 32));
  }

  lemma EndJoins(before: seq<bool>, field: seq<bool>)
    ensures before + [true, true, true, true] + field + [false] == before + ([true, true, true, true] + field + [false])
  {}

  /** At second resolution the nanoseconds of the start do not matter. */
  lemma WriterIgnoresNanos(full: bool, ts: nat, tms: nat)
    requires tms < M32
    ensures NewWriter(full, ts, tms) == NewWriter(full, ts, if full then tms else 0)
    ensures NewReader(full, ts, tms) == NewReader(full, ts, if full then tms else 0)
  {}

  // ---- the header, read back ----

  function U32Of(s: seq<bool>): (n: nat)
    requires |s| == 32
    ensures n < M32
  {
    FromIntToNat(s);
    Pow2Large();
    ToNat(s)
  }

  datatype Head = Head(full: bool, num: nat, ts: nat, tms: nat, rest: seq<bool>) | HeadEof | HeadBad

  ghost function ParseHead(bits: seq<bool>): (h: Head)
    ensures h.Head? ==> h.ts < M32 && h.tms < M32
  {
    if |bits| < 32 then HeadEof
    else if bits[..32] != Flatten(Octets(TAG_NANOSECOND)) && bits[..32] != Flatten(Octets(TAG_SECOND))
            && bits[..32] != Flatten(Octets(TAG_NANO_SMART)) then HeadBad
    else
      var full := bits[..32] != Flatten(Octets(TAG_SECOND));
      if |bits| < (if full then 104 else 72) then HeadEof
      else
        Head(full, ToNat(bits[32..40]), U32Of(bits[40..72]), if full then U32Of(bits[72..104]) else 0,
             if full then bits[104..] else bits[72..])
  }

  lemma TagsDiffer()
    ensures Flatten(Octets(TAG_NANO_SMART)) != Flatten(Octets(TAG_SECOND))
    ensures Flatten(Octets(TAG_NANOSECOND)) != Flatten(Octets(TAG_SECOND))
  {
    hide FromInt, ToNat, Flatten;
    var a, b, c := Octets(TAG_NANO_SMART), Octets(TAG_SECOND), Octets(TAG_NANOSECOND);
    Field8(116);
    Field8(115);
    Field8(110);
    assert a[3] == FromInt(116, 8) && b[3] == FromInt(115, 8) && c[3] == FromInt(110, 8);
    if Flatten(a) == Flatten(b) {
      FlattenInjective(a, b);
    }
    if Flatten(c) == Flatten(b) {
      FlattenInjective(c, b);
    }
  }

  lemma FieldsOf(tag: seq<bool>, num: seq<bool>, ts: seq<bool>, tms: seq<bool>, body: seq<bool>)
    requires |tag| == 32 && |num| == 8 && |ts| == 32
    ensures var bits := tag + num + ts + tms + body;
            bits[..32] == tag && bits[32..40] == num && bits[40..72] == ts && bits[72..] == tms + body
            && (|tms| == 32 ==> bits[72..104] == tms && bits[104..] == body)
  {}

  lemma HeadBack(full: bool, ts: nat, tms: nat, body: seq<bool>)
    requires ts < M32 && tms < M32
    ensures ParseHead(HeaderBits(full, ts, tms) + body) == Head(full, NUM_VALUES, ts, if full then tms else 0, body)
  {
    hide FromInt, ToNat, Flatten, Octets;
    TagsDiffer();
    Field32(ts);
    Field32(tms);
    Field8(NUM_VALUES);
    var tag := Flatten(Octets(if full then TAG_NANO_SMART else TAG_SECOND));
    FieldsOf(tag, FromInt(NUM_VALUES, 8), FromInt(ts, 32), if full then FromInt(tms, 32) else [], body);
  }

  /** The old nanosecond tag reads as the new one, and any other but the three is refused. */
  lemma TagsExactly(tag: seq<bool>, rest: seq<bool>)
    requires |tag| == 32
    ensures tag == Flatten(Octets(TAG_NANOSECOND)) ==>
              ParseHead(tag + rest) == ParseHead(Flatten(Octets(TAG_NANO_SMART)) + rest)
    ensures ParseHead(tag + rest).HeadBad? <==>
            tag != Flatten(Octets(TAG_NANOSECOND)) && tag != Flatten(Octets(TAG_SECOND))
            && tag != Flatten(Octets(TAG_NANO_SMART))
  {
    hide ToNat, Flatten, Octets;
    TagsDiffer();
    var smart := Flatten(Octets(TAG_NANO_SMART));
    var a, b := tag + rest, smart + rest;
    assert a[..32] == tag && b[..32] == smart;
    assert a[32..] == rest && b[32..] == rest;
    if |rest| >= 72 {
      SameFields(tag, smart, rest);
    }
  }

  lemma SameFields(tag: seq<bool>, other: seq<bool>, rest: seq<bool>)
    requires |tag| == |other| == 32 && |rest| >= 72
    ensures var a, b := tag + rest, other + rest;
            && a[32..40] == b[32..40] && a[40..72] == b[40..72] && a[72..104] == b[72..104] && a[104..] == b[104..]
  {
  }

  lemma Field8(v: nat)
    requires v < 256
    ensures ToNat(FromInt(v, 8)) == v
  {
    Pow2Small();
    FitsRoundTrip(v, 8);
  }

  lemma {:induction false} FlattenInjective(a: seq<Octet>, b: seq<Octet>)
    requires |a| == |b| && Flatten(a) == Flatten(b)
    ensures a == b
    decreases |a|
  {
    if |a| > 0 {
      assert Flatten(a)[..8] == a[0] && Flatten(b)[..8] == b[0];
      assert Flatten(a)[8..] == Flatten(a[1..]) && Flatten(b)[8..] == Flatten(b[1..]);
      FlattenInjective(a[1..], b[1..]);
      assert a == [a[0]] + a[1..] && b == [b[0]] + b[1..];
    }
  }

  lemma SmallJoins(head: seq<bool>, a: seq<bool>, b: seq<bool>)
    ensures head + a + [false] + b == head + (a + ([false] + b))
  {}

  lemma FullJoins(head: seq<bool>, a: seq<bool>, b: seq<bool>)
    ensures head + a + [true] + b == head + (a + ([true] + b))
  {}

  lemma StreamJoins(header: seq<bool>, a: seq<bool>, b: seq<bool>)
    ensures header + a + b == header + (a + b)
  {}

  lemma {:induction false} PutAllAt(ss: seq<Slot>, vs: seq<Word>, first: bool, i: nat)
    requires |ss| == |vs| && i < |ss|
    ensures PutAll(ss, vs, first)[i] == Put(ss[i], vs[i], first)
  {
    if i > 0 {
      PutAllAt(ss[1..], vs[1..], first, i - 1);
    }
  }

  /** Five values one after the other. */
  lemma FivePuts(before: seq<bool>, ss: seq<Slot>, vs: seq<Word>, first: bool)
    requires |ss| == |vs| == 5 && OkSlots(ss)
    ensures forall i :: 0 <= i < 5 ==> PutAll(ss, vs, first)[i] == Put(ss[i], vs[i], first)
    ensures OkSlots(PutAll(ss, vs, first))
    ensures before + PutBits(ss[0], vs[0], first) + PutBits(ss[1], vs[1], first) + PutBits(ss[2], vs[2], first)
            + PutBits(ss[3], vs[3], first) + PutBits(ss[4], vs[4], first)
         == before + PutAllBits(ss, vs, first)
  {
    hide PutBits, Put;
    forall i | 0 <= i < 5 ensures PutAll(ss, vs, first)[i] == Put(ss[i], vs[i], first) {
      PutAllAt(ss, vs, first, i);
    }
    BitsFrom(before, ss, vs, first, 0);
    BitsFrom(before + PutBits(ss[0], vs[0], first), ss, vs, first, 1);
    BitsFrom(before + PutBits(ss[0], vs[0], first) + PutBits(ss[1], vs[1], first), ss, vs, first, 2);
    var b3 := before + PutBits(ss[0], vs[0], first) + PutBits(ss[1], vs[1], first) + PutBits(ss[2], vs[2], first);
    BitsFrom(b3, ss, vs, first, 3);
    BitsFrom(b3 + PutBits(ss[3], vs[3], first), ss, vs, first, 4);
    assert ss[0..] == ss && vs[0..] == vs;
    assert PutAllBits(ss[5..], vs[5..], first) == [];
  }

  lemma BitsFrom(before: seq<bool>, ss: seq<Slot>, vs: seq<Word>, first: bool, i: nat)
    requires |ss| == |vs| && i < |ss| && OkSlots(ss)
    ensures OkSlots(ss[i..]) && OkSlots(ss[i + 1..])
    ensures before + PutAllBits(ss[i..], vs[i..], first)
         == before + PutBits(ss[i], vs[i], first) + PutAllBits(ss[i + 1..], vs[i + 1..], first)
  {
    hide PutBits, OkSlot;
    assert ss[i..][1..] == ss[i + 1..] && vs[i..][1..] == vs[i + 1..];
  }

  lemma WordLow(v: int)
    ensures forall n: nat {:trigger FromInt(v, n)} :: n <= 64 ==> U64(v)[64 - n..] == FromInt(v, n)
  {
    forall n: nat | n <= 64 ensures U64(v)[64 - n..] == FromInt(v, n) {
      LowBits(v, 64, n);
    }
  }

  lemma CodePrefixes()
    ensures U64(0x02)[62..] == [true, false]
    ensures U64(0x06)[61..] == [true, true, false]
    ensures U64(0x0e)[60..] == [true, true, true, false]
    ensures U64(0x0f)[60..] == [true, true, true, true]
  {
    LowBits(0x02, 64, 2);
    LowBits(0x06, 64, 3);
    LowBits(0x0e, 64, 4);
    LowBits(0x0f, 64, 4);
  }

  lemma ReuseJoins(before: seq<bool>, c: seq<bool>)
    ensures before + [true] + [false] + c == before + ([true, false] + c)
  {}

  lemma ShiftedInside(d: Word, w: Window)
    requires Usable(w)
    ensures Shr(d, w.trailing)[w.leading + w.trailing..] == Inside(d, w)
  {}

  lemma HeaderJoins(before: seq<bool>, a: seq<bool>, b: seq<bool>, c: seq<bool>)
    ensures before + [true] + [true] + a + b + c == before + ([true, true] + a + b + c)
  {}

  /** Reads the header, and makes the iterator for the rest. */
  method NewGorillaIterFromBytes(b: seq<Octet>) returns (it: GorillaIter?, err: Error)
    ensures match ParseHead(Flatten(b))
            case HeadEof => it == null && err == Eof
            case HeadBad => it == null && err == NotGorilla
            case Head(full, num, ts, tms, rest) =>
              if num != NUM_VALUES then it == null && err == OtherValueCount
              else it != null && fresh(it) && fresh(it.br) && err == NoError && it.Ready()
                   && it.err == NoError && !it.finished
                   && it.State() == NewReader(full, ts, tms) && it.br.Rest() == rest
  {
    hide Drainable, Remaining, FromInt, ToNat, Octets, Flatten, FloatOfInt, Zeros, Fit64;
    ghost var bits := Flatten(b);
    var br := new BitStream.Reader(b);
    br.SetCount();
    assert br.Rest() == bits;
    var head, ok := br.ReadBytes(4);
    if !ok {
      return null, Eof;
    }
    assert Flatten(head) == bits[..32];
    SameTag(head, TAG_NANOSECOND);
    SameTag(head, TAG_SECOND);
    SameTag(head, TAG_NANO_SMART);
    if head != Octets(TAG_NANOSECOND) && head != Octets(TAG_SECOND) && head != Octets(TAG_NANO_SMART) {
      return null, NotGorilla;
    }
    var full := true;
    if head == Octets(TAG_SECOND) {
      full := false;
    }
    var numvals, ok8 := br.ReadBits(8);
    if !ok8 {
      return null, Eof;
    }
    assert bits[32..][..8] == bits[32..40] && bits[32..][8..] == bits[40..];
    Padded(bits[32..40]);
    var t0, ok32 := br.ReadBits(32);
    if !ok32 {
      return null, Eof;
    }
    assert bits[40..][..32] == bits[40..72] && bits[40..][32..] == bits[72..];
    Padded(bits[40..72]);
    var ms := ZERO;
    if full {
      var v, okms := br.ReadBits(32);
      if !okms {
        return null, Eof;
      }
      assert bits[72..][..32] == bits[72..104] && bits[72..][32..] == bits[104..];
      Padded(bits[72..104]);
      ms := FloatOfInt(U32Of(v[32..]));
    }
    if ToNat(numvals[56..]) != NUM_VALUES {
      return null, OtherValueCount;
    }
    it := new GorillaIter(br, U32Of(t0[32..]), full, ms);
    err := NoError;
    ghost var blank := Slot(ZERO, Window(0, 0));
    assert it.State().slots == [blank, blank, blank, blank, blank];
  }

  lemma SameTag(head: seq<Octet>, tag: string)
    requires |head| == 4 && |tag| == 4
    ensures head == Octets(tag) <==> Flatten(head) == Flatten(Octets(tag))
  {
    if Flatten(head) == Flatten(Octets(tag)) {
      FlattenInjective(head, Octets(tag));
    }
  }

  /** A short number read into a 64-bit word can be cut out again. */
  lemma Padded(s: seq<bool>)
    requires |s| <= 64
    ensures Fit64(s)[64 - |s|..] == s
  {}

  // ---- the iterator ----

  datatype Error = NoError | Eof | NotGorilla | OtherValueCount

  class GorillaIter {
    const Ts: nat
    const fullResolution: bool
    var curSmartEnc: bool
    var curTime: nat
    var curVals: seq<Word>
    var leading: seq<nat>
    var trailing: seq<nat>
    var curTimeMs: Word
    var leadingMs: nat
    var trailingMs: nat
    const br: BitStream
    var start: bool
    var finished: bool
    var tDelta: nat
    var err: Error

    constructor (br: BitStream, ts: nat, full: bool, ms: Word)
      requires br.Reading()
      ensures Ready() && this.br == br && err == NoError && !finished
      ensures State() == Reader(full, ts, 0, 0, Slot(ms, Window(0, 0)),
                                seq(5, _ => Slot(ZERO, Window(0, 0))), true, false)
    {
      this.br, Ts, fullResolution, curTimeMs := br, ts, full, ms;
      curSmartEnc, start, finished, err := true, true, false, NoError;
      curTime, tDelta, leadingMs, trailingMs := 0, 0, 0, 0;
      curVals := [ZERO, ZERO, ZERO, ZERO, ZERO];
      leading, trailing := [0, 0, 0, 0, 0], [0, 0, 0, 0, 0];
    }

    ghost predicate Ready()
      reads this, br
    {
      |curVals| == 5 && |leading| == 5 && |trailing| == 5 && br.Reading()
    }

    ghost function State(): (r: Reader)
      requires |curVals| == 5 && |leading| == 5 && |trailing| == 5
      reads this
    {
      Reader(fullResolution, Ts, curTime, tDelta, Slot(curTimeMs, Window(leadingMs, trailingMs)),
             Zipped(curVals, leading, trailing), start, !curSmartEnc)
    }

    /** Everything that calls of Next will still yield. */
    ghost function Pending(): (d: Decoded)
      requires Ready()
      reads this, br
    {
      DecodeAll(State(), br.Rest())
    }

    method UncompressValue(curV: Word, oLeading: nat, oTrailing: nat)
      returns (ok: bool, v: Word, lead: nat, trail: nat)
      requires br.Reading() && err == NoError
      modifies br, this`err
      ensures br.Reading()
      ensures match Get(Slot(curV, Window(oLeading, oTrailing)), start, old(br.Rest()))
              case SlotEof => !ok && err == Eof
              case SlotRead(s, rest) => ok && s == Slot(v, Window(lead, trail)) && br.Rest() == rest && err == NoError
    {
      hide Drainable, Remaining, ToNat, Xor, Shl, Zeros;
      ghost var bits := br.Rest();
      if start {
        var tbits, ok64 := br.ReadBits(64);
        if !ok64 {
          err := Eof;
          return false, ZERO, oLeading, oTrailing;
        }
        Padded(bits[..64]);
        assert Fit64(bits[..64])[0..] == Fit64(bits[..64]);
        return true, tbits, oLeading, oTrailing;
      }
      var bit, okBit := br.ReadBit();
      if !okBit {
        err := Eof;
        return false, curV, oLeading, oTrailing;
      }
      if !bit {
        return true, curV, oLeading, oTrailing;
      }
      bit, okBit := br.ReadBit();
      if !okBit {
        err := Eof;
        return false, curV, oLeading, oTrailing;
      }
      assert bits[1..][1..] == bits[2..];
      if !bit {
        lead, trail := oLeading, oTrailing;
      } else {
        var f, okField := br.ReadBits(5);
        if !okField {
          err := Eof;
          return false, ZERO, oLeading, oTrailing;
        }
        assert bits[2..][..5] == bits[2..7] && bits[2..][5..] == bits[7..];
        Padded(bits[2..7]);
        lead := ToNat(f[59..]);
        f, okField := br.ReadBits(6);
        if !okField {
          err := Eof;
          return false, ZERO, oLeading, oTrailing;
        }
        assert bits[7..][..6] == bits[7..13] && bits[7..][6..] == bits[13..];
        Padded(bits[7..13]);
        var mbits := ToNat(f[58..]);
        if mbits == 0 {
          mbits := 64;
        }
        trail := (64 - lead - mbits) % 256;
      }
      var nbits := (64 - lead - trail) % 256;
      ghost var body := br.Rest();
      assert UncompressBody(curV, Window(lead, trail), body) == Uncompress(curV, Window(oLeading, oTrailing), bits);
      var sig, okSig := br.ReadBits(nbits);
      if !okSig {
        err := Eof;
        return false, curV, lead, trail;
      }
      return true, Xor(curV, Shl(sig, trail)), lead, trail;
    }

    method ReadValue(idx: nat) returns (ok: bool)
      requires Ready() && idx < 5 && err == NoError
      modifies br, this`err, this`curVals, this`leading, this`trailing
      ensures Ready()
      ensures match Get(old(State()).slots[idx], start, old(br.Rest()))
              case SlotEof => !ok && err == Eof
              case SlotRead(s, rest) =>
                && ok && err == NoError && br.Rest() == rest
                && State() == old(State()).(slots := old(State()).slots[idx := s])
    {
      hide Drainable, Remaining, Get;
      ghost var slots := State().slots;
      var v, l, t;
      ok, v, l, t := UncompressValue(curVals[idx], leading[idx], trailing[idx]);
      curVals, leading, trailing := curVals[idx := v], leading[idx := l], trailing[idx := t];
      assert Zipped(curVals, leading, trailing) == slots[idx := Slot(v, Window(l, t))];
    }

    /** The size of the value after a prefix. */
    static function SizeOf(d: nat): (size: nat)
    {
      match d case 0x02 => 7 case 0x06 => 9 case 0x0e => 12 case 0x0f => 32 case _ => 0
    }

    /** Up to four bits, gathered into d as 0, 10, 110, 1110 or 1111. */
    method ReadPrefixBits() returns (ok: bool, d: nat)
      requires br.Reading() && err == NoError
      modifies br, this`err
      ensures br.Reading()
      ensures match ReadPrefix(old(br.Rest()))
              case PrefixEof => !ok && err == Eof
              case PrefixRead(size, rest) => ok && br.Rest() == rest && err == NoError && SizeOf(d) == size
    {
      hide Drainable, Remaining;
      ghost var bits := br.Rest();
      d := 0;
      var i := 0;
      while i < 4
        invariant 0 <= i <= 4 && br.Reading() && err == NoError
        invariant i <= |bits| && br.Rest() == bits[i..] && (forall j :: 0 <= j < i ==> bits[j])
        invariant d == [0, 1, 3, 7, 15][i]
      {
        d := 2 * d;
        var bit, good := br.ReadBit();
        if !good {
          err := Eof;
          return false, d;
        }
        assert bits[i..][0] == bits[i] && bits[i..][1..] == bits[i + 1..];
        if !bit {
          return true, d;
        }
        d := d + 1;
        i := i + 1;
      }
      ok := true;
    }

    method ReadDelta() returns (ok: bool, dod: int)
      requires br.Reading() && err == NoError && !finished
      modifies br, this`err, this`finished
      ensures br.Reading()
      ensures match ReadDod(old(br.Rest()))
              case DodEof => !ok && err == Eof && !finished
              case DodEnd => !ok && err == NoError && finished
              case DodRead(v, rest) => ok && dod == v && br.Rest() == rest && err == NoError && !finished
    {
      hide Drainable, Remaining, ReadPrefix, ToNat, Fit64, Pow2;
      var d;
      ok, d := ReadPrefixBits();
      if !ok {
        return false, 0;
      }
      ghost var rest := br.Rest();
      var sz := if d == 0x0f then 0 else SizeOf(d);
      dod := 0;
      if d == 0x0f {
        var bits, good := br.ReadBits(32);
        if !good {
          err := Eof;
          return false, 0;
        }
        Padded(rest[..32]);
        if ToNat(bits[32..]) == END_MARK {
          finished := true;
          return false, 0;
        }
        dod := ToInt32(ToNat(bits[32..]));
      }
      if sz != 0 {
        var bits, good := br.ReadBits(sz);
        if !good {
          err := Eof;
          return false, 0;
        }
        Padded(rest[..sz]);
        var n := ToNat(bits[64 - sz..]);
        dod := if n > Pow2(sz - 1) then n - Pow2(sz) else n;
      }
      EmptyField(rest);
      ok := true;
    }

    method ReadNanos() returns (ok: bool)
      requires Ready() && err == NoError && !finished && fullResolution && !start
      modifies br, this`err, this`curTimeMs, this`leadingMs, this`trailingMs
      ensures Ready()
      ensures match ReadMs(old(State()), old(br.Rest()))
              case TimeEof => !ok && err == Eof
              case TimeEnd => false
              case TimeRead(r, rest) => ok && State() == r && br.Rest() == rest && err == NoError
    {
      hide Drainable, Remaining, Get, Zipped;
      ok, curTimeMs, leadingMs, trailingMs := UncompressValue(curTimeMs, leadingMs, trailingMs);
    }

    method ReadTimeDelta() returns (ok: bool)
      requires Ready() && err == NoError && !finished
      modifies br, this`err, this`finished, this`curTime, this`tDelta, this`start
      modifies this`curTimeMs, this`leadingMs, this`trailingMs
      ensures Ready()
      ensures match ReadTime(old(State()), old(br.Rest()))
              case TimeEof => !ok && err == Eof && !finished
              case TimeEnd => !ok && err == NoError && finished
              case TimeRead(r, rest) => ok && State() == r && br.Rest() == rest && err == NoError && !finished
    {
      hide Drainable, Remaining, Get, Zipped, ToNat, ReadDod, Fit64;
      ghost var bits := br.Rest();
      if start {
        var delta, good := br.ReadBits(14);
        if !good {
          err := Eof;
          return false;
        }
        Padded(bits[..14]);
        tDelta := ToNat(delta[50..]);
        curTime := (Ts + tDelta) % M32;
        ok := true;
        if fullResolution {
          start := false;
          ok := ReadNanos();
          start := true;
        }
        return;
      }
      var dod;
      ok, dod := ReadDelta();
      if !ok {
        return;
      }
      tDelta := (tDelta + dod) % M32;
      curTime := (curTime + tDelta) % M32;
      if !fullResolution {
        return;
      }
      ok := ReadNanos();
    }

    /** One call of Next consumes one point of what is pending; at the end record it stops cleanly. */
    method Next() returns (ok: bool)
      requires Ready()
      modifies this, br
      ensures Ready()
      ensures old(err) != NoError || old(finished) ==>
                && !ok && err == old(err) && finished == old(finished)
                && State() == old(State()) && br.Rest() == old(br.Rest())
      ensures old(err) == NoError && !old(finished) ==>
                match ReadPoint(old(State()), old(br.Rest()))
                case Failed => !ok && err == Eof && !finished
                case Finished => !ok && err == NoError && finished
                case Got(r, rest) => ok && State() == r && br.Rest() == rest && err == NoError && !finished
    {
      hide Drainable, Remaining, Get, GetAll, Zipped, ReadTime;
      if err != NoError || finished {
        return false;
      }
      ok := ReadTimeDelta();
      if !ok {
        return;
      }
      ghost var r, bits := State(), br.Rest();
      curSmartEnc := true;
      var bit, good := br.ReadBit();
      curSmartEnc := bit;
      if !good {
        err := Eof;
        return false;
      }
      if !curSmartEnc {
        ok := ReadValue(3);
        if !ok {
          return;
        }
      } else {
        ok := ReadAllValues();
        if !ok {
          return;
        }
      }
      start := false;
    }

    method ReadAllValues() returns (ok: bool)
      requires Ready() && err == NoError
      modifies br, this`err, this`curVals, this`leading, this`trailing
      ensures Ready()
      ensures match GetAll(old(State()).slots, start, old(br.Rest()))
              case SlotsEof => !ok && err == Eof
              case SlotsRead(ss, rest) =>
                ok && State() == old(State()).(slots := ss) && br.Rest() == rest && err == NoError
    {
      hide Drainable, Remaining, Get, GetAll, Zipped, Prepended;
      ghost var ss, bits := State().slots, br.Rest();
      ghost var done: seq<Slot> := [];
      var i := 0;
      assert ss[0..] == ss && done + ss == ss;
      PrependNone(GetAll(ss, start, bits));
      while i < NUM_VALUES
        invariant 0 <= i <= 5 && Ready() && err == NoError && |done| == i
        invariant State().slots == done + ss[i..]
        invariant GetAll(ss, start, bits) == Prepended(done, GetAll(ss[i..], start, br.Rest()))
      {
        GetAllStep(ss, i, start, br.Rest(), done);
        NthSlot(done, ss, i);
        ok := ReadValue(i);
        if !ok {
          return;
        }
        ghost var s := State().slots[i];
        SlotDone(done, ss, i, s);
        done := done + [s];
        i := i + 1;
      }
      GetAllEnd(ss, start, br.Rest(), done);
      ok := true;
    }

    method Values() returns (p: Point)
      requires Ready()
      ensures p == GorillaCode.Values(State())
    {
      hide IntOfFloat, UintOfFloat;
      var t := CombineSecNano(curTime, UintOfFloat(curTimeMs));
      if !curSmartEnc {
        var v := curVals[3];
        return Point(t, v, v, v, v, 1);
      }
      return Point(t, curVals[0], curVals[1], curVals[2], curVals[3], IntOfFloat(curVals[4]));
    }

    /** The loop of every caller: all that is pending comes out, in order. */
    method Drain() returns (ps: seq<Point>)
      requires Ready() && err == NoError && !finished
      modifies this, br
      ensures Ready() && ps == old(Pending()).points
      ensures old(Pending()).finished ==> finished && err == NoError
      ensures !old(Pending()).finished ==> !finished && err == Eof
    {
      hide Drainable, Remaining, GorillaCode.Values, ReadPoint, Zipped;
      ps := [];
      ghost var all := Pending();
      var more := Next();
      while more
        invariant Ready()
        invariant more ==> err == NoError && !finished && Pending().finished == all.finished
        invariant more ==> ps + [GorillaCode.Values(State())] + Pending().points == all.points
        invariant !more ==> ps == all.points && finished == all.finished && err == if finished then NoError else Eof
        decreases more, |br.Rest()|
      {
        var p := Values();
        ps := ps + [p];
        assert ps + [] == ps;
        more := Next();
      }
    }
  }

  lemma EmptyField(rest: seq<bool>)
    ensures ReadField(0, rest) == DodRead(0, rest)
  {
    assert rest[..0] == [];
  }

  /** The slots already read in front of those still to be read. */
  ghost function Prepended(done: seq<Slot>, r: SlotsRead): (r': SlotsRead)
  {
    match r
    case SlotsEof => SlotsEof
    case SlotsRead(ss, rest) => SlotsRead(done + ss, rest)
  }

  lemma PrependNone(r: SlotsRead)
    ensures Prepended([], r) == r
  {
    if r.SlotsRead? {
      assert [] + r.slots == r.slots;
    }
  }

  lemma NthSlot(done: seq<Slot>, ss: seq<Slot>, i: nat)
    requires |done| == i < |ss|
    ensures (done + ss[i..])[i] == ss[i]
  {}

  lemma SlotDone(done: seq<Slot>, ss: seq<Slot>, i: nat, s: Slot)
    requires |done| == i < |ss|
    ensures (done + ss[i..])[i := s] == (done + [s]) + ss[i + 1..]
  {}

  lemma GetAllStep(ss: seq<Slot>, i: nat, first: bool, bits: seq<bool>, done: seq<Slot>)
    requires i < |ss|
    ensures match Get(ss[i], first, bits)
            case SlotEof => Prepended(done, GetAll(ss[i..], first, bits)) == SlotsEof
            case SlotRead(s, rest) =>
              Prepended(done, GetAll(ss[i..], first, bits)) == Prepended(done + [s], GetAll(ss[i + 1..], first, rest))
  {
    hide Get;
    assert ss[i..][0] == ss[i] && ss[i..][1..] == ss[i + 1..];
    match Get(ss[i], first, bits) {
      case SlotEof =>
      case SlotRead(s, rest) =>
        match GetAll(ss[i + 1..], first, rest) {
          case SlotsEof =>
          case SlotsRead(more, _) => assert done + ([s] + more) == done + [s] + more;
        }
    }
  }

  lemma GetAllEnd(ss: seq<Slot>, first: bool, bits: seq<bool>, done: seq<Slot>)
    ensures Prepended(done, GetAll(ss[|ss|..], first, bits)) == SlotsRead(done, bits)
    ensures done + ss[|ss|..] == done
  {
    assert ss[|ss|..] == [];
    assert done + [] == done;
  }
}
