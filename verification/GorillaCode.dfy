/** The Gorilla format: the registers of writer and reader, what each point adds to the bit stream
    and how one point is read back. */
module GorillaCode {
  import opened Bits
  import opened Float64
  import opened Points
  import opened GorillaValue
  import opened GorillaTime

  /** One value register: the last value and the window used for it. */
  datatype Slot = Slot(val: Word, win: Window)

  ghost predicate OkSlot(s: Slot)
  {
    s.win.leading == NONE || Usable(s.win)
  }

  ghost predicate OkSlots(ss: seq<Slot>)
  {
    forall i :: 0 <= i < |ss| ==> OkSlot(ss[i])
  }

  // ---- writing ----

  /** A value is stored whole for the first point, and against its predecessor afterwards. */
  ghost function PutBits(s: Slot, v: Word, first: bool): (bits: seq<bool>)
    requires OkSlot(s)
  {
    if first then v else CompressBits(s.val, v, s.win)
  }

  function Put(s: Slot, v: Word, first: bool): (s': Slot)
    ensures OkSlot(s) ==> OkSlot(s')
  {
    if first then s.(val := v) else Slot(v, CompressWindow(s.val, v, s.win))
  }

  ghost function PutAllBits(ss: seq<Slot>, vs: seq<Word>, first: bool): (bits: seq<bool>)
    requires |ss| == |vs| && OkSlots(ss)
  {
    if |ss| == 0 then [] else PutBits(ss[0], vs[0], first) + PutAllBits(ss[1..], vs[1..], first)
  }

  ghost function PutAll(ss: seq<Slot>, vs: seq<Word>, first: bool): (ss': seq<Slot>)
    requires |ss| == |vs|
    ensures |ss'| == |ss|
    ensures OkSlots(ss) ==> OkSlots(ss')
  {
    if |ss| == 0 then [] else [Put(ss[0], vs[0], first)] + PutAll(ss[1..], vs[1..], first)
  }

  datatype Writer = Writer(full: bool, ts: nat, curTime: nat, curDelta: nat, ms: Slot, slots: seq<Slot>)

  ghost predicate OkWriter(w: Writer)
  {
    |w.slots| == 5 && OkSlots(w.slots) && OkSlot(w.ms)
  }

  ghost function MsBits(w: Writer, nano: nat): (bits: seq<bool>)
    requires OkSlot(w.ms) && nano < BILLION
  {
    if w.full then PutBits(w.ms, FloatOfInt(nano), false) else []
  }

  ghost function MsNext(w: Writer, nano: nat): (s: Slot)
    requires nano < BILLION
  {
    if w.full then Put(w.ms, FloatOfInt(nano), false) else w.ms
  }

  ghost function TimeBits(w: Writer, t: int): (bits: seq<bool>)
    requires OkSlot(w.ms)
  {
    var (sec, nano) := SplitNano(t);
    (if w.curTime == 0 then FromInt((sec - w.ts) % M32, 14)
     else DodBits(ToInt32((sec - w.curTime) % M32 - w.curDelta)))
    + MsBits(w, nano)
  }

  ghost function TimeNext(w: Writer, t: int): (w': Writer)
    ensures w'.slots == w.slots
  {
    var (sec, nano) := SplitNano(t);
    w.(curTime := sec,
       curDelta := (sec - (if w.curTime == 0 then w.ts else w.curTime)) % M32,
       ms := MsNext(w, nano))
  }

  function FullValues(p: Point): (vs: seq<Word>)
    requires IsInt64(p.count)
    ensures |vs| == 5
  {
    [p.min, p.max, p.last, p.sum, FloatOfInt(p.count)]
  }

  ghost function ValueBits(w: Writer, p: Point): (bits: seq<bool>)
    requires OkWriter(w) && IsPoint(p)
  {
    if IsSmall(p) then [false] + PutBits(w.slots[3], p.sum, w.curTime == 0)
    else [true] + PutAllBits(w.slots, FullValues(p), w.curTime == 0)
  }

  ghost function SlotsNext(w: Writer, p: Point): (ss: seq<Slot>)
    requires |w.slots| == 5 && IsPoint(p)
    ensures |ss| == 5
  {
    if IsSmall(p) then w.slots[3 := Put(w.slots[3], p.sum, w.curTime == 0)]
    else PutAll(w.slots, FullValues(p), w.curTime == 0)
  }

  /** The bits of one point, and the registers after it. */
  ghost function PointBits(w: Writer, p: Point): (bits: seq<bool>)
    requires OkWriter(w) && IsPoint(p)
  {
    TimeBits(w, p.t) + ValueBits(w, p)
  }

  ghost function PointNext(w: Writer, p: Point): (w': Writer)
    requires |w.slots| == 5 && IsPoint(p)
    ensures OkWriter(w) ==> OkWriter(w')
  {
    TimeNext(w, p.t).(slots := SlotsNext(w, p))
  }

  // ---- reading ----

  datatype SlotRead = SlotRead(slot: Slot, rest: seq<bool>) | SlotEof

  ghost function Get(s: Slot, first: bool, bits: seq<bool>): (r: SlotRead)
    ensures r.SlotRead? ==> |r.rest| <= |bits|
  {
    if first then
      if |bits| < 64 then SlotEof else SlotRead(s.(val := bits[..64]), bits[64..])
    else
      match Uncompress(s.val, s.win, bits)
      case ValueRead(v, w, rest) => SlotRead(Slot(v, w), rest)
      case ValueEof => SlotEof
  }

  datatype SlotsRead = SlotsRead(slots: seq<Slot>, rest: seq<bool>) | SlotsEof

  ghost function GetAll(ss: seq<Slot>, first: bool, bits: seq<bool>): (r: SlotsRead)
    ensures r.SlotsRead? ==> |r.slots| == |ss| && |r.rest| <= |bits|
  {
    if |ss| == 0 then SlotsRead([], bits)
    else
      match Get(ss[0], first, bits)
      case SlotEof => SlotsEof
      case SlotRead(s, rest) =>
        match GetAll(ss[1..], first, rest)
        case SlotsEof => SlotsEof
        case SlotsRead(more, rest') => SlotsRead([s] + more, rest')
  }

  datatype Reader = Reader(full: bool, ts: nat, curTime: nat, tDelta: nat, ms: Slot, slots: seq<Slot>,
                           start: bool, small: bool)

  datatype TimeRead = TimeRead(r: Reader, rest: seq<bool>) | TimeEnd | TimeEof

  ghost function ReadMs(r: Reader, bits: seq<bool>): (x: TimeRead)
    ensures x.TimeRead? ==> |x.rest| <= |bits| && x.r.slots == r.slots
  {
    if !r.full then TimeRead(r, bits)
    else
      match Get(r.ms, false, bits)
      case SlotEof => TimeEof
      case SlotRead(s, rest) => TimeRead(r.(ms := s), rest)
  }

  /** The clock of the reader after the first step, or after a step change. */
  function FirstStep(r: Reader, delta: nat): (r': Reader)
  {
    r.(tDelta := delta, curTime := (r.ts + delta) % M32)
  }

  function NextStep(r: Reader, dod: int): (r': Reader)
  {
    r.(tDelta := (r.tDelta + dod) % M32, curTime := (r.curTime + (r.tDelta + dod) % M32) % M32)
  }

  ghost function ReadTime(r: Reader, bits: seq<bool>): (x: TimeRead)
    ensures x.TimeRead? ==> |x.rest| <= |bits| && x.r.slots == r.slots
  {
    if r.start then
      if |bits| < 14 then TimeEof else ReadMs(FirstStep(r, ToNat(bits[..14])), bits[14..])
    else
      match ReadDod(bits)
      case DodEof => TimeEof
      case DodEnd => TimeEnd
      case DodRead(dod, rest) => ReadMs(NextStep(r, dod), rest)
  }

  datatype Step = Got(r: Reader, rest: seq<bool>) | Finished | Failed

  ghost function ReadValues(r: Reader, bits: seq<bool>): (s: Step)
    requires |r.slots| == 5
    ensures s.Got? ==> |s.r.slots| == 5 && !s.r.start && |s.rest| < |bits|
  {
    if |bits| < 1 then Failed
    else if !bits[0] then
      match Get(r.slots[3], r.start, bits[1..])
      case SlotEof => Failed
      case SlotRead(s, rest) => Got(r.(slots := r.slots[3 := s], start := false, small := true), rest)
    else
      match GetAll(r.slots, r.start, bits[1..])
      case SlotsEof => Failed
      case SlotsRead(ss, rest) => Got(r.(slots := ss, start := false, small := false), rest)
  }

  /** One call of the iterator's Next. */
  ghost function ReadPoint(r: Reader, bits: seq<bool>): (s: Step)
    requires |r.slots| == 5
    ensures s.Got? ==> |s.r.slots| == 5 && !s.r.start && |s.rest| < |bits|
  {
    match ReadTime(r, bits)
    case TimeEof => Failed
    case TimeEnd => Finished
    case TimeRead(r', rest) => ReadValues(r', rest)
  }

  /** The iterator's Values. */
  function Values(r: Reader): (p: Point)
    requires |r.slots| == 5
  {
    var t := CombineSecNano(r.curTime, UintOfFloat(r.ms.val));
    if r.small then
      var v := r.slots[3].val;
      Point(t, v, v, v, v, 1)
    else
      Point(t, r.slots[0].val, r.slots[1].val, r.slots[2].val, r.slots[3].val, IntOfFloat(r.slots[4].val))
  }
}
