/** One float of the Gorilla format: it is stored as the difference to its predecessor (exclusive or),
    cut to a window of significant bits that writer and reader both remember. */
module GorillaValue {
  import opened Bits

  /** The remembered zero bits on both sides of a difference. */
  datatype Window = Window(leading: nat, trailing: nat)

  /** The writer's mark for "no window yet": all ones in a uint8. */
  const NONE: nat := 255

  function LeadingZeros(s: seq<bool>): (k: nat)
    ensures k <= |s|
    ensures forall i :: 0 <= i < k ==> !s[i]
    ensures k < |s| ==> s[k]
  {
    if |s| == 0 || s[0] then 0 else 1 + LeadingZeros(s[1..])
  }

  function TrailingZeros(s: seq<bool>): (k: nat)
    ensures k <= |s|
    ensures forall i :: |s| - k <= i < |s| ==> !s[i]
    ensures k < |s| ==> s[|s| - 1 - k]
  {
    if |s| == 0 || s[|s| - 1] then 0 else 1 + TrailingZeros(s[..|s| - 1])
  }

  function Clamped(lead: nat): (l: nat)
    ensures l <= lead && l <= 31
  {
    if lead >= 32 then 31 else lead
  }

  /** The window of a difference, its leading zeros cut to what 5 bits hold. */
  function WindowOf(d: Word): (w: Window)
  {
    Window(Clamped(LeadingZeros(d)), TrailingZeros(d))
  }

  predicate Usable(w: Window)
  {
    w.leading <= 31 && w.leading + w.trailing <= 63
  }

  /** d has at least the zero bits of w in front and behind. */
  ghost predicate Covers(w: Window, d: Word)
  {
    Usable(w) && d[..w.leading] == Zeros(w.leading) && d[64 - w.trailing..] == Zeros(w.trailing)
  }

  /** The old window w can be used again for a difference whose own window is v. */
  predicate Reuses(v: Window, w: Window)
  {
    w.leading != NONE && v.leading >= w.leading && v.trailing >= w.trailing
  }

  /** The part of a difference inside a window. */
  function Inside(d: Word, w: Window): (s: seq<bool>)
    requires Usable(w)
    ensures |s| == 64 - w.leading - w.trailing
  {
    d[w.leading..64 - w.trailing]
  }

  function WindowHeader(v: Window): (bits: seq<bool>)
    requires Usable(v)
    ensures |bits| == 13
  {
    [true, true] + FromInt(v.leading, 5) + FromInt(64 - v.leading - v.trailing, 6)
  }

  /** The bits for a non-zero difference d with its own window v, when w was in force. */
  function DeltaBits(d: Word, v: Window, w: Window): (bits: seq<bool>)
    requires Usable(v) && (w.leading == NONE || Usable(w))
  {
    if Reuses(v, w) then [true, false] + Inside(d, w) else WindowHeader(v) + Inside(d, v)
  }

  function DeltaWindow(v: Window, w: Window): (w': Window)
  {
    if Reuses(v, w) then w else v
  }

  function CompressBits(cur: Word, next: Word, w: Window): (bits: seq<bool>)
    requires w.leading == NONE || Usable(w)
  {
    var d := Xor(next, cur);
    WindowBounds(d);
    if d == ZERO then [false] else DeltaBits(d, WindowOf(d), w)
  }

  function CompressWindow(cur: Word, next: Word, w: Window): (w': Window)
    ensures w.leading == NONE || Usable(w) ==> w'.leading == NONE || Usable(w')
  {
    var d := Xor(next, cur);
    WindowBounds(d);
    if d == ZERO then w else DeltaWindow(WindowOf(d), w)
  }

  lemma WindowBounds(d: Word)
    ensures d != ZERO ==> Covers(WindowOf(d), d)
  {
    var l, t := LeadingZeros(d), TrailingZeros(d);
    if d != ZERO {
      var i :| 0 <= i < 64 && d[i];
      assert l <= i < 64 - t;
    }
  }

  /** What is read back: a value, the window now in force, and the bits not yet read. */
  datatype ValueRead = ValueRead(val: Word, win: Window, rest: seq<bool>) | ValueEof

  function UncompressBody(cur: Word, w: Window, bits: seq<bool>): (r: ValueRead)
    ensures r.ValueRead? ==> |r.rest| <= |bits|
  {
    var n := (64 - w.leading - w.trailing) % 256;
    if |bits| < n then ValueEof
    else ValueRead(Xor(cur, Shl(Fit64(bits[..n]), w.trailing)), w, bits[n..])
  }

  /** A stored window. Zero significant bits stand for 64; the registers are 8 bits wide. */
  function StoredWindow(lead: nat, sig: nat): (w: Window)
  {
    Window(lead, (64 - lead - (if sig == 0 then 64 else sig)) % 256)
  }

  /** The control bits in front of a value. */
  datatype Control = Same(rest: seq<bool>) | Reuse(rest: seq<bool>) | New(win: Window, rest: seq<bool>) | ControlEof

  function ReadControl(bits: seq<bool>): (c: Control)
    ensures !c.ControlEof? ==> |c.rest| < |bits|
  {
    if |bits| < 1 then ControlEof
    else if !bits[0] then Same(bits[1..])
    else if |bits| < 2 then ControlEof
    else if !bits[1] then Reuse(bits[2..])
    else if |bits| < 13 then ControlEof
    else New(StoredWindow(ToNat(bits[2..7]), ToNat(bits[7..13])), bits[13..])
  }

  function Uncompress(cur: Word, w: Window, bits: seq<bool>): (r: ValueRead)
    ensures r.ValueRead? ==> |r.rest| < |bits|
  {
    match ReadControl(bits)
    case Same(rest) => ValueRead(cur, w, rest)
    case Reuse(rest) => UncompressBody(cur, w, rest)
    case New(win, rest) => UncompressBody(cur, win, rest)
    case ControlEof => ValueEof
  }

  /** The reader's window equals the writer's, unless the writer has none yet. */
  predicate InStep(we: Window, wd: Window)
  {
    we.leading == NONE || (we == wd && Usable(we))
  }

  lemma Replaces(d: Word, w: Window)
    requires Covers(w, d)
    ensures Shl(Fit64(Inside(d, w)), w.trailing) == d
  {
    var l, t := w.leading, w.trailing;
    var body := Inside(d, w);
    assert Fit64(body) == Zeros(l + t) + body;
    assert (Zeros(l + t) + body)[t..] == Zeros(l) + body;
    assert d == d[..l] + body + d[64 - t..];
  }

  /** A difference is rebuilt from the bits inside any window that covers it. */
  lemma BodyRebuilds(cur: Word, d: Word, w: Window, rest: seq<bool>)
    requires Covers(w, d)
    ensures UncompressBody(cur, w, Inside(d, w) + rest) == ValueRead(Xor(cur, d), w, rest)
  {
    var body := Inside(d, w);
    var bits := body + rest;
    var n := 64 - w.leading - w.trailing;
    assert bits[..n] == body && bits[n..] == rest;
    Replaces(d, w);
  }

  lemma FieldsBack(l: nat, sig: nat)
    requires l <= 31 && 1 <= sig <= 64
    ensures ToNat(FromInt(l, 5)) == l
    ensures ToNat(FromInt(sig, 6)) == if sig == 64 then 0 else sig
  {
    Pow2Small();
    FitsRoundTrip(l, 5);
    ToNatFromInt(sig, 6);
  }

  lemma HeaderParts(a: seq<bool>, b: seq<bool>, c: seq<bool>)
    requires |a| == 5 && |b| == 6
    ensures var s := ([true, true] + a + b) + c;
            s[0] && s[1] && s[2..7] == a && s[7..13] == b && s[13..] == c
  {}

  lemma ControlOf(a: seq<bool>, b: seq<bool>, l: nat, sig: nat, tail: seq<bool>)
    requires |a| == 5 && |b| == 6 && l <= 31 && 1 <= sig && l + sig <= 64
    requires ToNat(a) == l && ToNat(b) == if sig == 64 then 0 else sig
    ensures ReadControl(([true, true] + a + b) + tail) == New(Window(l, 64 - l - sig), tail)
  {
    HeaderParts(a, b, tail);
  }

  lemma HeaderRead(v: Window, tail: seq<bool>)
    requires Usable(v)
    ensures ReadControl(WindowHeader(v) + tail) == New(v, tail)
  {
    var sig := 64 - v.leading - v.trailing;
    FieldsBack(v.leading, sig);
    ControlOf(FromInt(v.leading, 5), FromInt(sig, 6), v.leading, sig, tail);
  }

  lemma DeltaInStep(cur: Word, d: Word, v: Window, we: Window, wd: Window, rest: seq<bool>)
    requires Covers(v, d) && InStep(we, wd)
    ensures Uncompress(cur, wd, DeltaBits(d, v, we) + rest) == ValueRead(Xor(cur, d), DeltaWindow(v, we), rest)
  {
    hide Inside, Xor, WindowHeader, UncompressBody, FromInt;
    if Reuses(v, we) {
      Narrower(d, v, we);
      BodyRebuilds(cur, d, we, rest);
      var tail := Inside(d, we) + rest;
      assert [true, false] + Inside(d, we) + rest == [true, false] + tail;
      assert ReadControl([true, false] + tail) == Reuse(tail);
    } else {
      BodyRebuilds(cur, d, v, rest);
      HeaderRead(v, Inside(d, v) + rest);
      assert WindowHeader(v) + Inside(d, v) + rest == WindowHeader(v) + (Inside(d, v) + rest);
    }
  }

  lemma Narrower(d: Word, v: Window, w: Window)
    requires Covers(v, d) && Usable(w) && w.leading <= v.leading && w.trailing <= v.trailing
    ensures Covers(w, d)
  {
    assert d[..w.leading] == d[..v.leading][..w.leading];
    assert d[64 - w.trailing..] == d[64 - v.trailing..][v.trailing - w.trailing..];
  }

  /** The value codec keeps in step: from any pair of windows in step, the reader recovers the exact
      pattern, uses up exactly the bits written, and the windows are in step again. */
  lemma ValueInStep(cur: Word, next: Word, we: Window, wd: Window, rest: seq<bool>)
    requires InStep(we, wd)
    ensures var r := Uncompress(cur, wd, CompressBits(cur, next, we) + rest);
            r.ValueRead? && r.val == next && r.rest == rest && InStep(CompressWindow(cur, next, we), r.win)
  {
    var d := Xor(next, cur);
    XorCancels(cur, next);
    if d == ZERO {
      assert ReadControl([false] + rest) == Same(rest);
    } else {
      WindowBounds(d);
      DeltaInStep(cur, d, WindowOf(d), we, wd, rest);
    }
  }

  /** The window in force is used again exactly when all set bits of the difference lie inside it. */
  lemma ReuseExactly(d: Word, w: Window)
    requires d != ZERO && Usable(w)
    ensures Reuses(WindowOf(d), w) <==> Covers(w, d)
  {
    WindowBounds(d);
    if Covers(w, d) {
      forall i | 0 <= i < w.leading ensures !d[i] {
        assert d[..w.leading][i] == Zeros(w.leading)[i];
      }
      forall i | 64 - w.trailing <= i < 64 ensures !d[i] {
        assert d[64 - w.trailing..][i - (64 - w.trailing)] == Zeros(w.trailing)[i - (64 - w.trailing)];
      }
    }
  }

  /** The exact cost of a changed value: two control bits and the window in force if that holds the difference;
      otherwise thirteen bits and the bits from the first set one, or the 32nd bit if that comes first, to the
      last. */
  lemma CostExactly(cur: Word, next: Word, w: Window)
    requires cur != next && (w.leading == NONE || Usable(w))
    ensures var d := Xor(next, cur);
            var bits := CompressBits(cur, next, w);
            if w.leading != NONE && Covers(w, d) then |bits| == 2 + (64 - w.leading - w.trailing)
            else |bits| == 13 + (64 - (if LeadingZeros(d) < 31 then LeadingZeros(d) else 31) - TrailingZeros(d))
  {
    hide FromInt, LeadingZeros, TrailingZeros, Covers, Inside;
    var d := Xor(next, cur);
    XorCancels(cur, next);
    WindowBounds(d);
    if w.leading != NONE {
      ReuseExactly(d, w);
    }
  }
}
