/** All compressed series refine the plain list: on the same points they report the same list. */
module SeriesRefinement {
  import opened Bits
  import opened Float64
  import opened Points
  import G = GorillaRoundTrip
  import Gob = GobCode
  import L = ListSeries
  import P = ProtoMessages

  /** A point that no format has to change: if its four values are the same bit pattern or its count is one
      then both hold; its values are numbers, not the unset flag and not a negative zero; its count has at most
      53 significant bits; its stamp is in nanoseconds with seconds that fit 32 bits. */
  ghost predicate Ordinary(p: Point)
  {
    && IsPoint(p)
    && 2147483647 < p.t < M32 * BILLION
    && (p.count == 1 || (p.min == p.max && p.min == p.last && p.min == p.sum) ==> Gob.Clean(p))
    && IsUsable(p.min) && IsUsable(p.max) && IsUsable(p.last) && IsUsable(p.sum)
    && !NegativeZero(p.min) && !NegativeZero(p.max) && !NegativeZero(p.last) && !NegativeZero(p.sum)
    && Exact(if p.count < 0 then -p.count else p.count)
  }

  /** The plain list with the stamps cut to whole seconds where the format does so. */
  function Cut(full: bool, p: Point): (q: Point)
  {
    if full then p else p.(t := p.t / BILLION * BILLION)
  }

  function CutAll(full: bool, ps: seq<Point>): (qs: seq<Point>)
    ensures |qs| == |ps|
    decreases |ps|
  {
    if |ps| == 0 then [] else [Cut(full, ps[0])] + CutAll(full, ps[1..])
  }

  lemma OrdinaryStored(full: bool, p: Point)
    requires Ordinary(p)
    ensures AsStored(full, p) == Cut(full, p)
    ensures G.Fits(full, p)
    ensures SplitNano(p.t).0 != 0 && Gob.UseTime(full, p.t) != 0
  {
    hide IsSmall, Exact, IsUsable, NegativeZero;
    SmallIsClean(p);
    assert Shrunk(p) == p;
    StampRoundTrip(p.t);
    assert SplitNano(p.t).0 == p.t / BILLION;
  }

  lemma {:induction false} OrdinaryAll(full: bool, ps: seq<Point>)
    requires forall p :: p in ps ==> Ordinary(p)
    ensures forall p :: p in ps ==> IsPoint(p)
    ensures AsStoredAll(full, ps) == CutAll(full, ps)
    ensures forall p :: p in ps ==> G.Fits(full, p)
    decreases |ps|
  {
    hide AsStored, G.Fits, Cut, IsPoint, IsUsable, NegativeZero, Exact;
    forall p | p in ps ensures IsPoint(p) && G.Fits(full, p) {
      assert Ordinary(p);
      OrdinaryStored(full, p);
    }
    if |ps| > 0 {
      OrdinaryStored(full, ps[0]);
      OrdinaryAll(full, ps[1..]);
    }
  }

  lemma OrdinaryStamps(full: bool, ps: seq<Point>)
    requires forall p :: p in ps ==> Ordinary(p)
    ensures G.StampsNonZero(ps)
  {
    hide Ordinary, SplitNano;
    forall i | 0 <= i < |ps| ensures SplitNano(ps[i].t).0 != 0 {
      OrdinaryStored(full, ps[i]);
    }
  }

  lemma {:induction false} OrdinarySafe(full: bool, t0: int, ps: seq<Point>)
    requires forall p :: p in ps ==> Ordinary(p)
    ensures Gob.Safe(full, t0, true, ps)
    decreases |ps|
  {
    hide Ordinary, Gob.UseTime, IsSmall, Gob.Clean;
    if |ps| > 0 {
      OrdinaryStored(full, ps[0]);
      SmallIsClean(ps[0]);
      OrdinarySafe(full, t0, ps[1..]);
    }
  }

  lemma SmallIsClean(p: Point)
    requires Ordinary(p)
    ensures IsSmall(p) ==> Gob.Clean(p)
    ensures L.NoNegativeZero(p)
  {
    hide IsSmall, IsNaN, IsInf, NegativeZero, Exact, ToNat;
    KindsOfFloat(p.min);
    SmallExactly(p);
  }

  /** The plain series reports the points themselves. */
  lemma PlainList(ps: seq<Point>)
    requires forall p :: p in ps ==> Ordinary(p)
    ensures L.CheckedAll(ps) == ps
  {
    hide L.Checked, IsUsable, NegativeZero, Exact;
    forall i | 0 <= i < |ps| ensures L.Checked(ps[i]) == ps[i] {
      assert Ordinary(ps[i]);
      L.CheckedExactly(ps[i]);
    }
  }

  lemma GobRefines(full: bool, t0: int, ps: seq<Point>)
    requires IsInt64(t0) && forall p :: p in ps ==> Ordinary(p)
    ensures forall p :: p in ps ==> IsPoint(p)
    ensures Gob.DecodeAll(Gob.NewReader(full, t0), Gob.StreamTokens(Gob.NewWriter(full, t0), ps)) == CutAll(full, ps)
  {
    hide Gob.DecodeAll, Gob.StreamTokens, Ordinary, AsStoredAll, CutAll, Gob.Safe, Gob.NewReader, Gob.NewWriter;
    hide G.Fits, Gob.UseTime;
    OrdinaryAll(full, ps);
    OrdinarySafe(full, Gob.UseTime(full, t0), ps);
    Gob.RoundTripExact(full, t0, ps);
  }

  /** The protobuf encoding of these points decodes to records that report the points qs. */
  ghost predicate ProtobufGives(full: bool, ps: seq<Point>, qs: seq<Point>)
  {
    var bs := P.EncodeStats(P.Stats(full, L.StatsOf(full, ps)));
    var r := P.DecodeStats(P.NEW_STATS, bs);
    && r.Ok? && r.value.fullResolution == full
    && (forall s :: s in r.value.stats ==> L.HasValue(s))
    && L.ValuesAll(full, r.value.stats) == qs
  }

  lemma ProtobufRefines(full: bool, ps: seq<Point>)
    requires forall p :: p in ps ==> Ordinary(p)
    ensures ProtobufGives(full, ps, CutAll(full, ps))
  {
    hide P.DecodeStats, P.EncodeStats, L.StatsOf, L.ValuesAll, CutAll, AsStoredAll, G.Fits, L.NoNegativeZero;
    hide Ordinary;
    OrdinaryAll(full, ps);
    L.RecordsOk(full, ps);
    P.StatsRoundTrip(P.Stats(full, L.StatsOf(full, ps)));
    L.BytesKeepPoints(full, ps);
    forall p | p in ps ensures L.NoNegativeZero(p) {
      SmallIsClean(p);
    }
  }

  lemma GorillaRefines(full: bool, t0: int, ps: seq<Point>, rest: seq<bool>)
    requires |ps| > 0 && forall p :: p in ps ==> Ordinary(p)
    requires (SplitNano(ps[0].t).0 - SplitNano(t0).0) % M32 < 16384
    ensures forall p :: p in ps ==> IsPoint(p)
    ensures G.ReadBack(full, SplitNano(t0).0, SplitNano(t0).1, ps, rest) == G.Decoded(CutAll(full, ps), true)
  {
    hide G.ReadBack, Ordinary, G.Fits, AsStoredAll, CutAll, SplitNano, G.StampsNonZero, Gob.Safe;
    OrdinaryAll(full, ps);
    OrdinaryStamps(full, ps);
    G.RoundTripExact(full, SplitNano(t0).0, SplitNano(t0).1, ps, rest);
  }

  /** One statement for all: at either resolution the plain list, the gob series, the protobuf series and
      the Gorilla series report the same points, with stamps cut to seconds at second resolution. */
  lemma AllSeriesAgree(full: bool, t0: int, ps: seq<Point>, rest: seq<bool>)
    requires IsInt64(t0) && |ps| > 0 && forall p :: p in ps ==> Ordinary(p)
    requires (SplitNano(ps[0].t).0 - SplitNano(t0).0) % M32 < 16384
    ensures forall p :: p in ps ==> IsPoint(p)
    ensures L.CheckedAll(ps) == ps
    ensures Gob.DecodeAll(Gob.NewReader(full, t0), Gob.StreamTokens(Gob.NewWriter(full, t0), ps)) == CutAll(full, ps)
    ensures ProtobufGives(full, ps, CutAll(full, ps))
    ensures G.ReadBack(full, SplitNano(t0).0, SplitNano(t0).1, ps, rest) == G.Decoded(CutAll(full, ps), true)
    ensures CutAll(true, ps) == ps
  {
    hide Ordinary, L.CheckedAll, Gob.DecodeAll, Gob.StreamTokens, P.DecodeStats, P.EncodeStats, L.StatsOf, L.ValuesAll;
    hide G.ReadBack, CutAll, ProtobufGives;
    hide SplitNano, Gob.NewReader, Gob.NewWriter;
    PlainList(ps);
    GobRefines(full, t0, ps);
    ProtobufRefines(full, ps);
    GorillaRefines(full, t0, ps, rest);
    NothingCut(ps);
  }

  lemma {:induction false} NothingCut(ps: seq<Point>)
    ensures CutAll(true, ps) == ps
    decreases |ps|
  {
    if |ps| > 0 {
      NothingCut(ps[1..]);
      assert ps == [ps[0]] + ps[1..];
    }
  }
}
