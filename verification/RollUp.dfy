/** Roll-up over whole runs: lines fed to a fine accumulator that is flushed at any moments into a coarse
    one, against the same lines fed to the coarse one directly. */
module RollUp {
  import Bits
  import opened CarbonTwo

  /** Nanoseconds from the start of year 1, from which bins are counted, to the Unix epoch. */
  const YEAR_ONE := 62135596800000000000

  /** The start of the bin of width `d` that holds `t`. */
  function Bin(t: int, d: int): (b: int)
    ensures d > 0 ==> b <= t < b + d && (b + YEAR_ONE) % d == 0
    ensures d <= 0 ==> b == t
  {
    if d <= 0 then t
    else
      var x := t + YEAR_ONE;
      OnGrid(x, d);
      t - x % d
  }

  /** There are 719162 days from the start of year 1 to 1970, one in each fourth year more than 365, but for
      full centuries that are not divisible by 400. */
  lemma YearOne()
    ensures YEAR_ONE == (1969 * 365 + 1969 / 4 - 1969 / 100 + 1969 / 400) * 24 * 3600 * 1000000000
  {
  }

  lemma OnGrid(x: int, d: int)
    requires d > 0
    ensures (x - x % d) % d == 0
  {
    assert x - x % d == d * (x / d);
    Bits.DivModUnique(x - x % d, d, x / d, 0);
  }

  /** Coarse bins of fine bins are coarse bins, when the coarse width is a multiple of the fine one. */
  lemma BinTwice(t: int, fine: int, coarse: int)
    requires fine > 0 && coarse > 0 && coarse % fine == 0
    ensures Bin(Bin(t, fine), coarse) == Bin(t, coarse)
  {
    hide Bin;
    CutTwice(t + YEAR_ONE, fine, coarse);
    BinIs(t, fine);
    BinIs(t, coarse);
    BinIs(Bin(t, fine), coarse);
  }

  lemma BinIs(t: int, d: int)
    requires d > 0
    ensures Bin(t, d) == t - (t + YEAR_ONE) % d
  {
  }

  lemma Divided(x: int, d: int)
    requires d > 0
    ensures x == d * (x / d) + x % d && 0 <= x % d < d
    ensures x >= 0 ==> 0 <= d * (x / d)
  {
    if x >= 0 {
      assert x / d >= 0;
    }
  }

  lemma CutTwice(x: int, fine: int, coarse: int)
    requires fine > 0 && coarse > 0 && coarse % fine == 0
    ensures var y := x - x % fine; y - y % coarse == x - x % coarse
  {
    Divided(coarse, fine);
    Divided(x, coarse);
    Divided(x % coarse, fine);
    CutAt(x, fine, coarse, coarse / fine, x / coarse, x % coarse / fine, x % coarse % fine, x % coarse);
  }

  lemma CutAt(x: int, fine: int, coarse: int, m: int, q: int, s: int, u: int, r: int)
    requires fine > 0 && coarse == fine * m && x == coarse * q + r
    requires r == fine * s + u && 0 <= u < fine && 0 <= fine * s && r < coarse
    ensures var y := x - x % fine; y - y % coarse == x - x % coarse
  {
    CutParts(x, fine, m, q, s, u, r);
  }

  lemma CutParts(x: int, fine: int, m: int, q: int, s: int, u: int, r: int)
    requires fine > 0 && x == fine * m * q + r && r == fine * s + u && 0 <= u < fine && 0 <= fine * s <= r < fine * m
    ensures x % fine == u && x % (fine * m) == r && (x - u) % (fine * m) == fine * s
  {
    Rearrange(fine, m, q, s, u, x);
    Bits.DivModUnique(x, fine, m * q + s, u);
    Bits.DivModUnique(x, fine * m, q, r);
    Bits.DivModUnique(x - u, fine * m, q, fine * s);
  }

  lemma Rearrange(fine: int, m: int, q: int, s: int, u: int, x: int)
    requires x == fine * m * q + (fine * s + u)
    ensures x == fine * (m * q + s) + u
  {
    assert fine * (m * q + s) == fine * (m * q) + fine * s;
    assert fine * (m * q) == fine * m * q;
  }

  /** A stat's stamp read back as a time: small stamps are taken as seconds. */
  function ToTime(stamp: int): (t: int)
    ensures t == stamp <==> stamp > 2147483647 || stamp == 0
    ensures stamp <= 2147483647 ==> t / 1000000000 == stamp && t % 1000000000 == 0
  {
    if stamp > 2147483647 then stamp else stamp * 1000000000
  }

  // The accumulator's map

  function At(m: map<Key, Item>, k: Key): (s: Item)
  {
    if k in m then m[k] else NEW_ITEM
  }

  function LineIn(m: map<Key, Item>, res: int, name: string, t: int, v: Value): (m': map<Key, Item>)
  {
    var k := Key(name, Bin(t, res));
    m[k := Accumulate(At(m, k), v)]
  }

  function StatIn(m: map<Key, Item>, res: int, stat: Stat): (m': map<Key, Item>)
  {
    var k := Key(stat.name, Bin(ToTime(stat.time), res));
    m[k := Take(At(m, k), stat)]
  }

  function StatsIn(m: map<Key, Item>, res: int, stats: seq<Stat>): (m': map<Key, Item>)
    decreases |stats|
  {
    if |stats| == 0 then m else StatsIn(StatIn(m, res, stats[0]), res, stats[1..])
  }

  /** The keys of a map in some order, each once. */
  ghost predicate Lists(order: seq<Key>, m: map<Key, Item>)
  {
    && (forall i, j :: 0 <= i < j < |order| ==> order[i] != order[j])
    && (forall k :: k in order <==> k in m)
  }

  function Reprs(order: seq<Key>, m: map<Key, Item>): (stats: seq<Stat>)
    decreases |order|
  {
    if |order| == 0 then [] else [Repr(order[0], At(m, order[0]))] + Reprs(order[1..], m)
  }

  class CarbonTwoAccumulate {
    const resolution: int
    var stats: map<Key, Item>

    constructor (resolution: int)
      ensures this.resolution == resolution && stats == map[]
    {
      this.resolution, stats := resolution, map[];
    }

    /** A parsed line. */
    method ProcessLine(name: string, t: int, val: Value)
      modifies this
      ensures stats == LineIn(old(stats), resolution, name, t, val)
    {
      var k := Key(name, Bin(t, resolution));
      var got := if k in stats then stats[k] else NEW_ITEM;
      got := Accumulate(got, val);
      stats := stats[k := got];
    }

    method ProcessRepr(stat: Stat)
      modifies this
      ensures stats == StatIn(old(stats), resolution, stat)
    {
      var k := Key(stat.name, Bin(ToTime(stat.time), resolution));
      var got := if k in stats then stats[k] else NEW_ITEM;
      if stat.count == 1 {
        got := Accumulate(got, Finite(stat.sum));
      } else {
        got := Merge(got, stat);
      }
      stats := stats[k := got];
    }

    /** Hands on every item, in the map's own order, and starts afresh. */
    method FlushList() returns (flushed: seq<Stat>, ghost order: seq<Key>)
      modifies this
      ensures Lists(order, old(stats)) && flushed == Reprs(order, old(stats))
      ensures stats == map[]
    {
      flushed, order := [], [];
      var left := stats.Keys;
      while left != {}
        invariant left <= stats.Keys && stats == old(stats)
        invariant forall i, j :: 0 <= i < j < |order| ==> order[i] != order[j]
        invariant forall k :: k in order <==> k in stats && k !in left
        invariant flushed == Reprs(order, stats)
        decreases |left|
      {
        var k :| k in left;
        ReprsSnoc(order, k, stats);
        flushed := flushed + [Repr(k, stats[k])];
        order := order + [k];
        left := left - {k};
      }
      stats := map[];
    }

    method ProcessAll(flushed: seq<Stat>)
      modifies this
      ensures stats == StatsIn(old(stats), resolution, flushed)
    {
      for i := 0 to |flushed|
        invariant StatsIn(stats, resolution, flushed[i..]) == StatsIn(old(stats), resolution, flushed)
      {
        assert flushed[i..][1..] == flushed[i + 1..];
        ProcessRepr(flushed[i]);
      }
      assert flushed[|flushed|..] == [];
    }
  }

  /** A flush of the fine accumulator into the coarse one is the flush step of a run, in some order. */
  method RollUpInto(fine: CarbonTwoAccumulate, coarse: CarbonTwoAccumulate) returns (ghost order: seq<Key>)
    requires fine != coarse
    modifies fine, coarse
    ensures Lists(order, old(fine.stats))
    ensures Pair(fine.stats, coarse.stats) ==
            Next(Pair(old(fine.stats), old(coarse.stats)), Flush(order), fine.resolution, coarse.resolution)
  {
    hide StatsIn;
    var flushed;
    flushed, order := fine.FlushList();
    coarse.ProcessAll(flushed);
  }

  lemma {:induction false} ReprsSnoc(order: seq<Key>, k: Key, m: map<Key, Item>)
    ensures Reprs(order + [k], m) == Reprs(order, m) + [Repr(k, At(m, k))]
    decreases |order|
  {
    if |order| == 0 {
      assert order + [k] == [k];
    } else {
      assert (order + [k])[1..] == order[1..] + [k];
      ReprsSnoc(order[1..], k, m);
    }
  }

  // Runs

  datatype Line = Line(name: string, time: int, value: real)

  datatype Event = Feed(line: Line) | Flush(order: seq<Key>)

  datatype Pair = Pair(fine: map<Key, Item>, coarse: map<Key, Item>)

  /** Neither the values nor a flushed sum are the flag, and the fine bins' stamps read back as themselves. */
  ghost predicate Plain(s: Pair, e: Event, fine: int)
  {
    match e
    case Feed(l) => l.value != FLAG && (Bin(l.time, fine) > 2147483647 || Bin(l.time, fine) == 0)
    case Flush(order) => Lists(order, s.fine) && forall k :: k in s.fine ==> s.fine[k].sum != FLAG
  }

  function Next(s: Pair, e: Event, fine: int, coarse: int): (t: Pair)
  {
    match e
    case Feed(l) => s.(fine := LineIn(s.fine, fine, l.name, l.time, Finite(l.value)))
    case Flush(order) => Pair(map[], StatsIn(s.coarse, coarse, Reprs(order, s.fine)))
  }

  ghost predicate PlainRun(s: Pair, es: seq<Event>, fine: int, coarse: int)
    decreases |es|
  {
    |es| == 0 || (Plain(s, es[0], fine) && PlainRun(Next(s, es[0], fine, coarse), es[1..], fine, coarse))
  }

  function After(s: Pair, es: seq<Event>, fine: int, coarse: int): (t: Pair)
    decreases |es|
  {
    if |es| == 0 then s else After(Next(s, es[0], fine, coarse), es[1..], fine, coarse)
  }

  /** All lines fed to one accumulator. */
  function Direct(m: map<Key, Item>, es: seq<Event>, res: int): (m': map<Key, Item>)
    decreases |es|
  {
    if |es| == 0 then m
    else
      var l := es[0];
      Direct(if l.Feed? then LineIn(m, res, l.line.name, l.line.time, Finite(l.line.value)) else m, es[1..], res)
  }

  // What a map stands for

  /** The values of the lines with a given key and bin. */
  function Bag(log: seq<Line>, res: int, k: Key): (b: multiset<real>)
    decreases |log|
  {
    if |log| == 0 then multiset{}
    else
      var l := log[|log| - 1];
      Bag(log[..|log| - 1], res, k) + (if Key(l.name, Bin(l.time, res)) == k then multiset{l.value} else multiset{})
  }

  /** The map has an item for each non-empty bag, and it stands for that bag. */
  ghost predicate Holds(m: map<Key, Item>, bags: Key -> multiset<real>)
  {
    && (forall k :: k in m <==> |bags(k)| > 0)
    && (forall k :: k in m ==> Stands(m[k], bags(k)))
  }

  lemma HoldsOne(m: map<Key, Item>, m': map<Key, Item>, bags: Key -> multiset<real>)
    requires Holds(m, bags) && Holds(m', bags)
    ensures m == m'
  {
    hide Stands;
    forall k | k in m ensures k in m' && m[k] == m'[k] {
      StandsForOne(m[k], m'[k], bags(k));
    }
  }

  lemma AtStands(m: map<Key, Item>, bags: Key -> multiset<real>, k: Key)
    requires Holds(m, bags)
    ensures Stands(At(m, k), bags(k))
  {
    hide Stands;
    StandsNew();
  }

  lemma UpdateHolds(m: map<Key, Item>, bags: Key -> multiset<real>, k: Key, s: Item, more: multiset<real>,
                    bags': Key -> multiset<real>)
    requires Holds(m, bags) && Stands(s, bags(k) + more) && |more| > 0
    requires forall u :: bags'(u) == bags(u) + (if u == k then more else multiset{})
    ensures Holds(m[k := s], bags')
  {
    hide Stands;
    forall u ensures if u == k then |bags'(u)| > 0 else bags'(u) == bags(u) {
      assert bags(u) + multiset{} == bags(u);
    }
  }

  lemma LineHolds(m: map<Key, Item>, res: int, log: seq<Line>, l: Line)
    requires Holds(m, k => Bag(log, res, k)) && l.value != FLAG
    ensures Holds(LineIn(m, res, l.name, l.time, Finite(l.value)), k => Bag(log + [l], res, k))
  {
    hide Stands, Accumulate, Bin, Bag, Holds;
    var k0 := Key(l.name, Bin(l.time, res));
    var bags := (k: Key) => Bag(log, res, k);
    AtStands(m, bags, k0);
    StandsAccumulate(At(m, k0), bags(k0), l.value);
    var bags' := (k: Key) => Bag(log + [l], res, k);
    forall k ensures bags'(k) == bags(k) + (if k == k0 then multiset{l.value} else multiset{}) {
      BagSnoc(log, l, res, k);
    }
    UpdateHolds(m, bags, k0, Accumulate(At(m, k0), Finite(l.value)), multiset{l.value}, bags');
  }

  lemma BagSnoc(log: seq<Line>, l: Line, res: int, k: Key)
    ensures Bag(log + [l], res, k) ==
            Bag(log, res, k) + (if Key(l.name, Bin(l.time, res)) == k then multiset{l.value} else multiset{})
  {
    assert (log + [l])[..|log|] == log;
  }

  lemma {:induction false} BagJoin(a: seq<Line>, b: seq<Line>, res: int, k: Key)
    ensures Bag(a + b, res, k) == Bag(a, res, k) + Bag(b, res, k)
    decreases |b|
  {
    if |b| == 0 {
      assert a + b == a;
    } else {
      var init := b[..|b| - 1];
      assert (a + b)[..|a + b| - 1] == a + init;
      BagJoin(a, init, res, k);
    }
  }

  // A flush

  /** The coarse key of a fine one. */
  function Up(k: Key, coarse: int): (u: Key)
  {
    Key(k.name, Bin(k.bin, coarse))
  }

  /** The values behind a list of fine keys that go to one coarse key. */
  function Over(order: seq<Key>, recent: seq<Line>, fine: int, coarse: int, u: Key): (b: multiset<real>)
    decreases |order|
  {
    if |order| == 0 then multiset{}
    else (if Up(order[0], coarse) == u then Bag(recent, fine, order[0]) else multiset{})
         + Over(order[1..], recent, fine, coarse, u)
  }

  lemma StatHolds(m: map<Key, Item>, bags: Key -> multiset<real>, coarse: int, k: Key, r: Item, more: multiset<real>,
                  bags': Key -> multiset<real>)
    requires Holds(m, bags) && Stands(r, more) && |more| > 0 && r.sum != FLAG && ToTime(k.bin) == k.bin
    requires forall u :: bags'(u) == bags(u) + (if u == Up(k, coarse) then more else multiset{})
    ensures Holds(StatIn(m, coarse, Repr(k, r)), bags')
  {
    hide Stands, Take, ToTime, Bin, Holds;
    var u := Up(k, coarse);
    AtStands(m, bags, u);
    StandsRoll(At(m, u), bags(u), r, more, k);
    UpdateHolds(m, bags, u, Take(At(m, u), Repr(k, r)), more, bags');
  }

  lemma {:induction false} FlushHolds(m: map<Key, Item>, bags: Key -> multiset<real>, coarse: int, order: seq<Key>,
                                      f: map<Key, Item>, recent: seq<Line>, fine: int)
    requires Holds(m, bags) && Holds(f, k => Bag(recent, fine, k))
    requires forall k :: k in order ==> k in f && f[k].sum != FLAG && ToTime(k.bin) == k.bin
    ensures Holds(StatsIn(m, coarse, Reprs(order, f)), u => bags(u) + Over(order, recent, fine, coarse, u))
    decreases |order|
  {
    hide Stands, Bin, Bag, StatIn, Repr, ToTime;
    if |order| == 0 {
      assert forall u :: bags(u) + Over(order, recent, fine, coarse, u) == bags(u);
    } else {
      var k := order[0];
      assert k in order;
      var more := Bag(recent, fine, k);
      var bags' := (u: Key) => bags(u) + (if u == Up(k, coarse) then more else multiset{});
      StatHolds(m, bags, coarse, k, f[k], more, bags');
      var m' := StatIn(m, coarse, Repr(k, f[k]));
      FlushHolds(m', bags', coarse, order[1..], f, recent, fine);
      assert Reprs(order, f)[1..] == Reprs(order[1..], f);
      SameBags(StatsIn(m', coarse, Reprs(order[1..], f)),
               u => bags'(u) + Over(order[1..], recent, fine, coarse, u),
               u => bags(u) + Over(order, recent, fine, coarse, u));
    }
  }

  lemma SameBags(m: map<Key, Item>, f: Key -> multiset<real>, g: Key -> multiset<real>)
    requires Holds(m, f) && forall k :: f(k) == g(k)
    ensures Holds(m, g)
  {
    hide Stands;
  }

  lemma {:induction false} OverMissing(order: seq<Key>, recent: seq<Line>, l: Line, fine: int, coarse: int, u: Key)
    requires Key(l.name, Bin(l.time, fine)) !in order
    ensures Over(order, recent + [l], fine, coarse, u) == Over(order, recent, fine, coarse, u)
    decreases |order|
  {
    hide Bin, Bag;
    if |order| > 0 {
      BagSnoc(recent, l, fine, order[0]);
      OverMissing(order[1..], recent, l, fine, coarse, u);
    }
  }

  lemma {:induction false} OverSnoc(order: seq<Key>, recent: seq<Line>, l: Line, fine: int, coarse: int, u: Key)
    requires forall i, j :: 0 <= i < j < |order| ==> order[i] != order[j]
    requires Key(l.name, Bin(l.time, fine)) in order
    ensures Over(order, recent + [l], fine, coarse, u) == Over(order, recent, fine, coarse, u) +
            (if Up(Key(l.name, Bin(l.time, fine)), coarse) == u then multiset{l.value} else multiset{})
    decreases |order|
  {
    hide Bin, Bag, Up;
    var k := Key(l.name, Bin(l.time, fine));
    BagSnoc(recent, l, fine, order[0]);
    if order[0] == k {
      OverMissing(order[1..], recent, l, fine, coarse, u);
    } else {
      OverSnoc(order[1..], recent, l, fine, coarse, u);
    }
  }

  /** The fine bags, gathered by coarse key, are the coarse bags. */
  lemma {:induction false} OverIsBag(order: seq<Key>, recent: seq<Line>, fine: int, coarse: int, u: Key)
    requires fine > 0 && coarse > 0 && coarse % fine == 0
    requires forall i, j :: 0 <= i < j < |order| ==> order[i] != order[j]
    requires forall i :: 0 <= i < |recent| ==> Key(recent[i].name, Bin(recent[i].time, fine)) in order
    ensures Over(order, recent, fine, coarse, u) == Bag(recent, coarse, u)
    decreases |recent|
  {
    hide Bin;
    if |recent| == 0 {
      OverEmpty(order, fine, coarse, u);
    } else {
      var init, l := recent[..|recent| - 1], recent[|recent| - 1];
      assert recent == init + [l];
      OverIsBag(order, init, fine, coarse, u);
      OverSnoc(order, init, l, fine, coarse, u);
      BinTwice(l.time, fine, coarse);
      BagSnoc(init, l, coarse, u);
    }
  }

  lemma {:induction false} OverEmpty(order: seq<Key>, fine: int, coarse: int, u: Key)
    ensures Over(order, [], fine, coarse, u) == multiset{}
    decreases |order|
  {
    if |order| > 0 {
      OverEmpty(order[1..], fine, coarse, u);
    }
  }

  /** Every line's fine key has an item. */
  lemma {:induction false} KeyHeld(log: seq<Line>, res: int, i: nat)
    requires i < |log|
    ensures |Bag(log, res, Key(log[i].name, Bin(log[i].time, res)))| > 0
    decreases |log|
  {
    hide Bin;
    var l := log[|log| - 1];
    var k := Key(log[i].name, Bin(log[i].time, res));
    if i < |log| - 1 {
      KeyHeld(log[..|log| - 1], res, i);
    }
  }

  /** Keys with values have stamps that read back as themselves, if the lines do. */
  lemma {:induction false} KeyStamped(log: seq<Line>, res: int, k: Key)
    requires forall i :: 0 <= i < |log| ==> Stamped(log[i], res)
    requires |Bag(log, res, k)| > 0
    ensures ToTime(k.bin) == k.bin
    decreases |log|
  {
    hide Bin;
    var l := log[|log| - 1];
    if Key(l.name, Bin(l.time, res)) == k {
      assert Stamped(l, res);
    } else {
      KeyStamped(log[..|log| - 1], res, k);
    }
  }

  ghost predicate Stamped(l: Line, res: int)
  {
    Bin(l.time, res) > 2147483647 || Bin(l.time, res) == 0
  }

  /** What has been flushed is in the coarse map, what has come since is in the fine one. */
  ghost predicate Inv(s: Pair, flushed: seq<Line>, recent: seq<Line>, fine: int, coarse: int)
  {
    && Holds(s.fine, k => Bag(recent, fine, k))
    && Holds(s.coarse, k => Bag(flushed, coarse, k))
    && forall i :: 0 <= i < |recent| ==> Stamped(recent[i], fine)
  }

  lemma FlushInv(s: Pair, flushed: seq<Line>, recent: seq<Line>, order: seq<Key>, fine: int, coarse: int)
    requires Inv(s, flushed, recent, fine, coarse) && Plain(s, Flush(order), fine)
    requires fine > 0 && coarse > 0 && coarse % fine == 0
    ensures Inv(Next(s, Flush(order), fine, coarse), flushed + recent, [], fine, coarse)
  {
    hide Bin, Bag, Stands, StatsIn, Stamped, Over;
    var bags := (k: Key) => Bag(flushed, coarse, k);
    forall k | k in order ensures k in s.fine && s.fine[k].sum != FLAG && ToTime(k.bin) == k.bin {
      KeyStamped(recent, fine, k);
    }
    forall i | 0 <= i < |recent| ensures Key(recent[i].name, Bin(recent[i].time, fine)) in order {
      KeyHeld(recent, fine, i);
    }
    FlushHolds(s.coarse, bags, coarse, order, s.fine, recent, fine);
    forall u ensures bags(u) + Over(order, recent, fine, coarse, u) == Bag(flushed + recent, coarse, u) {
      OverIsBag(order, recent, fine, coarse, u);
      BagJoin(flushed, recent, coarse, u);
    }
    SameBags(StatsIn(s.coarse, coarse, Reprs(order, s.fine)),
             u => bags(u) + Over(order, recent, fine, coarse, u), u => Bag(flushed + recent, coarse, u));
    NothingHeld(fine);
  }

  lemma NothingHeld(res: int)
    ensures Holds(map[], k => Bag([], res, k))
  {
  }

  lemma FeedInv(s: Pair, flushed: seq<Line>, recent: seq<Line>, l: Line, fine: int, coarse: int)
    requires Inv(s, flushed, recent, fine, coarse) && Plain(s, Feed(l), fine)
    ensures Inv(Next(s, Feed(l), fine, coarse), flushed, recent + [l], fine, coarse)
  {
    hide Bin, Bag, Stands, Holds;
    LineHolds(s.fine, fine, recent, l);
  }

  /** The lines of a run. */
  function Lines(es: seq<Event>): (ls: seq<Line>)
    decreases |es|
  {
    if |es| == 0 then [] else (if es[0].Feed? then [es[0].line] else []) + Lines(es[1..])
  }

  lemma {:induction false} RunHolds(s: Pair, es: seq<Event>, flushed: seq<Line>, recent: seq<Line>, fine: int,
                                    coarse: int)
    returns (flushed': seq<Line>, recent': seq<Line>)
    requires Inv(s, flushed, recent, fine, coarse) && PlainRun(s, es, fine, coarse)
    requires fine > 0 && coarse > 0 && coarse % fine == 0
    ensures Inv(After(s, es, fine, coarse), flushed', recent', fine, coarse)
    ensures flushed' + recent' == flushed + recent + Lines(es)
    decreases |es|
  {
    hide Inv, Plain, Next;
    if |es| == 0 {
      flushed', recent' := flushed, recent;
    } else if es[0].Feed? {
      FeedInv(s, flushed, recent, es[0].line, fine, coarse);
      flushed', recent' :=
        RunHolds(Next(s, es[0], fine, coarse), es[1..], flushed, recent + [es[0].line], fine, coarse);
    } else {
      FlushInv(s, flushed, recent, es[0].order, fine, coarse);
      flushed', recent' := RunHolds(Next(s, es[0], fine, coarse), es[1..], flushed + recent, [], fine, coarse);
    }
  }

  lemma {:induction false} DirectHolds(m: map<Key, Item>, es: seq<Event>, res: int, log: seq<Line>, all: seq<Line>)
    requires Holds(m, k => Bag(log, res, k)) && all == log + Lines(es)
    requires forall i :: 0 <= i < |es| ==> es[i].Feed? ==> es[i].line.value != FLAG
    ensures Holds(Direct(m, es, res), k => Bag(all, res, k))
    decreases |es|
  {
    hide Holds, Bag, LineIn;
    if |es| == 0 {
      assert all == log;
    } else if es[0].Feed? {
      var l := es[0].line;
      LineHolds(m, res, log, l);
      assert all == (log + [l]) + Lines(es[1..]);
      DirectHolds(LineIn(m, res, l.name, l.time, Finite(l.value)), es[1..], res, log + [l], all);
    } else {
      assert all == log + Lines(es[1..]);
      DirectHolds(m, es[1..], res, log, all);
    }
  }

  lemma {:induction false} PlainValues(s: Pair, es: seq<Event>, fine: int, coarse: int)
    requires PlainRun(s, es, fine, coarse)
    ensures forall i :: 0 <= i < |es| ==> es[i].Feed? ==> es[i].line.value != FLAG
    decreases |es|
  {
    hide Next;
    if |es| > 0 {
      PlainValues(Next(s, es[0], fine, coarse), es[1..], fine, coarse);
      forall i | 0 <= i < |es| && es[i].Feed? ensures es[i].line.value != FLAG {
        assert i > 0 ==> es[i] == es[1..][i - 1];
      }
    }
  }

  /** Roll-up commutes: when the coarse width is a multiple of the fine one, then after any run of lines
      and flushes that leaves nothing unflushed, the coarse map equals the map of feeding all lines to it
      directly: the same keys and bins, with the same minimum, maximum, sum and count. */
  lemma RollUpCommutes(es: seq<Event>, fine: int, coarse: int)
    requires fine > 0 && coarse > 0 && coarse % fine == 0
    requires PlainRun(Pair(map[], map[]), es, fine, coarse)
    requires After(Pair(map[], map[]), es, fine, coarse).fine == map[]
    ensures After(Pair(map[], map[]), es, fine, coarse).coarse == Direct(map[], es, coarse)
  {
    hide Bag, Stands, Bin, Direct, After, PlainRun, Holds;
    var s := Pair(map[], map[]);
    NothingHeld(fine);
    NothingHeld(coarse);
    var flushed, recent := RunHolds(s, es, [], [], fine, coarse);
    if |recent| > 0 {
      SomethingHeld(After(s, es, fine, coarse).fine, recent, fine);
    }
    assert flushed == flushed + recent == [] + [] + Lines(es) == [] + Lines(es);
    PlainValues(s, es, fine, coarse);
    DirectHolds(map[], es, coarse, [], flushed);
    HoldsOne(After(s, es, fine, coarse).coarse, Direct(map[], es, coarse), k => Bag(flushed, coarse, k));
  }

  lemma SomethingHeld(m: map<Key, Item>, recent: seq<Line>, fine: int)
    requires Holds(m, k => Bag(recent, fine, k)) && |recent| > 0
    ensures m != map[]
  {
    hide Bag, Stands, Bin;
    KeyHeld(recent, fine, 0);
    assert Key(recent[0].name, Bin(recent[0].time, fine)) in m;
  }

  // Nothing is counted twice or lost

  function TotalCount(order: seq<Key>, m: map<Key, Item>): (n: int)
    decreases |order|
  {
    if |order| == 0 then 0 else At(m, order[0]).count + TotalCount(order[1..], m)
  }

  function BagCount(order: seq<Key>, log: seq<Line>, res: int): (n: nat)
    decreases |order|
  {
    if |order| == 0 then 0 else |Bag(log, res, order[0])| + BagCount(order[1..], log, res)
  }

  lemma {:induction false} CountSnoc(order: seq<Key>, log: seq<Line>, l: Line, res: int)
    requires forall i, j :: 0 <= i < j < |order| ==> order[i] != order[j]
    ensures BagCount(order, log + [l], res) ==
            BagCount(order, log, res) + (if Key(l.name, Bin(l.time, res)) in order then 1 else 0)
    decreases |order|
  {
    hide Bin, Bag;
    if |order| > 0 {
      BagSnoc(log, l, res, order[0]);
      CountSnoc(order[1..], log, l, res);
    }
  }

  lemma {:induction false} CountAll(order: seq<Key>, log: seq<Line>, res: int)
    requires forall i, j :: 0 <= i < j < |order| ==> order[i] != order[j]
    requires forall i :: 0 <= i < |log| ==> Key(log[i].name, Bin(log[i].time, res)) in order
    ensures BagCount(order, log, res) == |log|
    decreases |log|
  {
    hide Bin, Bag;
    if |log| == 0 {
      CountNone(order, res);
    } else {
      var init, l := log[..|log| - 1], log[|log| - 1];
      assert log == init + [l];
      CountAll(order, init, res);
      CountSnoc(order, init, l, res);
    }
  }

  lemma {:induction false} CountNone(order: seq<Key>, res: int)
    ensures BagCount(order, [], res) == 0
    decreases |order|
  {
    if |order| > 0 {
      CountNone(order[1..], res);
    }
  }

  lemma {:induction false} TotalIsBags(order: seq<Key>, m: map<Key, Item>, log: seq<Line>, res: int)
    requires Holds(m, k => Bag(log, res, k))
    ensures TotalCount(order, m) == BagCount(order, log, res)
    decreases |order|
  {
    hide Bag, Holds;
    if |order| > 0 {
      AtStands(m, k => Bag(log, res, k), order[0]);
      StandsCount(At(m, order[0]), Bag(log, res, order[0]));
      TotalIsBags(order[1..], m, log, res);
    }
  }

  lemma StandsCount(s: Item, bag: multiset<real>)
    requires Stands(s, bag)
    ensures s.count == |bag|
  {
  }

  /** The counts of the coarse map, over all its keys, add up to the number of lines. */
  lemma CountConserved(es: seq<Event>, fine: int, coarse: int, order: seq<Key>)
    requires fine > 0 && coarse > 0 && coarse % fine == 0
    requires PlainRun(Pair(map[], map[]), es, fine, coarse)
    requires After(Pair(map[], map[]), es, fine, coarse).fine == map[]
    requires Lists(order, After(Pair(map[], map[]), es, fine, coarse).coarse)
    ensures TotalCount(order, After(Pair(map[], map[]), es, fine, coarse).coarse) == |Lines(es)|
  {
    hide Bag, Stands, Bin, Direct, After, PlainRun, Holds, BagCount, TotalCount;
    RollUpCommutes(es, fine, coarse);
    var m := Direct(map[], es, coarse);
    PlainValues(Pair(map[], map[]), es, fine, coarse);
    NothingHeld(coarse);
    assert [] + Lines(es) == Lines(es);
    DirectHolds(map[], es, coarse, [], Lines(es));
    TotalIsBags(order, m, Lines(es), coarse);
    LinesListed(order, m, Lines(es), coarse);
    CountAll(order, Lines(es), coarse);
  }

  lemma LinesListed(order: seq<Key>, m: map<Key, Item>, log: seq<Line>, res: int)
    requires Holds(m, k => Bag(log, res, k)) && Lists(order, m)
    ensures forall i :: 0 <= i < |log| ==> Key(log[i].name, Bin(log[i].time, res)) in order
  {
    hide Bag, Stands, Bin;
    forall i | 0 <= i < |log| ensures Key(log[i].name, Bin(log[i].time, res)) in order {
      KeyHeld(log, res, i);
    }
  }

  // The configured resolutions

  predicate InMultiples(ds: seq<int>)
  {
    forall i :: 0 < i < |ds| && ds[i - 1] > 0 ==> ds[i - 1] <= ds[i] && ds[i] % ds[i - 1] == 0
  }

  /** Each resolution, in whole seconds, must be a multiple of the one before it and no shorter. */
  method CheckTimes(seconds: seq<int>) returns (ok: bool)
    ensures ok <==> InMultiples(seconds)
  {
    var last := 0;
    for i := 0 to |seconds|
      invariant last == if i == 0 then 0 else seconds[i - 1]
      invariant InMultiples(seconds[..i])
    {
      if last > 0 {
        if seconds[i] < last || seconds[i] % last != 0 {
          return false;
        }
      }
      last := seconds[i];
      assert seconds[..i + 1] == seconds[..i] + [seconds[i]];
    }
    assert seconds[..|seconds|] == seconds;
    ok := true;
  }

  const SECOND := 1000000000

  lemma ScaledMultiple(a: int, b: int)
    requires a > 0 && b % a == 0
    ensures (b * SECOND) % (a * SECOND) == 0
  {
    var q := b / a;
    assert b == a * q;
    assert b * SECOND == (a * SECOND) * q;
    Bits.DivModUnique(b * SECOND, a * SECOND, q, 0);
  }

  /** Accepted positive resolutions are multiples of every earlier one, in seconds as in nanoseconds. */
  lemma {:induction false} MultiplesChain(ds: seq<int>, i: nat, j: nat)
    requires InMultiples(ds) && i < j < |ds| && forall k :: 0 <= k < |ds| ==> ds[k] > 0
    ensures ds[i] <= ds[j] && ds[j] % ds[i] == 0 && (ds[j] * SECOND) % (ds[i] * SECOND) == 0
    decreases j
  {
    if i < j - 1 {
      MultiplesChain(ds, i, j - 1);
      ChainStep(ds[i], ds[j - 1], ds[j]);
    }
    ScaledMultiple(ds[i], ds[j]);
  }

  lemma ChainStep(x: int, y: int, z: int)
    requires x > 0 && y > 0 && y % x == 0 && z % y == 0
    ensures z % x == 0
  {
    var a, b := y / x, z / y;
    assert y == x * a && z == y * b;
    assert z == x * (a * b);
    Bits.DivModUnique(z, x, a * b, 0);
  }
}
