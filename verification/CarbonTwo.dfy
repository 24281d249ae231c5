/** The Carbon2 accumulator: values aggregated per key and time bin, and rolled up from a fine to a coarse
    resolution. Values are real numbers; `NonFinite` stands for the infinities and NaN. */
module CarbonTwo {
  import Bits

  /** An unset minimum or maximum. */
  const FLAG: real := -9223372036854775808.0

  datatype Value = Finite(r: real) | NonFinite

  /** The minimum, maximum, sum and count of an aggregated stat. */
  datatype Item = Item(min: real, max: real, sum: real, count: int)

  const NEW_ITEM := Item(FLAG, FLAG, 0.0, 0)

  /** What a flush hands on. */
  datatype Stat = Stat(name: string, time: int, min: real, max: real, sum: real, count: int)

  datatype Key = Key(name: string, bin: int)

  function Accumulate(s: Item, v: Value): (t: Item)
  {
    if v.NonFinite? then s
    else Item(if s.min == FLAG || s.min > v.r then v.r else s.min,
              if s.max == FLAG || s.max < v.r then v.r else s.max,
              s.sum + v.r, s.count + 1)
  }

  function Merge(s: Item, stat: Stat): (t: Item)
  {
    Item(if s.min == FLAG || s.min > stat.min then stat.min else s.min,
         if s.max == FLAG || s.max < stat.max then stat.max else s.max,
         s.sum + stat.sum, s.count + stat.count)
  }

  function CheckFloat(x: real): (y: real)
  {
    if x == FLAG then 0.0 else x
  }

  function Repr(k: Key, s: Item): (stat: Stat)
  {
    Stat(k.name, k.bin, CheckFloat(s.min), CheckFloat(s.max), CheckFloat(s.sum), s.count)
  }

  /** A stat of count one is taken as a raw value. */
  function Take(s: Item, stat: Stat): (t: Item)
  {
    if stat.count == 1 then Accumulate(s, Finite(stat.sum)) else Merge(s, stat)
  }

  // What an item stands for

  function Sum(vs: seq<real>): (x: real)
    decreases |vs|
  {
    if |vs| == 0 then 0.0 else Sum(vs[..|vs| - 1]) + vs[|vs| - 1]
  }

  function Min(vs: seq<real>): (x: real)
    requires |vs| > 0
    ensures x in vs && forall y :: y in vs ==> x <= y
    decreases |vs|
  {
    var last := vs[|vs| - 1];
    assert vs == vs[..|vs| - 1] + [last];
    if |vs| == 1 then last else var m := Min(vs[..|vs| - 1]); if last < m then last else m
  }

  function Max(vs: seq<real>): (x: real)
    requires |vs| > 0
    ensures x in vs && forall y :: y in vs ==> y <= x
    decreases |vs|
  {
    var last := vs[|vs| - 1];
    assert vs == vs[..|vs| - 1] + [last];
    if |vs| == 1 then last else var m := Max(vs[..|vs| - 1]); if m < last then last else m
  }

  function Summary(vs: seq<real>): (s: Item)
  {
    if |vs| == 0 then NEW_ITEM else Item(Min(vs), Max(vs), Sum(vs), |vs|)
  }

  lemma AccumulateSummary(vs: seq<real>, v: real)
    requires FLAG !in vs
    ensures Accumulate(Summary(vs), Finite(v)) == Summary(vs + [v])
  {
    assert (vs + [v])[..|vs|] == vs;
    if |vs| > 0 {
      assert Min(vs) in vs && Max(vs) in vs;
    } else {
      OneValue(vs + [v]);
    }
  }

  lemma {:induction false} SumJoin(vs: seq<real>, ws: seq<real>)
    ensures Sum(vs + ws) == Sum(vs) + Sum(ws)
    decreases |ws|
  {
    if |ws| == 0 {
      assert vs + ws == vs;
    } else {
      var init := ws[..|ws| - 1];
      assert (vs + ws)[..|vs + ws| - 1] == vs + init;
      SumJoin(vs, init);
    }
  }

  /** The least element is the only lower bound among the elements. */
  lemma MinUnique(vs: seq<real>, x: real)
    requires |vs| > 0 && x in vs && forall y :: y in vs ==> x <= y
    ensures Min(vs) == x
  {
  }

  lemma MaxUnique(vs: seq<real>, x: real)
    requires |vs| > 0 && x in vs && forall y :: y in vs ==> y <= x
    ensures Max(vs) == x
  {
  }

  lemma SummaryJoin(vs: seq<real>, ws: seq<real>)
    requires |vs| > 0 && |ws| > 0
    ensures Sum(vs + ws) == Sum(vs) + Sum(ws)
    ensures Min(vs + ws) == if Min(vs) > Min(ws) then Min(ws) else Min(vs)
    ensures Max(vs + ws) == if Max(vs) < Max(ws) then Max(ws) else Max(vs)
  {
    hide Min, Max, Sum;
    SumJoin(vs, ws);
    MinUnique(vs + ws, if Min(vs) > Min(ws) then Min(ws) else Min(vs));
    MaxUnique(vs + ws, if Max(vs) < Max(ws) then Max(ws) else Max(vs));
  }

  /** Rolling one flushed bin into another is the same as adding its values, exactly when the flushed sum
      is not the flag value and the flushed bin is not empty (or, if it is, zero is already within range). */
  lemma RollExactly(vs: seq<real>, ws: seq<real>, k: Key)
    requires FLAG !in vs && FLAG !in ws
    ensures Take(Summary(vs), Repr(k, Summary(ws))) == Summary(vs + ws) <==>
            Sum(ws) != FLAG && (|ws| > 0 || (|vs| > 0 && Min(vs) <= 0.0 <= Max(vs)))
  {
    hide Min, Max, Sum;
    if |ws| == 0 {
      assert vs + ws == vs;
      NoValue(ws);
    } else if |ws| == 1 {
      OneValue(ws);
      AccumulateSummary(vs, ws[0]);
    } else if |vs| == 0 {
      assert vs + ws == ws;
    } else {
      SummaryJoin(vs, ws);
    }
  }

  lemma NoValue(ws: seq<real>)
    requires |ws| == 0
    ensures Sum(ws) == 0.0
  {
  }

  lemma OneValue(ws: seq<real>)
    requires |ws| == 1
    ensures ws == [ws[0]] && Sum(ws) == ws[0]
  {
    assert ws[..0] == [];
  }

  // Order does not matter

  lemma LessOne(init: seq<real>, a: seq<real>, x: real, b: seq<real>)
    requires multiset(init + [x]) == multiset(a + [x] + b)
    ensures multiset(init) == multiset(a + b)
  {
    assert multiset(init + [x]) == multiset(init) + multiset{x};
    assert multiset(a + [x] + b) == multiset(a + b) + multiset{x};
    assert multiset(init) == multiset(init) + multiset{x} - multiset{x};
    assert multiset(a + b) == multiset(a + b) + multiset{x} - multiset{x};
  }

  lemma SumAround(a: seq<real>, x: real, b: seq<real>)
    ensures Sum(a + [x] + b) == Sum(a + b) + x
  {
    hide Sum;
    SumJoin(a + [x], b);
    SumJoin(a, [x]);
    SumJoin(a, b);
    OneValue([x]);
  }

  lemma {:induction false} SumPermutes(vs: seq<real>, ws: seq<real>)
    requires multiset(vs) == multiset(ws)
    ensures Sum(vs) == Sum(ws)
    decreases |vs|
  {
    hide Sum;
    if |vs| == 0 {
      assert |multiset(ws)| == 0;
      assert vs == ws;
    } else {
      var x, init := vs[|vs| - 1], vs[..|vs| - 1];
      assert vs == init + [x] + [];
      assert vs == init + [x];
      assert x in multiset(ws);
      var i :| 0 <= i < |ws| && ws[i] == x;
      var a, b := ws[..i], ws[i + 1..];
      assert ws == a + [x] + b;
      LessOne(init, a, x, b);
      SumPermutes(init, a + b);
      SumAround(a, x, b);
      SumAround(init, x, []);
      assert init + [] == init;
    }
  }

  lemma SummaryPermutes(vs: seq<real>, ws: seq<real>)
    requires multiset(vs) == multiset(ws)
    ensures Summary(vs) == Summary(ws)
  {
    hide Sum, Min, Max;
    SumPermutes(vs, ws);
    assert |vs| == |multiset(vs)| == |multiset(ws)| == |ws|;
    if |vs| > 0 {
      forall x | x in vs ensures x in ws { assert x in multiset(ws); }
      forall x | x in ws ensures x in vs { assert x in multiset(vs); }
      MinUnique(ws, Min(vs));
      MaxUnique(ws, Max(vs));
    }
  }

  /** The item stands for this bag of values. */
  ghost predicate Stands(s: Item, bag: multiset<real>)
  {
    FLAG !in bag && exists vs: seq<real> :: multiset(vs) == bag && s == Summary(vs)
  }

  lemma StandsForOne(s: Item, t: Item, bag: multiset<real>)
    requires Stands(s, bag) && Stands(t, bag)
    ensures s == t
  {
    hide Summary;
    var vs :| multiset(vs) == bag && s == Summary(vs);
    var ws :| multiset(ws) == bag && t == Summary(ws);
    SummaryPermutes(vs, ws);
  }

  lemma StandsNew()
    ensures Stands(NEW_ITEM, multiset{})
  {
    var none: seq<real> := [];
    assert multiset(none) == multiset{} && NEW_ITEM == Summary(none);
  }

  lemma StandsAccumulate(s: Item, bag: multiset<real>, v: real)
    requires Stands(s, bag) && v != FLAG
    ensures Stands(Accumulate(s, Finite(v)), bag + multiset{v})
  {
    hide Summary, Accumulate;
    var vs :| multiset(vs) == bag && s == Summary(vs);
    assert FLAG !in vs by { assert FLAG in vs ==> FLAG in multiset(vs); }
    AccumulateSummary(vs, v);
    assert multiset(vs + [v]) == bag + multiset{v};
  }

  lemma StandsRoll(s: Item, bag: multiset<real>, r: Item, more: multiset<real>, k: Key)
    requires Stands(s, bag) && Stands(r, more) && |more| > 0 && r.sum != FLAG
    ensures Stands(Take(s, Repr(k, r)), bag + more)
  {
    hide Take, Repr;
    var vs :| multiset(vs) == bag && s == Summary(vs);
    var ws :| multiset(ws) == more && r == Summary(ws);
    assert FLAG !in vs by { assert FLAG in vs ==> FLAG in multiset(vs); }
    assert FLAG !in ws by { assert FLAG in ws ==> FLAG in multiset(ws); }
    assert |ws| > 0;
    hide Summary;
    RollExactly(vs, ws, k);
    assert multiset(vs + ws) == bag + more;
  }

  /** A bin whose only values were not finite is flushed as zeroes and lowers the minimum to zero. */
  lemma EmptyBinLowersMin(k: Key)
    ensures Take(Summary([5.0]), Repr(k, Accumulate(NEW_ITEM, NonFinite))).min == 0.0 && Summary([5.0]).min == 5.0
  {
  }

  /** A bin whose values sum to the flag is flushed with the sum zero. */
  lemma FlagSumIsLost(k: Key)
    ensures var half := FLAG / 2.0;
            Summary([half, half]).sum == FLAG && Take(NEW_ITEM, Repr(k, Summary([half, half]))).sum == 0.0
  {
    var half := FLAG / 2.0;
    assert [half, half][..1] == [half];
    OneValue([half]);
    assert Sum([half, half]) == half + half;
  }

  function FiniteOf(vs: seq<Value>): (rs: seq<real>)
    decreases |vs|
  {
    if |vs| == 0 then []
    else
      var v := vs[|vs| - 1];
      FiniteOf(vs[..|vs| - 1]) + (if v.Finite? then [v.r] else [])
  }

  function Fed(vs: seq<Value>): (s: Item)
    decreases |vs|
  {
    if |vs| == 0 then NEW_ITEM else Accumulate(Fed(vs[..|vs| - 1]), vs[|vs| - 1])
  }

  /** An item fed with any values holds the minimum, maximum, sum and count of the finite ones. */
  lemma {:induction false} FedIsSummary(vs: seq<Value>)
    requires FLAG !in FiniteOf(vs)
    ensures Fed(vs) == Summary(FiniteOf(vs))
    decreases |vs|
  {
    hide Summary;
    if |vs| == 0 {
      NothingFed();
    } else {
      var init, v := vs[..|vs| - 1], vs[|vs| - 1];
      FedIsSummary(init);
      if v.Finite? {
        AccumulateSummary(FiniteOf(init), v.r);
      } else {
        assert FiniteOf(vs) == FiniteOf(init);
      }
    }
  }

  lemma NothingFed()
    ensures Summary([]) == NEW_ITEM
  {
  }

  /** A stat of count one adds its sum as one value, whatever its minimum and maximum; any other stat brings in
      its own minimum and maximum. */
  lemma TakeExactly(vs: seq<real>, stat: Stat)
    requires |vs| > 0 && FLAG !in vs
    ensures stat.count == 1 ==> Take(Summary(vs), stat) == Summary(vs + [stat.sum])
    ensures stat.count != 1 ==>
            var s := Take(Summary(vs), stat);
            && s.min <= Min(vs) && s.min <= stat.min && (s.min == Min(vs) || s.min == stat.min)
            && s.max >= Max(vs) && s.max >= stat.max && (s.max == Max(vs) || s.max == stat.max)
            && s.sum == Sum(vs) + stat.sum && s.count == |vs| + stat.count
  {
    hide Min, Max, Sum;
    AccumulateSummary(vs, stat.sum);
  }
}
