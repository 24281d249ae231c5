/** The statsd timer: its running aggregates and its percentile lines, computed from the prefix sums of the
    sorted values. Values are real numbers. */
module Statsd {
  import opened Basics
  import opened CarbonTwo

  /** One threshold's output: how many values it covers, their mean and sum, and the boundary value. */
  datatype Line = Line(pct: real, covered: int, mean: real, sum: real, boundary: real)

  function Abs(x: real): (y: real)
    ensures y >= 0.0 && (y == x || y == 0.0 - x)
  {
    if x < 0.0 then 0.0 - x else x
  }

  /** Rounds half away from zero. */
  function Round(a: real): (n: int)
    ensures a >= 0.0 ==> n as real - 0.5 <= a < n as real + 0.5
    ensures a < 0.0 ==> n as real - 0.5 < a <= n as real + 0.5
  {
    if a < 0.0 then 0 - (0.5 - a).Floor else (a + 0.5).Floor
  }

  /** Thresholds below one are fractions, others are percentages. */
  function Fraction(pct: real): (f: real)
    ensures f >= 0.0
  {
    if Abs(pct) < 1.0 then Abs(pct) else Abs(pct) / 100.0
  }

  function Covered(pct: real, count: nat): (n: int)
    ensures n >= 0
  {
    Round(Fraction(pct) * count as real)
  }

  lemma ScaleGrows(a: real, b: real, c: real)
    requires a <= b && c >= 0.0
    ensures a * c <= b * c
  {
  }

  lemma RoundGrows(a: real, b: real)
    requires 0.0 <= a <= b
    ensures Round(a) <= Round(b)
  {
  }

  /** More of the values are covered by a larger fraction. */
  lemma CoveredGrows(p: real, q: real, count: nat)
    requires Fraction(p) <= Fraction(q)
    ensures Covered(p, count) <= Covered(q, count)
  {
    hide Fraction, Round;
    var c := count as real;
    ScaleGrows(Fraction(p), Fraction(q), c);
    ScaleGrows(0.0, Fraction(p), c);
    RoundGrows(Fraction(p) * c, Fraction(q) * c);
  }

  lemma Hundredth(p: real, c: real)
    ensures p / 100.0 * c * 100.0 == p * c
  {
  }

  /** How many values a threshold covers: a percentage of them from 1 on, a fraction below, of either sign,
      rounded to the nearest number with halves upwards. */
  lemma CoveredExactly(pct: real, count: nat)
    ensures var n, c, p := Covered(pct, count) as real, count as real, if pct < 0.0 then 0.0 - pct else pct;
            if p >= 1.0 then (2.0 * n - 1.0) * 100.0 <= 2.0 * (p * c) < (2.0 * n + 1.0) * 100.0
            else 2.0 * n - 1.0 <= 2.0 * (p * c) < 2.0 * n + 1.0
  {
    hide Round;
    var c, p := count as real, if pct < 0.0 then 0.0 - pct else pct;
    Hundredth(p, c);
    ScaleGrows(0.0, Fraction(pct), c);
  }

  function Mean(total: real, n: int): (m: real)
    requires n > 0
  {
    total / n as real
  }

  // Sorting

  predicate Sorted(vs: seq<real>)
  {
    forall i, j :: 0 <= i < j < |vs| ==> vs[i] <= vs[j]
  }

  function Insert(vs: seq<real>, x: real): (ws: seq<real>)
    requires Sorted(vs)
    ensures Sorted(ws) && multiset(ws) == multiset(vs) + multiset{x}
    decreases |vs|
  {
    if |vs| == 0 then [x]
    else
      var init, last := vs[..|vs| - 1], vs[|vs| - 1];
      assert vs == init + [last];
      if last <= x then vs + [x]
      else
        var front := Insert(init, x);
        FrontBelow(front, init, x, last);
        front + [last]
  }

  lemma FrontBelow(front: seq<real>, init: seq<real>, x: real, last: real)
    requires Sorted(front) && multiset(front) == multiset(init) + multiset{x} && Sorted(init + [last]) && x < last
    ensures Sorted(front + [last]) && multiset(front + [last]) == multiset(init + [last]) + multiset{x}
  {
    forall i | 0 <= i < |front| ensures front[i] <= last {
      assert front[i] in multiset(front);
      if front[i] in init {
        var j :| 0 <= j < |init| && init[j] == front[i];
        assert (init + [last])[j] <= (init + [last])[|init|];
      }
    }
  }

  function Ordered(vs: seq<real>): (ws: seq<real>)
    ensures Sorted(ws) && multiset(ws) == multiset(vs) && |ws| == |vs|
    decreases |vs|
  {
    if |vs| == 0 then []
    else
      assert vs == vs[..|vs| - 1] + [vs[|vs| - 1]];
      var ws := Insert(Ordered(vs[..|vs| - 1]), vs[|vs| - 1]);
      assert |ws| == |multiset(ws)|;
      ws
  }

  // The lines

  /** Whether a threshold reads outside the sorted values. */
  predicate OutOfRange(pct: real, count: nat)
  {
    var n := Covered(pct, count);
    count > 1 && n != 0 && (if pct > 0.0 then n > count else n >= count)
  }

  /** The line of one threshold, in terms of the values it covers: the smallest ones for a positive
      threshold, the largest ones for a negative one. */
  function LineFor(sorted: seq<real>, pct: real): (l: Line)
    requires |sorted| > 0 && !OutOfRange(pct, |sorted|)
    requires |sorted| > 1 ==> Covered(pct, |sorted|) != 0
  {
    var count := |sorted|;
    var n := if count > 1 then Covered(pct, count) else count;
    if count == 1 then Line(pct, 1, sorted[0], sorted[0], sorted[0])
    else if pct > 0.0 then Line(pct, n, Mean(Sum(sorted[..n]), n), Sum(sorted[..n]), sorted[n - 1])
    else Line(pct, n, Mean(Sum(sorted[count - n..]), n), Sum(sorted[count - n..]), sorted[count - n])
  }

  /** All lines; none at all if one threshold reads outside the values. */
  function Lines(sorted: seq<real>, pcts: seq<real>): (ls: Option<seq<Line>>)
    decreases |pcts|
  {
    if |pcts| == 0 || |sorted| == 0 then Some([])
    else
      var init, pct := pcts[..|pcts| - 1], pcts[|pcts| - 1];
      var before := Lines(sorted, init);
      if before.None? || OutOfRange(pct, |sorted|) then None
      else if |sorted| > 1 && Covered(pct, |sorted|) == 0 then before
      else Some(before.value + [LineFor(sorted, pct)])
  }

  predicate Shown(pct: real, count: nat)
  {
    count == 1 || (count > 1 && Covered(pct, count) != 0)
  }

  function ShownOf(pcts: seq<real>, count: nat): (qs: seq<real>)
    decreases |pcts|
  {
    if |pcts| == 0 then [] else (if Shown(pcts[0], count) then [pcts[0]] else []) + ShownOf(pcts[1..], count)
  }

  lemma {:induction false} ShownSnoc(pcts: seq<real>, pct: real, count: nat)
    ensures ShownOf(pcts + [pct], count) == ShownOf(pcts, count) + (if Shown(pct, count) then [pct] else [])
    decreases |pcts|
  {
    hide Shown;
    if |pcts| == 0 {
      assert pcts + [pct] == [pct] && [pct][1..] == [];
      assert ShownOf([], count) == [];
    } else {
      var all := pcts + [pct];
      assert all[0] == pcts[0] && all[1..] == pcts[1..] + [pct];
      ShownSnoc(pcts[1..], pct, count);
      Joined(if Shown(pcts[0], count) then [pcts[0]] else [], ShownOf(pcts[1..], count),
             if Shown(pct, count) then [pct] else []);
    }
  }

  lemma Joined(a: seq<real>, b: seq<real>, c: seq<real>)
    ensures a + (b + c) == a + b + c
  {
  }

  /** One line for each threshold that covers a value, in the order of the thresholds. */
  lemma {:induction false} LinesInOrder(sorted: seq<real>, pcts: seq<real>)
    requires Lines(sorted, pcts).Some?
    ensures var ls, qs := Lines(sorted, pcts).value, ShownOf(pcts, |sorted|);
            && |ls| == |qs|
            && (forall i :: 0 <= i < |ls| ==>
                  && ls[i].pct == qs[i] && |sorted| > 0 && !OutOfRange(qs[i], |sorted|)
                  && (|sorted| > 1 ==> Covered(qs[i], |sorted|) != 0) && ls[i] == LineFor(sorted, qs[i]))
    decreases |pcts|
  {
    hide Covered, Sum, Mean, OutOfRange;
    if |sorted| == 0 {
      NoneShown(pcts);
    } else if |pcts| > 0 {
      var init, pct := pcts[..|pcts| - 1], pcts[|pcts| - 1];
      assert pcts == init + [pct];
      LinesInOrder(sorted, init);
      ShownSnoc(init, pct, |sorted|);
    }
  }

  lemma {:induction false} NoneShown(pcts: seq<real>)
    ensures ShownOf(pcts, 0) == []
    decreases |pcts|
  {
    if |pcts| > 0 {
      NoneShown(pcts[1..]);
    }
  }

  /** A single value is its own sum, mean and boundary for every threshold. */
  lemma OneValueLine(v: real, pct: real)
    ensures !OutOfRange(pct, 1) && LineFor([v], pct) == Line(pct, 1, v, v, v)
  {
  }

  /** A threshold reads outside the values exactly when one of the positions it uses is not one of theirs. */
  lemma ReadsOutside(pct: real, count: nat)
    requires count > 1
    ensures var n := Covered(pct, count);
            OutOfRange(pct, count) <==>
            n != 0 && !(if pct > 0.0 then 0 <= n - 1 < count else 0 <= count - n - 1 && count - n < count)
  {
    hide Covered;
  }

  class StatsdTimerStatItem {
    var count: int
    var min: real
    var max: real
    var sum: real
    var values: seq<real>

    /** The aggregates are those of the values. */
    ghost predicate Valid()
      reads this
    {
      && FLAG !in values
      && Summary(values) == Item(min, max, sum, count)
    }

    constructor ()
      ensures Valid() && values == []
    {
      count, min, max, sum, values := 0, FLAG, FLAG, 0.0, [];
    }

    method Accumulate(val: Value)
      modifies this
      ensures values == old(values) + (if val.Finite? then [val.r] else [])
      ensures old(Valid()) && val != Finite(FLAG) ==> Valid()
    {
      hide Summary;
      if val.NonFinite? {
        return;
      }
      if FLAG !in values {
        AccumulateSummary(values, val.r);
      }
      count := count + 1;
      sum := sum + val.r;
      if min == FLAG || min > val.r {
        min := val.r;
      }
      if max == FLAG || max < val.r {
        max := val.r;
      }
      values := values + [val.r];
    }

    method ZeroOut()
      modifies this
      ensures Valid() && values == []
    {
      count, min, max, sum, values := 0, FLAG, FLAG, 0.0, [];
    }

    /** The running sums, started from the minimum. */
    method Cumulative() returns (cumulative: seq<real>)
      requires Valid() && Sorted(values)
      ensures |values| > 0 ==>
                |cumulative| == |values| && forall i :: 0 <= i < |values| ==> cumulative[i] == Sum(values[..i + 1])
    {
      hide Max;
      cumulative := [min];
      if |values| > 0 {
        MinUnique(values, values[0]);
        OneValue(values[..1]);
      }
      for idx := 0 to |values|
        invariant |cumulative| == if idx == 0 then 1 else idx
        invariant |values| > 0 ==> forall i :: 0 <= i < |cumulative| ==> cumulative[i] == Sum(values[..i + 1])
      {
        if idx > 0 {
          assert values[..idx + 1][..idx] == values[..idx];
          cumulative := cumulative + [values[idx] + cumulative[idx - 1]];
        }
      }
    }

    /** The percentile part of a flush: sorts the values in place and reports the thresholds. */
    method Write(pcts: seq<real>) returns (lines: Option<seq<Line>>)
      requires Valid()
      modifies this
      ensures Valid() && values == Ordered(old(values))
      ensures lines == Lines(values, pcts)
    {
      hide Covered, Ordered, Min, Max, Sum;
      SummaryPermutes(values, Ordered(values));
      FlagKept(values, Ordered(values));
      values := Ordered(values);
      var cumulative := Cumulative();
      var out: seq<Line> := [];
      lines := Some([]);
      for k := 0 to |pcts|
        invariant Valid() && values == Ordered(old(values))
        invariant lines == Some(out) == Lines(values, pcts[..k])
      {
        assert pcts[..k + 1][..k] == pcts[..k];
        if count > 0 {
          var pct := pcts[k];
          if OutOfRange(pct, count) {
            NoneStays(values, pcts, k + 1);
            return None;
          }
          var n := if count > 1 then Covered(pct, count) else count;
          if count == 1 || n != 0 {
            var l := ThresholdLine(cumulative, pct, n);
            out := out + [l];
            lines := Some(out);
          }
        }
      }
      assert pcts[..|pcts|] == pcts;
    }

    method ThresholdLine(cumulative: seq<real>, pct: real, n: int) returns (l: Line)
      requires Valid() && Sorted(values) && count > 0 && |cumulative| == |values|
      requires forall i :: 0 <= i < |values| ==> cumulative[i] == Sum(values[..i + 1])
      requires n == (if count > 1 then Covered(pct, count) else count) && n != 0 && !OutOfRange(pct, count)
      ensures l == LineFor(values, pct)
    {
      hide Covered, Min, Max, Sum, Mean;
      var sum, mean, boundary := min, min, max;
      if count > 1 {
        if pct > 0.0 {
          boundary := values[n - 1];
          sum := cumulative[n - 1];
        } else {
          boundary := values[count - n];
          sum := cumulative[count - 1] - cumulative[count - n - 1];
          assert values[..count] == values[..count - n] + values[count - n..];
          SumJoin(values[..count - n], values[count - n..]);
        }
        mean := Mean(sum, n);
      } else {
        MinUnique(values, values[0]);
        MaxUnique(values, values[0]);
      }
      l := Line(pct, n, mean, sum, boundary);
    }
  }

  lemma FlagKept(vs: seq<real>, ws: seq<real>)
    requires FLAG !in vs && multiset(vs) == multiset(ws)
    ensures FLAG !in ws
  {
    assert FLAG in ws ==> FLAG in multiset(ws);
  }

  lemma {:induction false} NoneStays(sorted: seq<real>, pcts: seq<real>, k: nat)
    requires k <= |pcts| && Lines(sorted, pcts[..k]).None?
    ensures Lines(sorted, pcts).None?
    decreases |pcts|
  {
    if k < |pcts| {
      var init := pcts[..|pcts| - 1];
      assert init[..k] == pcts[..k];
      NoneStays(sorted, init, k);
    } else {
      assert pcts[..k] == pcts;
    }
  }

  /** There are no lines at all exactly when some threshold reads outside the values. */
  lemma {:induction false} LinesExactly(sorted: seq<real>, pcts: seq<real>)
    ensures Lines(sorted, pcts).None? <==> exists k :: 0 <= k < |pcts| && OutOfRange(pcts[k], |sorted|)
    decreases |pcts|
  {
    hide OutOfRange, LineFor;
    if |sorted| == 0 {
      NoValuesInRange();
    } else if |pcts| > 0 {
      var init := pcts[..|pcts| - 1];
      LinesExactly(sorted, init);
      if k :| 0 <= k < |init| && OutOfRange(init[k], |sorted|) {
        assert OutOfRange(pcts[k], |sorted|);
      }
      if k :| 0 <= k < |pcts| - 1 && OutOfRange(pcts[k], |sorted|) {
        assert OutOfRange(init[k], |sorted|);
      }
    }
  }

  lemma NoValuesInRange()
    ensures forall pct :: !OutOfRange(pct, 0)
  {
  }

  /** Positive thresholds up to 100 percent are always in range; a negative one of 100 percent never is. */
  lemma InRange(pct: real, count: nat)
    requires count > 1 && Fraction(pct) <= 1.0
    ensures pct > 0.0 ==> !OutOfRange(pct, count)
    ensures pct < 0.0 && Fraction(pct) == 1.0 ==> OutOfRange(pct, count)
  {
    hide Fraction;
    ScaleGrows(Fraction(pct), 1.0, count as real);
    ScaleGrows(0.0, Fraction(pct), count as real);
    RoundGrows(Fraction(pct) * count as real, count as real);
    assert Round(count as real) == count;
  }

  // What the numbers mean

  lemma {:induction false} AtMost(vs: seq<real>, x: real)
    requires forall i :: 0 <= i < |vs| ==> vs[i] <= x
    ensures Sum(vs) <= |vs| as real * x
    decreases |vs|
  {
    if |vs| > 0 {
      AtMost(vs[..|vs| - 1], x);
      assert |vs| as real * x == (|vs| - 1) as real * x + x;
    }
  }

  lemma Taken(vs: seq<real>, x: real) returns (rest: seq<real>)
    requires x in vs
    ensures multiset(rest) + multiset{x} == multiset(vs) && Sum(vs) == Sum(rest) + x && |rest| == |vs| - 1
  {
    hide Sum;
    var i :| 0 <= i < |vs| && vs[i] == x;
    var a, b := vs[..i], vs[i + 1..];
    assert vs == a + [x] + b;
    SumAround(a, x, b);
    rest := a + b;
  }

  lemma SumUpTo(vs: seq<real>, n: nat)
    requires 0 < n <= |vs|
    ensures Sum(vs[..n]) == Sum(vs[..n - 1]) + vs[n - 1]
  {
    hide Sum;
    assert vs[..n] == vs[..n - 1] + [vs[n - 1]];
    SumJoin(vs[..n - 1], [vs[n - 1]]);
    OneValue([vs[n - 1]]);
  }

  lemma SumFrom(vs: seq<real>, i: nat)
    requires i < |vs|
    ensures Sum(vs[i..]) == vs[i] + Sum(vs[i + 1..])
  {
    hide Sum;
    assert vs[i..] == [vs[i]] + vs[i + 1..];
    SumJoin([vs[i]], vs[i + 1..]);
    OneValue([vs[i]]);
  }

  lemma InitOf(sorted: seq<real>, ws: seq<real>)
    requires Sorted(sorted) && |sorted| > 0 && multiset(ws) <= multiset(sorted)
    ensures var n := |sorted| - 1;
            && Sorted(sorted[..n]) && multiset(ws) <= multiset(sorted[..n] + [sorted[n]])
            && forall i :: 0 <= i <= n ==> sorted[i] <= sorted[n]
  {
    assert sorted == sorted[..|sorted| - 1] + [sorted[|sorted| - 1]];
  }

  /** No choice of `|ws|` of the values has a smaller sum than the first ones in sorted order. */
  lemma {:induction false} SmallestSum(sorted: seq<real>, ws: seq<real>)
    requires Sorted(sorted) && multiset(ws) <= multiset(sorted) && |ws| <= |sorted|
    ensures Sum(sorted[..|ws|]) <= Sum(ws)
    decreases |sorted|
  {
    hide Sum, Sorted;
    var n := |ws|;
    if n == 0 {
      NoValue(ws);
      NoValue(sorted[..0]);
    } else {
      var init, last := sorted[..|sorted| - 1], sorted[|sorted| - 1];
      InitOf(sorted, ws);
      if last in ws {
        var rest := Taken(ws, last);
        SubBag(rest, init, last);
        SmallestSum(init, rest);
        assert init[..n - 1] == sorted[..n - 1];
        SumUpTo(sorted, n);
      } else {
        NotLast(ws, init, last);
        SmallestSum(init, ws);
        assert init[..n] == sorted[..n];
      }
    }
  }

  lemma SubBag(rest: seq<real>, init: seq<real>, x: real)
    requires multiset(rest) + multiset{x} <= multiset(init + [x])
    ensures multiset(rest) <= multiset(init) && |rest| <= |init|
  {
    assert multiset(init + [x]) == multiset(init) + multiset{x};
    forall y ensures multiset(rest)[y] <= multiset(init)[y] {
      assert (multiset(rest) + multiset{x})[y] <= (multiset(init) + multiset{x})[y];
    }
    assert multiset(init) == multiset(rest) + (multiset(init) - multiset(rest));
    assert |multiset(rest)| <= |multiset(init)|;
  }

  lemma NotLast(ws: seq<real>, init: seq<real>, last: real)
    requires multiset(ws) <= multiset(init + [last]) && last !in ws
    ensures multiset(ws) <= multiset(init) && |ws| <= |init|
  {
    assert multiset(init + [last]) == multiset(init) + multiset{last};
    assert multiset(ws)[last] == 0;
    forall y ensures multiset(ws)[y] <= multiset(init)[y] {
      assert multiset(ws)[y] <= (multiset(init) + multiset{last})[y];
    }
    assert multiset(init) == multiset(ws) + (multiset(init) - multiset(ws));
    assert |multiset(ws)| <= |multiset(init)|;
  }

  lemma TailOf(sorted: seq<real>, ws: seq<real>)
    requires Sorted(sorted) && |sorted| > 0 && multiset(ws) <= multiset(sorted)
    ensures Sorted(sorted[1..]) && multiset(ws) <= multiset(sorted[1..] + [sorted[0]])
    ensures forall i :: 0 <= i < |sorted| ==> sorted[0] <= sorted[i]
  {
    assert sorted == [sorted[0]] + sorted[1..];
    assert multiset(sorted) == multiset(sorted[1..] + [sorted[0]]);
  }

  /** No choice of `|ws|` of the values has a larger sum than the last ones in sorted order. */
  lemma {:induction false} LargestSum(sorted: seq<real>, ws: seq<real>)
    requires Sorted(sorted) && multiset(ws) <= multiset(sorted) && |ws| <= |sorted|
    ensures Sum(ws) <= Sum(sorted[|sorted| - |ws|..])
    decreases |sorted|
  {
    hide Sum, Sorted;
    var n, m := |ws|, |sorted|;
    if n == 0 {
      NoValue(ws);
      NoValue(sorted[m..]);
    } else {
      var tail, first := sorted[1..], sorted[0];
      TailOf(sorted, ws);
      if first in ws {
        var rest := Taken(ws, first);
        SubBag(rest, tail, first);
        LargestSum(tail, rest);
        assert tail[m - n..] == sorted[m - n + 1..];
        SumFrom(sorted, m - n);
      } else {
        NotLast(ws, tail, first);
        LargestSum(tail, ws);
        assert tail[m - 1 - n..] == sorted[m - n..];
      }
    }
  }

  lemma MeanTimes(total: real, n: nat)
    requires n > 0
    ensures Mean(total, n) * n as real == total
  {
  }

  /** A line's sum is extreme among all choices of as many of the values as it covers, in any order they
      came in: least for a positive threshold, greatest for a negative one. */
  lemma LineIsExtreme(values: seq<real>, pct: real, ws: seq<real>)
    requires |values| > 1 && !OutOfRange(pct, |values|) && Covered(pct, |values|) == |ws| > 0
    requires multiset(ws) <= multiset(values)
    ensures var l := LineFor(Ordered(values), pct);
            l.covered == |ws| && if pct > 0.0 then l.sum <= Sum(ws) else Sum(ws) <= l.sum
  {
    hide Sum, Covered, Ordered, Mean, Sorted;
    var sorted := Ordered(values);
    if pct > 0.0 {
      SmallestSum(sorted, ws);
    } else {
      LargestSum(sorted, ws);
    }
  }

  lemma LineIsMean(values: seq<real>, pct: real)
    requires |values| > 1 && !OutOfRange(pct, |values|) && Covered(pct, |values|) > 0
    ensures var l := LineFor(Ordered(values), pct); l.covered > 0 && l.mean == Mean(l.sum, l.covered)
  {
    hide Sum, Covered, Ordered, Mean;
  }

  /** A line's mean times the number of values it covers is its sum. */
  lemma LineMean(values: seq<real>, pct: real)
    requires |values| > 1 && !OutOfRange(pct, |values|) && Covered(pct, |values|) > 0
    ensures var l := LineFor(Ordered(values), pct); l.covered > 0 && l.mean * l.covered as real == l.sum
  {
    hide Covered, Ordered, Mean, OutOfRange, LineFor;
    LineIsMean(values, pct);
    var l := LineFor(Ordered(values), pct);
    MeanTimes(l.sum, l.covered);
  }

  /** A line's boundary is one of the values it covers, and separates them from the others. */
  lemma BoundarySeparates(values: seq<real>, pct: real, i: nat)
    requires |values| > 1 && !OutOfRange(pct, |values|) && Covered(pct, |values|) > 0 && i < |values|
    ensures var l := LineFor(Ordered(values), pct);
            var split := if pct > 0.0 then l.covered else |values| - l.covered;
            && 0 <= split <= |values|
            && (if i < split then Ordered(values)[i] <= l.boundary else l.boundary <= Ordered(values)[i])
            && l.boundary in (if pct > 0.0 then Ordered(values)[..split] else Ordered(values)[split..])
  {
    hide Sum, Covered, Ordered, Mean;
  }

  lemma Halves(a: real, b: real, k: real)
    requires k > 0.0 && a * k <= b * k
    ensures a <= b
  {
  }

  lemma MeanStep(total: real, n: nat, x: real)
    requires n > 0 && total <= n as real * x
    ensures Mean(total, n) <= Mean(total + x, n + 1)
  {
    hide Mean;
    var k := n as real;
    var m, m' := Mean(total, n), Mean(total + x, n + 1);
    MeanTimes(total, n);
    MeanTimes(total + x, n + 1);
    Halves(m, x, k);
    assert (n + 1) as real == k + 1.0;
    assert m * (k + 1.0) == m * k + m;
    Halves(m, m', k + 1.0);
  }

  /** The mean of the `n` smallest values does not decrease with `n`. */
  lemma {:induction false} MeanGrows(sorted: seq<real>, n: nat, m: nat)
    requires Sorted(sorted) && 0 < n <= m <= |sorted|
    ensures Mean(Sum(sorted[..n]), n) <= Mean(Sum(sorted[..m]), m)
    decreases m
  {
    hide Sum, Mean;
    if n < m {
      MeanGrows(sorted, n, m - 1);
      var x := sorted[m - 1];
      AtMost(sorted[..m - 1], x);
      MeanStep(Sum(sorted[..m - 1]), m - 1, x);
      SumUpTo(sorted, m);
    }
  }

  lemma InOrder(sorted: seq<real>, i: nat, j: nat)
    requires Sorted(sorted) && i <= j < |sorted|
    ensures sorted[i] <= sorted[j]
  {
  }

  /** Among positive thresholds, one that covers a larger fraction reports an upper boundary and a mean at
      least as large, and no mean exceeds the mean of all values. */
  lemma ThresholdsGrow(values: seq<real>, p: real, q: real)
    requires p > 0.0 && q > 0.0 && Fraction(p) <= Fraction(q) && |values| > 1
    requires Covered(p, |values|) > 0 && !OutOfRange(q, |values|)
    ensures Covered(q, |values|) > 0 && !OutOfRange(p, |values|)
    ensures var sorted := Ordered(values);
            && LineFor(sorted, p).boundary <= LineFor(sorted, q).boundary
            && LineFor(sorted, p).mean <= LineFor(sorted, q).mean <= Mean(Sum(values), |values|)
  {
    hide Sum, Covered, Ordered, Mean, Fraction, Sorted;
    var sorted, count := Ordered(values), |values|;
    CoveredGrows(p, q, count);
    var n, m := Covered(p, count), Covered(q, count);
    MeanGrows(sorted, n, m);
    MeanGrows(sorted, m, count);
    assert sorted[..count] == sorted;
    SumPermutes(sorted, values);
    InOrder(sorted, n - 1, m - 1);
  }
}
