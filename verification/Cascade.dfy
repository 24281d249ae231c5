/** A chain of accumulators: lines go to the finest, and each may be flushed into the next coarser one at any
    moment. */
module Cascade {
  import opened CarbonTwo
  import R = RollUp

  datatype Event = Feed(line: R.Line) | Flush(level: nat, order: seq<Key>)

  /** Each resolution is positive and a multiple of the one before it. */
  predicate Chain(ds: seq<int>)
  {
    && |ds| > 0
    && (forall i :: 0 <= i < |ds| ==> ds[i] > 0)
    && (forall i :: 0 < i < |ds| ==> ds[i] % ds[i - 1] == 0)
  }

  /** The bins of a line at every level that is flushed have stamps that read back as themselves. */
  ghost predicate Stamped(l: R.Line, ds: seq<int>)
  {
    forall i :: 0 <= i < |ds| - 1 ==> R.Stamped(l, ds[i])
  }

  /** A line whose value is not the flag, or a flush of a level other than the last, in some order of its items
      and with no sum equal to the flag. */
  ghost predicate Plain(ms: seq<map<Key, Item>>, e: Event, ds: seq<int>)
  {
    match e
    case Feed(l) => |ms| > 0 && l.value != FLAG && Stamped(l, ds)
    case Flush(i, order) =>
      i + 1 < |ms| && R.Lists(order, ms[i]) && forall k :: k in ms[i] ==> ms[i][k].sum != FLAG
  }

  ghost function Next(ms: seq<map<Key, Item>>, e: Event, ds: seq<int>): (ms': seq<map<Key, Item>>)
    requires |ms| == |ds| && Plain(ms, e, ds)
    ensures |ms'| == |ms|
  {
    match e
    case Feed(l) => ms[0 := R.LineIn(ms[0], ds[0], l.name, l.time, Finite(l.value))]
    case Flush(i, order) => ms[i := map[]][i + 1 := R.StatsIn(ms[i + 1], ds[i + 1], R.Reprs(order, ms[i]))]
  }

  ghost predicate PlainRun(ms: seq<map<Key, Item>>, es: seq<Event>, ds: seq<int>)
    requires |ms| == |ds|
    decreases |es|
  {
    |es| == 0 || (Plain(ms, es[0], ds) && PlainRun(Next(ms, es[0], ds), es[1..], ds))
  }

  ghost function After(ms: seq<map<Key, Item>>, es: seq<Event>, ds: seq<int>): (ms': seq<map<Key, Item>>)
    requires |ms| == |ds| && PlainRun(ms, es, ds)
    ensures |ms'| == |ms|
    decreases |es|
  {
    if |es| == 0 then ms else After(Next(ms, es[0], ds), es[1..], ds)
  }

  function Start(n: nat): (ms: seq<map<Key, Item>>)
    ensures |ms| == n && forall i :: 0 <= i < n ==> ms[i] == map[]
  {
    seq(n, _ => map[])
  }

  /** The lines of a run, as events of a single accumulator. */
  function Lines(es: seq<Event>): (ls: seq<R.Event>)
    decreases |es|
  {
    if |es| == 0 then [] else (if es[0].Feed? then [R.Feed(es[0].line)] else []) + Lines(es[1..])
  }

  // What each level holds

  /** Level `i` stands for the lines of `logs[i]`. */
  ghost predicate Inv(ms: seq<map<Key, Item>>, logs: seq<seq<R.Line>>, ds: seq<int>)
  {
    && |ms| == |logs| == |ds|
    && (forall i :: 0 <= i < |ms| ==> R.Holds(ms[i], k => R.Bag(logs[i], ds[i], k)))
    && (forall i, j :: 0 <= i < |logs| && 0 <= j < |logs[i]| ==> Stamped(logs[i][j], ds))
  }

  /** All lines, oldest first: those furthest along the chain are the oldest. */
  function Oldest(logs: seq<seq<R.Line>>): (ls: seq<R.Line>)
    decreases |logs|
  {
    if |logs| == 0 then [] else Oldest(logs[1..]) + logs[0]
  }

  lemma FeedInv(ms: seq<map<Key, Item>>, logs: seq<seq<R.Line>>, ds: seq<int>, l: R.Line)
    requires Inv(ms, logs, ds) && Plain(ms, Feed(l), ds)
    ensures Inv(Next(ms, Feed(l), ds), logs[0 := logs[0] + [l]], ds)
    ensures Oldest(logs[0 := logs[0] + [l]]) == Oldest(logs) + [l]
  {
    hide R.Holds, R.LineIn, R.Bag, Stamped;
    R.LineHolds(ms[0], ds[0], logs[0], l);
    var logs' := logs[0 := logs[0] + [l]];
    assert logs'[1..] == logs[1..];
    assert Oldest(logs') == Oldest(logs[1..]) + (logs[0] + [l]);
    forall i, j | 0 <= i < |logs'| && 0 <= j < |logs'[i]| ensures Stamped(logs'[i][j], ds) {
      assert (i == 0 && j == |logs[0]|) || logs'[i][j] == logs[i][j];
    }
  }

  lemma FlushInv(ms: seq<map<Key, Item>>, logs: seq<seq<R.Line>>, ds: seq<int>, i: nat, order: seq<Key>)
    requires Chain(ds) && Inv(ms, logs, ds) && Plain(ms, Flush(i, order), ds)
    ensures Inv(Next(ms, Flush(i, order), ds), logs[i := []][i + 1 := logs[i + 1] + logs[i]], ds)
  {
    hide R.Holds, R.StatsIn, R.Bag, R.Stamped;
    var s := R.Pair(ms[i], ms[i + 1]);
    forall j | 0 <= j < |logs[i]| ensures R.Stamped(logs[i][j], ds[i]) {
      assert Stamped(logs[i][j], ds);
    }
    assert ds[i + 1] % ds[i] == 0;
    R.FlushInv(s, logs[i + 1], logs[i], order, ds[i], ds[i + 1]);
    hide Stamped;
    var logs' := logs[i := []][i + 1 := logs[i + 1] + logs[i]];
    forall a, j | 0 <= a < |logs'| && 0 <= j < |logs'[a]| ensures Stamped(logs'[a][j], ds) {
      if a == i + 1 {
        assert logs'[a][j] == if j < |logs[i + 1]| then logs[i + 1][j] else logs[i][j - |logs[i + 1]|];
      } else {
        assert logs'[a][j] == logs[a][j];
      }
    }
  }

  lemma {:induction false} FlushOldest(logs: seq<seq<R.Line>>, i: nat)
    requires i + 1 < |logs|
    ensures Oldest(logs[i := []][i + 1 := logs[i + 1] + logs[i]]) == Oldest(logs)
    decreases i
  {
    var logs' := logs[i := []][i + 1 := logs[i + 1] + logs[i]];
    if i > 0 {
      assert logs'[1..] == logs[1..][i - 1 := []][i := logs[i + 1] + logs[i]];
      FlushOldest(logs[1..], i - 1);
    } else {
      assert logs'[1..][1..] == logs[1..][1..];
      assert Oldest(logs'[1..]) == Oldest(logs[1..][1..]) + (logs[1] + logs[0]);
      assert Oldest(logs[1..]) == Oldest(logs[1..][1..]) + logs[1];
    }
  }

  lemma {:induction false} RunInv(ms: seq<map<Key, Item>>, es: seq<Event>, ds: seq<int>, logs: seq<seq<R.Line>>)
    returns (logs': seq<seq<R.Line>>)
    requires Chain(ds) && Inv(ms, logs, ds) && PlainRun(ms, es, ds)
    ensures Inv(After(ms, es, ds), logs', ds)
    ensures Oldest(logs') == Oldest(logs) + R.Lines(Lines(es))
    decreases |es|
  {
    hide Inv, Plain, Next, Chain, Oldest;
    if |es| == 0 {
      logs' := logs;
    } else {
      var e := es[0];
      Lengths(ms, e, ds, logs);
      if e.Feed? {
        FeedInv(ms, logs, ds, e.line);
        FirstLine(e.line, Lines(es[1..]));
        logs' := RunInv(Next(ms, e, ds), es[1..], ds, logs[0 := logs[0] + [e.line]]);
      } else {
        FlushInv(ms, logs, ds, e.level, e.order);
        FlushOldest(logs, e.level);
        assert Lines(es) == Lines(es[1..]);
        var i := e.level;
        logs' := RunInv(Next(ms, e, ds), es[1..], ds, logs[i := []][i + 1 := logs[i + 1] + logs[i]]);
      }
    }
  }

  lemma Lengths(ms: seq<map<Key, Item>>, e: Event, ds: seq<int>, logs: seq<seq<R.Line>>)
    requires Inv(ms, logs, ds) && Plain(ms, e, ds)
    ensures |ms| == |ds| && |logs| > 0 && (e.Flush? ==> e.level + 1 < |logs|)
  {
  }

  lemma FirstLine(l: R.Line, ls: seq<R.Event>)
    ensures R.Lines([R.Feed(l)] + ls) == [l] + R.Lines(ls)
  {
    assert ([R.Feed(l)] + ls)[1..] == ls;
  }

  lemma {:induction false} PlainValues(ms: seq<map<Key, Item>>, es: seq<Event>, ds: seq<int>)
    requires |ms| == |ds| && PlainRun(ms, es, ds)
    ensures forall i :: 0 <= i < |Lines(es)| ==> Lines(es)[i].Feed? ==> Lines(es)[i].line.value != FLAG
    decreases |es|
  {
    hide Next;
    if |es| > 0 {
      PlainValues(Next(ms, es[0], ds), es[1..], ds);
    }
  }

  lemma {:induction false} OnlyLast(logs: seq<seq<R.Line>>)
    requires |logs| > 0 && forall i :: 0 <= i < |logs| - 1 ==> logs[i] == []
    ensures Oldest(logs) == logs[|logs| - 1]
    decreases |logs|
  {
    if |logs| > 1 {
      OnlyLast(logs[1..]);
    } else {
      assert Oldest(logs[1..]) == [];
    }
  }

  /** Roll-up commutes along a whole chain: after any run of lines and of flushes between neighbouring levels
      that leaves all levels but the last empty, the last level equals what feeding all lines to it directly
      gives: the same keys and bins, with the same minimum, maximum, sum and count. */
  lemma CascadeCommutes(es: seq<Event>, ds: seq<int>)
    requires Chain(ds) && PlainRun(Start(|ds|), es, ds)
    requires forall i :: 0 <= i < |ds| - 1 ==> After(Start(|ds|), es, ds)[i] == map[]
    ensures After(Start(|ds|), es, ds)[|ds| - 1] == R.Direct(map[], Lines(es), ds[|ds| - 1])
  {
    hide R.Holds, R.Bag, R.Direct, After, PlainRun, Lines, R.Lines, Oldest;
    var n := |ds| - 1;
    var none: seq<seq<R.Line>> := seq(|ds|, _ => []);
    StartInv(ds, none);
    var logs := RunInv(Start(|ds|), es, ds, none);
    var ms := After(Start(|ds|), es, ds);
    forall i | 0 <= i < n ensures logs[i] == [] {
      if |logs[i]| > 0 {
        R.SomethingHeld(ms[i], logs[i], ds[i]);
      }
    }
    OnlyLast(logs);
    var all := R.Lines(Lines(es));
    assert logs[n] == all == [] + all;
    PlainValues(Start(|ds|), es, ds);
    R.NothingHeld(ds[n]);
    R.DirectHolds(map[], Lines(es), ds[n], [], all);
    R.HoldsOne(ms[n], R.Direct(map[], Lines(es), ds[n]), k => R.Bag(all, ds[n], k));
  }

  lemma StartInv(ds: seq<int>, none: seq<seq<R.Line>>)
    requires |none| == |ds| && forall i :: 0 <= i < |none| ==> none[i] == []
    ensures Inv(Start(|ds|), none, ds) && Oldest(none) == []
  {
    forall i | 0 <= i < |ds| ensures R.Holds(Start(|ds|)[i], k => R.Bag(none[i], ds[i], k)) {
      R.NothingHeld(ds[i]);
    }
    AllEmpty(none);
  }

  lemma {:induction false} AllEmpty(none: seq<seq<R.Line>>)
    requires forall i :: 0 <= i < |none| ==> none[i] == []
    ensures Oldest(none) == []
    decreases |none|
  {
    if |none| > 0 {
      AllEmpty(none[1..]);
    }
  }

  /** Accepted resolutions, all positive, are such a chain. */
  lemma AcceptedIsChain(seconds: seq<int>)
    requires R.InMultiples(seconds) && |seconds| > 0 && forall i :: 0 <= i < |seconds| ==> seconds[i] > 0
    ensures Chain(seq(|seconds|, i requires 0 <= i < |seconds| => seconds[i] * R.SECOND))
  {
    var ds := seq(|seconds|, i requires 0 <= i < |seconds| => seconds[i] * R.SECOND);
    forall i | 0 < i < |ds| ensures ds[i] % ds[i - 1] == 0 {
      R.ScaledMultiple(seconds[i - 1], seconds[i]);
    }
  }
}
