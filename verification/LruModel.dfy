/** The LRU cache as values: what each operation does to the recency list, and what holds after any run. */
module LruModel {
  import opened Basics

  /** The size counter is an unsigned 64-bit number and wraps. */
  const WORD := 0x1_0000_0000_0000_0000

  /** An entry, with the size its value reported when it was stored. */
  datatype Item<T> = Item(key: string, value: T, size: int)

  /** The recency list, most recent first, the size counter and the capacity. */
  datatype Cache<T> = Cache(items: seq<Item<T>>, size: nat, capacity: nat)

  datatype Op<T> = Get(key: string) | Set(key: string, value: T, size: int)
                 | SetIfAbsent(key: string, value: T, size: int)
                 | Delete(key: string) | Clear | SetCapacity(capacity: nat)

  predicate Has<T>(items: seq<Item<T>>, k: string)
    decreases |items|
  {
    |items| > 0 && (items[0].key == k || Has(items[1..], k))
  }

  function Lookup<T>(items: seq<Item<T>>, k: string): (x: Item<T>)
    requires Has(items, k)
    ensures x.key == k && x in items
    decreases |items|
  {
    if items[0].key == k then items[0] else Lookup(items[1..], k)
  }

  function Drop<T>(items: seq<Item<T>>, k: string): (rest: seq<Item<T>>)
    ensures !Has(rest, k) && |rest| <= |items|
    decreases |items|
  {
    if |items| == 0 then []
    else if items[0].key == k then Drop(items[1..], k)
    else [items[0]] + Drop(items[1..], k)
  }

  function Sum<T>(items: seq<Item<T>>): (n: int)
    decreases |items|
  {
    if |items| == 0 then 0 else items[0].size + Sum(items[1..])
  }

  /** One eviction at most, even when the cache is then still over its capacity. */
  function Evicted<T>(c: Cache<T>): (x: Option<Item<T>>)
  {
    if c.size > c.capacity && |c.items| > 0 then Some(c.items[|c.items| - 1]) else None
  }

  function Evict<T>(c: Cache<T>): (d: Cache<T>)
  {
    match Evicted(c)
    case None => c
    case Some(x) => c.(items := c.items[..|c.items| - 1], size := (c.size - x.size) % WORD)
  }

  /** The entry as the newest, before the capacity check. */
  function Stored<T>(c: Cache<T>, k: string, v: T, size: int): (d: Cache<T>)
  {
    var was := if Has(c.items, k) then Lookup(c.items, k).size else 0;
    c.(items := [Item(k, v, size)] + Drop(c.items, k), size := (c.size + (size - was)) % WORD)
  }

  function Touch<T>(c: Cache<T>, k: string): (d: Cache<T>)
  {
    if Has(c.items, k) then c.(items := [Lookup(c.items, k)] + Drop(c.items, k)) else c
  }

  function Step<T>(c: Cache<T>, op: Op<T>): (d: Cache<T>)
  {
    match op
    case Get(k) => Touch(c, k)
    case Set(k, v, n) => Evict(Stored(c, k, v, n))
    case SetIfAbsent(k, v, n) => if Has(c.items, k) then Touch(c, k) else Evict(Stored(c, k, v, n))
    case Delete(k) =>
      if Has(c.items, k) then c.(items := Drop(c.items, k), size := (c.size - Lookup(c.items, k).size) % WORD) else c
    case Clear => c.(items := [], size := 0)
    case SetCapacity(n) => Evict(c.(capacity := n))
  }

  function Run<T>(capacity: nat, ops: seq<Op<T>>): (c: Cache<T>)
    decreases |ops|
  {
    if |ops| == 0 then Cache([], 0, capacity) else Step(Run(capacity, ops[..|ops| - 1]), ops[|ops| - 1])
  }

  // Membership and sums

  lemma {:induction false} HasDrop<T>(items: seq<Item<T>>, k: string, j: string)
    ensures Has(Drop(items, k), j) <==> j != k && Has(items, j)
    ensures j != k && Has(items, j) ==> Lookup(Drop(items, k), j) == Lookup(items, j)
    decreases |items|
  {
    if |items| > 0 {
      HasDrop(items[1..], k, j);
      if items[0].key != k {
        assert Drop(items, k)[1..] == Drop(items[1..], k);
      }
    }
  }

  /** No key twice. */
  ghost predicate Distinct<T>(items: seq<Item<T>>)
    decreases |items|
  {
    |items| == 0 || (!Has(items[1..], items[0].key) && Distinct(items[1..]))
  }

  lemma {:induction false} DropDistinct<T>(items: seq<Item<T>>, k: string)
    requires Distinct(items)
    ensures Distinct(Drop(items, k))
    ensures Sum(Drop(items, k)) == Sum(items) - (if Has(items, k) then Lookup(items, k).size else 0)
    ensures !Has(items, k) ==> Drop(items, k) == items
    decreases |items|
  {
    if |items| > 0 {
      DropDistinct(items[1..], k);
      if items[0].key == k {
        assert !Has(items[1..], k);
      } else {
        assert Drop(items, k)[1..] == Drop(items[1..], k);
        HasDrop(items[1..], k, items[0].key);
      }
    }
  }

  lemma {:induction false} SplitLast<T>(items: seq<Item<T>>, k: string)
    requires |items| > 0
    ensures var n := |items| - 1;
            && (Has(items, k) <==> Has(items[..n], k) || items[n].key == k)
            && (Has(items[..n], k) ==> Lookup(items, k) == Lookup(items[..n], k))
            && Sum(items) == Sum(items[..n]) + items[n].size
            && (Distinct(items) ==> Distinct(items[..n]) && !Has(items[..n], items[n].key))
    decreases |items|
  {
    var n := |items| - 1;
    if n > 0 {
      var tail := items[1..];
      assert tail[..n - 1] == items[..n][1..];
      SplitLast(tail, k);
      SplitLast(tail, items[0].key);
    }
  }

  // Invariants of every run

  /** Keys are distinct and the counter is the true sum of the sizes modulo 2^64. */
  ghost predicate Sound<T>(c: Cache<T>)
  {
    Distinct(c.items) && c.size == Sum(c.items) % WORD
  }

  lemma ModAdd(a: int, b: int)
    ensures (a % WORD + b) % WORD == (a + b) % WORD
  {
  }

  lemma EvictSound<T>(c: Cache<T>)
    requires Sound(c)
    ensures Sound(Evict(c))
    ensures c.size > c.capacity ==> |c.items| > 0
  {
    if |c.items| > 0 {
      var x := c.items[|c.items| - 1];
      SplitLast(c.items, x.key);
      ModAdd(Sum(c.items), 0 - x.size);
    }
  }

  lemma StoredSound<T>(c: Cache<T>, k: string, v: T, n: int)
    requires Sound(c)
    ensures Sound(Stored(c, k, v, n))
  {
    DropDistinct(c.items, k);
    var was := if Has(c.items, k) then Lookup(c.items, k).size else 0;
    var d := Stored(c, k, v, n);
    assert d.items[1..] == Drop(c.items, k);
    ModAdd(Sum(c.items), n - was);
  }

  lemma TouchSound<T>(c: Cache<T>, k: string)
    requires Sound(c)
    ensures Sound(Touch(c, k))
  {
    DropDistinct(c.items, k);
    if Has(c.items, k) {
      assert Touch(c, k).items[1..] == Drop(c.items, k);
    }
  }

  lemma StepSound<T>(c: Cache<T>, op: Op<T>)
    requires Sound(c)
    ensures Sound(Step(c, op))
  {
    hide Has, Lookup, Drop, Sum, Distinct, Stored, Evict;
    match op
    case Get(k) => TouchSound(c, k);
    case Set(k, v, n) =>
      StoredSound(c, k, v, n);
      EvictSound(Stored(c, k, v, n));
    case SetIfAbsent(k, v, n) =>
      TouchSound(c, k);
      StoredSound(c, k, v, n);
      EvictSound(Stored(c, k, v, n));
    case Delete(k) =>
      DropDistinct(c.items, k);
      if Has(c.items, k) {
        ModAdd(Sum(c.items), 0 - Lookup(c.items, k).size);
      }
    case Clear => EmptySound<T>(c.capacity);
    case SetCapacity(n) => EvictSound(c.(capacity := n));
  }

  lemma EmptySound<T>(capacity: nat)
    ensures Sound<T>(Cache([], 0, capacity))
  {
  }

  /** After any run of operations the keys are distinct and the size counter equals the true sum of the
      entry sizes modulo 2^64, so the capacity check never meets an empty list. */
  lemma {:induction false} AlwaysSound<T>(capacity: nat, ops: seq<Op<T>>)
    ensures Sound(Run(capacity, ops))
    decreases |ops|
  {
    hide Step, Sound;
    if |ops| == 0 {
      EmptySound<T>(capacity);
    } else {
      AlwaysSound(capacity, ops[..|ops| - 1]);
      StepSound(Run(capacity, ops[..|ops| - 1]), ops[|ops| - 1]);
    }
  }

  // Recency

  predicate Uses<T>(op: Op<T>, k: string)
  {
    (op.Get? || op.Set? || op.SetIfAbsent?) && op.key == k
  }

  /** One past the position of the last operation that used `k`, zero if there is none. */
  function LastUse<T>(ops: seq<Op<T>>, k: string): (n: nat)
    ensures n <= |ops|
    decreases |ops|
  {
    if |ops| == 0 then 0
    else if Uses(ops[|ops| - 1], k) then |ops|
    else LastUse(ops[..|ops| - 1], k)
  }

  /** The list goes from the most to the least recently used key. */
  ghost predicate ByRecency<T>(items: seq<Item<T>>, ops: seq<Op<T>>)
    decreases |items|
  {
    |items| == 0 ||
    ((forall k :: Has(items[1..], k) ==> LastUse(ops, k) < LastUse(ops, items[0].key)) && ByRecency(items[1..], ops))
  }

  lemma {:induction false} RecencyKept<T>(items: seq<Item<T>>, ops: seq<Op<T>>, op: Op<T>)
    requires ByRecency(items, ops) && forall k :: Has(items, k) ==> !Uses(op, k)
    ensures ByRecency(items, ops + [op])
    decreases |items|
  {
    if |items| > 0 {
      assert (ops + [op])[..|ops|] == ops;
      forall k | Has(items, k) ensures LastUse(ops + [op], k) == LastUse(ops, k) {
      }
      RecencyKept(items[1..], ops, op);
    }
  }

  lemma {:induction false} RecencyDrop<T>(items: seq<Item<T>>, ops: seq<Op<T>>, k: string)
    requires ByRecency(items, ops)
    ensures ByRecency(Drop(items, k), ops)
    decreases |items|
  {
    if |items| > 0 {
      RecencyDrop(items[1..], ops, k);
      if items[0].key != k {
        assert Drop(items, k)[1..] == Drop(items[1..], k);
        forall j | Has(Drop(items[1..], k), j) ensures LastUse(ops, j) < LastUse(ops, items[0].key) {
          HasDrop(items[1..], k, j);
        }
      }
    }
  }

  /** The last key of a list in recency order is its least recently used one. */
  lemma {:induction false} RecencyInit<T>(items: seq<Item<T>>, ops: seq<Op<T>>)
    requires ByRecency(items, ops) && |items| > 0
    ensures var n := |items| - 1;
            && ByRecency(items[..n], ops)
            && forall k :: Has(items[..n], k) ==> LastUse(ops, items[n].key) < LastUse(ops, k)
    decreases |items|
  {
    var n := |items| - 1;
    if n > 0 {
      var tail := items[1..];
      assert tail[..n - 1] == items[..n][1..];
      RecencyInit(tail, ops);
      forall k ensures Has(tail, k) <==> Has(tail[..n - 1], k) || items[n].key == k {
        SplitLast(tail, k);
      }
    }
  }

  /** Bringing a used key to the front. */
  lemma RecencyFront<T>(items: seq<Item<T>>, ops: seq<Op<T>>, op: Op<T>, x: Item<T>)
    requires ByRecency(items, ops) && Uses(op, x.key)
    ensures ByRecency([x] + Drop(items, x.key), ops + [op])
  {
    var rest := Drop(items, x.key);
    RecencyDrop(items, ops, x.key);
    assert (ops + [op])[..|ops|] == ops;
    RecencyKept(rest, ops, op);
    assert ([x] + rest)[1..] == rest;
    forall k | Has(rest, k) ensures LastUse(ops + [op], k) < LastUse(ops + [op], x.key) {
    }
  }

  lemma EvictRecency<T>(c: Cache<T>, ops: seq<Op<T>>)
    requires ByRecency(c.items, ops)
    ensures ByRecency(Evict(c).items, ops)
  {
    if |c.items| > 0 {
      RecencyInit(c.items, ops);
    }
  }

  lemma StepRecency<T>(c: Cache<T>, ops: seq<Op<T>>, op: Op<T>)
    requires ByRecency(c.items, ops)
    ensures ByRecency(Step(c, op).items, ops + [op])
  {
    hide Has, Lookup, Drop, ByRecency, LastUse, Evict;
    match op {
      case Get(k) =>
        if Has(c.items, k) {
          RecencyFront(c.items, ops, op, Lookup(c.items, k));
        } else {
          MissRecency(c.items, ops, op);
        }
      case Set(k, v, n) =>
        RecencyFront(c.items, ops, op, Item(k, v, n));
        EvictRecency(Stored(c, k, v, n), ops + [op]);
      case SetIfAbsent(k, v, n) =>
        if Has(c.items, k) {
          RecencyFront(c.items, ops, op, Lookup(c.items, k));
        } else {
          RecencyFront(c.items, ops, op, Item(k, v, n));
          EvictRecency(Stored(c, k, v, n), ops + [op]);
        }
      case Delete(k) =>
        RecencyDrop(c.items, ops, k);
        MissRecency(c.items, ops, op);
        MissRecency(Drop(c.items, k), ops, op);
      case Clear => EmptyRecency<T>(ops + [op]);
      case SetCapacity(n) =>
        MissRecency(c.items, ops, op);
        EvictRecency(c.(capacity := n), ops + [op]);
    }
  }

  lemma EmptyRecency<T>(ops: seq<Op<T>>)
    ensures ByRecency<T>([], ops)
  {
  }

  lemma MissRecency<T>(items: seq<Item<T>>, ops: seq<Op<T>>, op: Op<T>)
    requires ByRecency(items, ops) && !(op.Set? || op.SetIfAbsent?) && (op.Get? ==> !Has(items, op.key))
    ensures ByRecency(items, ops + [op])
  {
    hide ByRecency;
    RecencyKept(items, ops, op);
  }

  /** After any run the list is in the order of last use. */
  lemma {:induction false} AlwaysByRecency<T>(capacity: nat, ops: seq<Op<T>>)
    ensures ByRecency(Run(capacity, ops).items, ops)
    decreases |ops|
  {
    hide Step, ByRecency;
    if |ops| == 0 {
      EmptyRecency<T>(ops);
    } else {
      var before := ops[..|ops| - 1];
      AlwaysByRecency(capacity, before);
      StepRecency(Run(capacity, before), before, ops[|ops| - 1]);
      assert before + [ops[|ops| - 1]] == ops;
    }
  }

  /** Only the least recently used key is ever evicted: a key that leaves other than by its own deletion
      or a clear was used before every key that stays. */
  lemma OnlyOldestLeaves<T>(capacity: nat, ops: seq<Op<T>>, op: Op<T>, k: string)
    requires !op.Clear? && !(op.Delete? && op.key == k)
    requires Has(Run(capacity, ops).items, k) && !Has(Run(capacity, ops + [op]).items, k)
    ensures forall j :: Has(Run(capacity, ops + [op]).items, j) ==> LastUse(ops + [op], k) < LastUse(ops + [op], j)
  {
    hide Has, Lookup, Drop, ByRecency, LastUse, Run;
    var c := Run(capacity, ops);
    AlwaysByRecency(capacity, ops);
    RunSnoc(capacity, ops, op);
    HasDrop(c.items, if op.Clear? || op.SetCapacity? then k else op.key, k);
    match op {
      case Get(j) => TouchKeeps(c, j, k);
      case Set(j, v, n) => EvictOldest(c, ops, op, Item(j, v, n), k);
      case SetIfAbsent(j, v, n) =>
        TouchKeeps(c, j, k);
        EvictOldest(c, ops, op, Item(j, v, n), k);
      case Delete(j) =>
      case SetCapacity(n) =>
        MissRecency(c.items, ops, op);
        LastIsOldest(c.(capacity := n), ops + [op], k);
    }
  }

  lemma RunSnoc<T>(capacity: nat, ops: seq<Op<T>>, op: Op<T>)
    ensures Run(capacity, ops + [op]) == Step(Run(capacity, ops), op)
  {
    assert (ops + [op])[..|ops|] == ops;
  }

  lemma TouchKeeps<T>(c: Cache<T>, j: string, k: string)
    ensures Has(Touch(c, j).items, k) <==> Has(c.items, k)
    ensures Has(c.items, k) ==> Lookup(Touch(c, j).items, k) == Lookup(c.items, k)
  {
    HasDrop(c.items, j, k);
    if Has(c.items, j) {
      assert Touch(c, j).items[1..] == Drop(c.items, j);
    }
  }

  lemma LastIsOldest<T>(c: Cache<T>, ops: seq<Op<T>>, k: string)
    requires ByRecency(c.items, ops) && Has(c.items, k) && !Has(Evict(c).items, k)
    ensures forall j :: Has(Evict(c).items, j) ==> LastUse(ops, k) < LastUse(ops, j)
  {
    hide Has, ByRecency, LastUse;
    if |c.items| > 0 {
      SplitLast(c.items, k);
      RecencyInit(c.items, ops);
    }
  }

  lemma EvictOldest<T>(c: Cache<T>, ops: seq<Op<T>>, op: Op<T>, x: Item<T>, k: string)
    requires ByRecency(c.items, ops) && Uses(op, x.key) && Has(c.items, k)
    ensures var d := Stored(c, x.key, x.value, x.size);
            !Has(Evict(d).items, k) ==>
              forall j :: Has(Evict(d).items, j) ==> LastUse(ops + [op], k) < LastUse(ops + [op], j)
  {
    hide ByRecency, LastUse, Evict;
    var d := Stored(c, x.key, x.value, x.size);
    RecencyFront(c.items, ops, op, x);
    HasDrop(c.items, x.key, k);
    assert d.items[1..] == Drop(c.items, x.key);
    if !Has(Evict(d).items, k) {
      LastIsOldest(d, ops + [op], k);
    }
  }

  // The capacity in force

  /** The last capacity that was set. */
  function LastCapacity<T>(capacity: nat, ops: seq<Op<T>>): (n: nat)
    decreases |ops|
  {
    if |ops| == 0 then capacity
    else if ops[|ops| - 1].SetCapacity? then ops[|ops| - 1].capacity
    else LastCapacity(capacity, ops[..|ops| - 1])
  }

  lemma {:induction false} CapacityIsLast<T>(capacity: nat, ops: seq<Op<T>>)
    ensures Run(capacity, ops).capacity == LastCapacity(capacity, ops)
    decreases |ops|
  {
    hide Has, Lookup, Drop;
    if |ops| > 0 {
      CapacityIsLast(capacity, ops[..|ops| - 1]);
    }
  }

  // Which keys are there

  /** The keys an operation asks for, before any eviction. */
  predicate Asked<T>(c: Cache<T>, op: Op<T>, k: string)
  {
    match op
    case Get(_) => Has(c.items, k)
    case Set(j, _, _) => k == j || Has(c.items, k)
    case SetIfAbsent(j, _, _) => k == j || Has(c.items, k)
    case Delete(j) => k != j && Has(c.items, k)
    case Clear => false
    case SetCapacity(_) => Has(c.items, k)
  }

  lemma EvictKeys<T>(c: Cache<T>, k: string)
    requires Distinct(c.items)
    ensures Has(Evict(c).items, k) <==> Has(c.items, k) && !(Evicted(c).Some? && Evicted(c).value.key == k)
  {
    if |c.items| > 0 {
      SplitLast(c.items, k);
    }
  }

  /** What is evicted is the back of the list; and, where the total is no wrapped number, there is an eviction
      exactly when the total exceeds the capacity. */
  ghost predicate Overflows<T>(c: Cache<T>, gone: Option<Item<T>>)
  {
    && (0 <= Sum(c.items) < WORD ==> (gone.Some? <==> Sum(c.items) > c.capacity))
    && (gone.Some? ==> |c.items| > 0 && gone.value == c.items[|c.items| - 1])
  }

  lemma EvictExactly<T>(c: Cache<T>)
    requires Sound(c)
    ensures Overflows(c, Evicted(c))
  {
    hide Distinct;
  }

  /** After an operation exactly the keys asked for are there, less the one at the back of the list if, and
      only if, the total before the capacity is looked at exceeds it. */
  lemma StepKeys<T>(c: Cache<T>, op: Op<T>) returns (gone: Option<string>)
    requires Sound(c)
    ensures forall k :: Has(Step(c, op).items, k) <==> Asked(c, op, k) && gone != Some(k)
    ensures Unchecked(c, op).None? ==> gone.None?
    ensures Unchecked(c, op).Some? ==>
            var d := Unchecked(c, op).value;
            && (0 <= Sum(d.items) < WORD ==> (gone.Some? <==> Sum(d.items) > d.capacity))
            && (gone.Some? ==> |d.items| > 0 && gone == Some(d.items[|d.items| - 1].key))
  {
    hide Has, Lookup, Drop, Sum, Distinct, Evict, Evicted;
    gone := None;
    var d := c;
    var stores := op.Set? || (op.SetIfAbsent? && !Has(c.items, op.key));
    if stores {
      d := Stored(c, op.key, op.value, op.size);
      StoredSound(c, op.key, op.value, op.size);
    } else if op.SetCapacity? {
      d := c.(capacity := op.capacity);
    }
    if stores || op.SetCapacity? {
      gone := if Evicted(d).Some? then Some(Evicted(d).value.key) else None;
    }
    forall k ensures Has(Step(c, op).items, k) <==> Asked(c, op, k) && gone != Some(k) {
      EvictKeys(d, k);
      KeysOf(c, op, k);
    }
    EvictExactly(d);
  }

  lemma KeysOf<T>(c: Cache<T>, op: Op<T>, k: string)
    ensures op.Set? || op.SetIfAbsent? ==>
              (Has(Stored(c, op.key, op.value, op.size).items, k) <==> k == op.key || Has(c.items, k))
    ensures op.Get? || op.SetIfAbsent? ==> (Has(Touch(c, op.key).items, k) <==> Has(c.items, k))
    ensures op.Delete? ==> (Has(Drop(c.items, op.key), k) <==> k != op.key && Has(c.items, k))
    ensures !Has<T>([], k)
  {
    if !op.Clear? && !op.SetCapacity? {
      HasDrop(c.items, op.key, k);
      TouchKeeps(c, op.key, k);
      if op.Set? || op.SetIfAbsent? {
        assert Stored(c, op.key, op.value, op.size).items[1..] == Drop(c.items, op.key);
      }
    }
  }

  // What a hit returns

  /** The value of the last write to `k`: a set, or a set-if-absent made while `k` was absent. */
  function LastWritten<T>(capacity: nat, ops: seq<Op<T>>, k: string): (v: Option<T>)
    decreases |ops|
  {
    if |ops| == 0 then None
    else
      var before, op := ops[..|ops| - 1], ops[|ops| - 1];
      if op.Set? && op.key == k then Some(op.value)
      else if op.SetIfAbsent? && op.key == k && !Has(Run(capacity, before).items, k) then Some(op.value)
      else LastWritten(capacity, before, k)
  }

  lemma EvictKeeps<T>(c: Cache<T>, k: string)
    requires Has(Evict(c).items, k)
    ensures Has(c.items, k) && Lookup(Evict(c).items, k) == Lookup(c.items, k)
  {
    if |c.items| > 0 {
      SplitLast(c.items, k);
    }
  }

  lemma StoredKeeps<T>(c: Cache<T>, j: string, v: T, n: int, k: string)
    requires Has(Evict(Stored(c, j, v, n)).items, k)
    ensures var x := Lookup(Evict(Stored(c, j, v, n)).items, k);
            if j == k then x.value == v else Has(c.items, k) && x == Lookup(c.items, k)
  {
    hide Evict;
    var d := Stored(c, j, v, n);
    EvictKeeps(d, k);
    HasDrop(c.items, j, k);
    assert d.items[1..] == Drop(c.items, j);
  }

  /** After any run, a key that is present holds the value last written to it. */
  lemma {:induction false} HitIsLastWritten<T>(capacity: nat, ops: seq<Op<T>>, k: string)
    requires Has(Run(capacity, ops).items, k)
    ensures LastWritten(capacity, ops, k) == Some(Lookup(Run(capacity, ops).items, k).value)
    decreases |ops|
  {
    hide Lookup, Drop, Evict, Stored, Touch;
    if |ops| > 0 {
      var before, op := ops[..|ops| - 1], ops[|ops| - 1];
      var c := Run(capacity, before);
      match op {
        case Get(j) => TouchKeeps(c, j, k);
        case Set(j, v, n) => StoredKeeps(c, j, v, n, k);
        case SetIfAbsent(j, v, n) =>
          TouchKeeps(c, j, k);
          if !Has(c.items, j) {
            StoredKeeps(c, j, v, n, k);
          }
        case Delete(j) => HasDrop(c.items, j, k);
        case Clear =>
        case SetCapacity(n) => EvictKeeps(c.(capacity := n), k);
      }
      if Has(c.items, k) {
        HitIsLastWritten(capacity, before, k);
      }
    }
  }

  // Capacity

  predicate AllSize<T>(items: seq<Item<T>>, n: int)
    decreases |items|
  {
    |items| == 0 || (items[0].size == n && AllSize(items[1..], n))
  }

  lemma {:induction false} AllSizeDrop<T>(items: seq<Item<T>>, n: nat, k: string)
    requires AllSize(items, n)
    ensures AllSize(Drop(items, k), n) && 0 <= Sum(Drop(items, k)) <= Sum(items)
    decreases |items|
  {
    if |items| > 0 {
      AllSizeDrop(items[1..], n, k);
      if items[0].key != k {
        assert Drop(items, k)[1..] == Drop(items[1..], k);
      }
    }
  }

  lemma {:induction false} AllSizeInit<T>(items: seq<Item<T>>, n: nat)
    requires AllSize(items, n) && |items| > 0
    ensures AllSize(items[..|items| - 1], n) && items[|items| - 1].size == n && Sum(items[..|items| - 1]) >= 0
    decreases |items|
  {
    if |items| > 1 {
      var tail := items[1..];
      assert tail[..|tail| - 1] == items[..|items| - 1][1..];
      AllSizeInit(tail, n);
    }
  }

  ghost predicate Uniform<T>(c: Cache<T>, n: nat)
  {
    Sound(c) && AllSize(c.items, n) && 0 <= Sum(c.items) <= c.capacity && c.capacity + n < WORD
  }

  lemma StoreUniform<T>(c: Cache<T>, k: string, v: T, n: nat)
    requires Uniform(c, n)
    ensures Uniform(Evict(Stored(c, k, v, n)), n)
  {
    hide Has, Lookup, Distinct, Drop;
    var d := Stored(c, k, v, n);
    StoredSound(c, k, v, n);
    AllSizeDrop(c.items, n, k);
    assert d.items[1..] == Drop(c.items, k);
    assert AllSize(d.items, n) && Sum(d.items) == n + Sum(Drop(c.items, k));
    EvictUniform(d, n);
  }

  lemma EvictUniform<T>(d: Cache<T>, n: nat)
    requires Sound(d) && AllSize(d.items, n) && d.capacity + n < WORD && 0 <= Sum(d.items) <= d.capacity + n
    ensures Uniform(Evict(d), n)
  {
    hide Has, Lookup, Distinct, Drop, AllSize;
    EvictSound(d);
    if |d.items| > 0 {
      SplitLast(d.items, d.items[|d.items| - 1].key);
      AllSizeInit(d.items, n);
    }
  }

  lemma StepUniform<T>(c: Cache<T>, op: Op<T>, n: nat)
    requires Uniform(c, n) && !op.SetCapacity? && (op.Set? || op.SetIfAbsent? ==> op.size == n)
    ensures Uniform(Step(c, op), n) && Step(c, op).capacity == c.capacity
  {
    hide Has, Lookup, Distinct;
    StepSound(c, op);
    match op
    case Get(k) => TouchUniform(c, k, n);
    case Set(k, v, m) => StoreUniform(c, k, v, n);
    case SetIfAbsent(k, v, m) =>
      TouchUniform(c, k, n);
      StoreUniform(c, k, v, n);
    case Delete(k) => AllSizeDrop(c.items, n, k);
    case Clear =>
  }

  lemma TouchUniform<T>(c: Cache<T>, k: string, n: nat)
    requires Uniform(c, n)
    ensures Uniform(Touch(c, k), n)
  {
    TouchSound(c, k);
    AllSizeDrop(c.items, n, k);
    DropDistinct(c.items, k);
    if Has(c.items, k) {
      LookupSize(c.items, k, n);
      assert Touch(c, k).items[1..] == Drop(c.items, k);
    }
  }

  lemma {:induction false} LookupSize<T>(items: seq<Item<T>>, k: string, n: int)
    requires AllSize(items, n) && Has(items, k)
    ensures Lookup(items, k).size == n
    decreases |items|
  {
    if items[0].key != k {
      LookupSize(items[1..], k, n);
    }
  }

  /** When all values have one size and the capacity is not changed, the true total never exceeds the
      capacity after an operation. */
  lemma {:induction false} EqualSizesFit<T>(capacity: nat, ops: seq<Op<T>>, n: nat)
    requires capacity + n < WORD
    requires forall i :: 0 <= i < |ops| ==>
               !ops[i].SetCapacity? && (ops[i].Set? || ops[i].SetIfAbsent? ==> ops[i].size == n)
    ensures Sum(Run(capacity, ops).items) <= capacity
    ensures Uniform(Run(capacity, ops), n) && Run(capacity, ops).capacity == capacity
    decreases |ops|
  {
    hide Step, Sound;
    if |ops| == 0 {
      EmptySound<T>(capacity);
    } else {
      EqualSizesFit(capacity, ops[..|ops| - 1], n);
      StepUniform(Run(capacity, ops[..|ops| - 1]), ops[|ops| - 1], n);
    }
  }

  /** The cache an operation makes before it looks at the capacity; none if it does not look. */
  function Unchecked<T>(c: Cache<T>, op: Op<T>): (d: Option<Cache<T>>)
  {
    match op
    case Set(k, v, n) => Some(Stored(c, k, v, n))
    case SetIfAbsent(k, v, n) => if Has(c.items, k) then None else Some(Stored(c, k, v, n))
    case SetCapacity(n) => Some(c.(capacity := n))
    case _ => None
  }

  /** The size of the entry that would be evicted. */
  function Oldest<T>(items: seq<Item<T>>): (n: int)
  {
    if |items| == 0 then 0 else items[|items| - 1].size
  }

  lemma EvictFits<T>(d: Cache<T>)
    requires Sound(d) && 0 <= Sum(d.items) < WORD && Oldest(d.items) >= 0
    ensures Sum(Evict(d).items) <= d.capacity <==> Sum(d.items) <= d.capacity + Oldest(d.items)
  {
    hide Has, Lookup, Distinct, Drop;
    if |d.items| > 0 {
      SplitLast(d.items, "");
    }
  }

  /** Every operation that looks at the capacity (a set of a new or a present key, a set-if-absent of a new
      key, a change of capacity) ends within it exactly when the total before the eviction exceeds it by no
      more than the one entry that can be evicted. */
  lemma FitsExactly<T>(c: Cache<T>, op: Op<T>)
    requires Sound(c) && Unchecked(c, op).Some?
    requires var d := Unchecked(c, op).value; 0 <= Sum(d.items) < WORD && Oldest(d.items) >= 0
    ensures var d := Unchecked(c, op).value;
            && Step(c, op).capacity == d.capacity
            && (Sum(Step(c, op).items) <= d.capacity <==> Sum(d.items) <= d.capacity + Oldest(d.items))
  {
    hide Has, Lookup, Distinct, Drop, Sum;
    if op.Set? || op.SetIfAbsent? {
      StoredSound(c, op.key, op.value, op.size);
    }
    EvictFits(Unchecked(c, op).value);
  }

  /** The total a store makes before the capacity is looked at. */
  lemma StoredSum<T>(c: Cache<T>, k: string, v: T, n: int)
    requires Sound(c)
    ensures Sum(Stored(c, k, v, n).items) ==
            Sum(c.items) + n - (if Has(c.items, k) then Lookup(c.items, k).size else 0)
  {
    DropDistinct(c.items, k);
    assert Stored(c, k, v, n).items[1..] == Drop(c.items, k);
  }

  /** For a set of a new key: the new value is no larger than the free room together with the oldest entry. */
  lemma SetFitsExactly<T>(c: Cache<T>, k: string, v: T, n: nat)
    requires Sound(c) && !Has(c.items, k) && 0 <= Sum(c.items) && Sum(c.items) + n < WORD
    requires |c.items| > 0 && Oldest(c.items) >= 0
    ensures Sum(Step(c, Set(k, v, n)).items) <= c.capacity <==> n <= c.capacity - Sum(c.items) + Oldest(c.items)
  {
    hide Has, Lookup, Distinct, Drop, Sum;
    DropDistinct(c.items, k);
    StoredSum(c, k, v, n);
    assert Oldest(Stored(c, k, v, n).items) == Oldest(c.items);
    FitsExactly(c, Set(k, v, n));
  }

  /** One eviction is not always enough: three sets in a cache of capacity 3 leave a total of 4. */
  lemma OverCapacity()
    ensures Sum(Run(3, [Set("a", 0, 1), Set("b", 0, 1), Set("c", 0, 3)]).items) == 4
  {
    var ops := [Set("a", 0, 1), Set("b", 0, 1), Set("c", 0, 3)];
    assert ops[..2] == [Set("a", 0, 1), Set("b", 0, 1)];
    assert ops[..2][..1] == [Set("a", 0, 1)];
    assert ops[..2][..1][..0] == [];
    assert Run(3, ops[..2][..1]) == Cache([Item("a", 0, 1)], 1, 3);
    var c := Run(3, ops[..2]);
    assert "a" != "b" && "b" != "c" && "a" != "c";
    assert c == Cache([Item("b", 0, 1), Item("a", 0, 1)], 2, 3);
    assert Drop(c.items, "c") == c.items;
    var d := Stored(c, "c", 0, 3);
    assert d.items == [Item("c", 0, 3), Item("b", 0, 1), Item("a", 0, 1)];
    assert Evict(d).items == [Item("c", 0, 3), Item("b", 0, 1)];
  }
}
