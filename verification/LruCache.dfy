/** The LRU cache as an object: entries shared between the recency list and the table. */
module LruCache {
  import opened Basics
  import opened LruModel

  class Entry<T> {
    const key: string
    var value: T
    var size: int

    constructor (key: string, value: T, size: int)
      ensures this.key == key && this.value == value && this.size == size
    {
      this.key, this.value, this.size := key, value, size;
    }
  }

  function ItemsOf<T>(list: seq<Entry<T>>): (items: seq<Item<T>>)
    reads list
    ensures |items| == |list|
    decreases |list|
  {
    if |list| == 0 then [] else [Item(list[0].key, list[0].value, list[0].size)] + ItemsOf(list[1..])
  }

  /** Unlinks `e` from the list. */
  function Without<T>(list: seq<Entry<T>>, e: Entry<T>): (rest: seq<Entry<T>>)
    ensures forall x :: x in rest ==> x in list
    decreases |list|
  {
    if |list| == 0 then [] else if list[0] == e then list[1..] else [list[0]] + Without(list[1..], e)
  }

  /** Entries have distinct keys. */
  ghost predicate Keyed<T>(list: seq<Entry<T>>)
  {
    forall i, j :: 0 <= i < j < |list| ==> list[i].key != list[j].key
  }

  lemma {:induction false} KeyedItems<T>(list: seq<Entry<T>>, e: Entry<T>)
    requires Keyed(list) && e in list
    ensures Has(ItemsOf(list), e.key)
    ensures Lookup(ItemsOf(list), e.key) == Item(e.key, e.value, e.size)
    ensures ItemsOf(Without(list, e)) == Drop(ItemsOf(list), e.key)
    ensures Keyed(Without(list, e)) && forall x :: x in Without(list, e) <==> x in list && x != e
    decreases |list|
  {
    assert ItemsOf(list)[1..] == ItemsOf(list[1..]);
    if list[0] == e {
      NotThere(list[1..], e.key);
    } else {
      assert list[0].key != e.key;
      KeyedItems(list[1..], e);
      assert ItemsOf(Without(list, e))[1..] == ItemsOf(Without(list, e)[1..]);
      forall x | x in Without(list[1..], e) ensures x.key != list[0].key {
      }
    }
  }

  lemma {:induction false} NotThere<T>(list: seq<Entry<T>>, k: string)
    requires forall i :: 0 <= i < |list| ==> list[i].key != k
    ensures !Has(ItemsOf(list), k) && Drop(ItemsOf(list), k) == ItemsOf(list)
    decreases |list|
  {
    if |list| > 0 {
      NotThere(list[1..], k);
      assert ItemsOf(list)[1..] == ItemsOf(list[1..]);
    }
  }

  lemma {:induction false} ItemsInit<T>(list: seq<Entry<T>>)
    requires |list| > 0
    ensures var n := |list| - 1;
            && ItemsOf(list)[..n] == ItemsOf(list[..n])
            && ItemsOf(list)[n] == Item(list[n].key, list[n].value, list[n].size)
    decreases |list|
  {
    var n := |list| - 1;
    if n > 0 {
      ItemsInit(list[1..]);
      assert list[1..][..n - 1] == list[..n][1..];
      assert ItemsOf(list)[1..] == ItemsOf(list[1..]);
    }
  }

  class LRUCache<T> {
    var list: seq<Entry<T>>
    var table: map<string, Entry<T>>
    var size: nat
    var capacity: nat

    /** The table and the list hold the same entries under their own, distinct, keys. */
    ghost predicate Linked()
      reads this, list
    {
      && Keyed(list)
      && (forall e :: e in list ==> e.key in table && table[e.key] == e)
      && (forall k :: k in table ==> table[k] in list && table[k].key == k)
    }

    ghost predicate Valid()
      reads this, list
    {
      Linked() && Sound(Model())
    }

    ghost function Model(): (c: Cache<T>)
      reads this, list
    {
      Cache(ItemsOf(list), size, capacity)
    }

    constructor (capacity: nat)
      ensures Valid() && Model() == Run(capacity, []) && list == []
    {
      list, table, size, this.capacity := [], map[], 0, capacity;
    }

    /** The table answers membership for the list. */
    lemma TableIsList(k: string)
      requires Linked()
      ensures k in table <==> Has(ItemsOf(list), k)
      ensures k in table ==> Lookup(ItemsOf(list), k) == Item(k, table[k].value, table[k].size)
      ensures k !in table ==> Drop(ItemsOf(list), k) == ItemsOf(list)
    {
      if k in table {
        KeyedItems(list, table[k]);
      } else {
        forall i | 0 <= i < |list| ensures list[i].key != k {
          assert list[i] in list;
        }
        NotThere(list, k);
      }
    }

    method MoveToFront(e: Entry<T>)
      requires Linked() && e in list
      modifies `list
      ensures Linked() && ItemsOf(list) == [Item(e.key, e.value, e.size)] + Drop(old(ItemsOf(list)), e.key)
      ensures forall x :: x in list <==> x in old(list)
    {
      KeyedItems(list, e);
      ghost var rest := Without(list, e);
      list := [e] + Without(list, e);
      assert list[1..] == rest;
      forall x | x in rest ensures x.key != e.key {
      }
    }

    /** Evicts the back of the list when over capacity: once, not until the size fits. */
    method CheckCapacity() returns (gone: Option<Item<T>>)
      requires Valid()
      modifies this
      ensures Valid() && Model() == Evict(old(Model())) && gone == Evicted(old(Model()))
      ensures Overflows(old(Model()), gone)
      ensures forall x :: x in list ==> x in old(list)
    {
      hide Sum, Distinct, Overflows;
      EvictExactly(Model());
      gone := None;
      EvictSound(Model());
      if size > capacity {
        var n := |list| - 1;
        ItemsInit(list);
        var e := list[n];
        gone := Some(Item(e.key, e.value, e.size));
        list := list[..n];
        table := table - {e.key};
        size := (size - e.size) % WORD;
      }
    }

    method Get(key: string) returns (v: Option<T>)
      requires Valid()
      modifies this
      ensures Valid() && Model() == Step(old(Model()), Op.Get(key))
      ensures v == if Has(old(Model()).items, key) then Some(Lookup(old(Model()).items, key).value) else None
      ensures forall x :: x in list <==> x in old(list)
      ensures v.None? ==> list == old(list)
    {
      hide Sum, Distinct, Drop;
      StepSound(Model(), Op<T>.Get(key));
      TableIsList(key);
      if key !in table {
        return None;
      }
      var element := table[key];
      MoveToFront(element);
      v := Some(element.value);
    }

    method Overwrite(element: Entry<T>, value: T, valueSize: int)
      requires Linked() && element in list
      modifies element
      ensures Linked() && element.value == value && element.size == valueSize
      ensures Drop(ItemsOf(list), element.key) == old(Drop(ItemsOf(list), element.key))
    {
      KeyedItems(list, element);
      ghost var rest := Without(list, element);
      ghost var others := ItemsOf(rest);
      element.value := value;
      element.size := valueSize;
      assert ItemsOf(rest) == others;
      KeyedItems(list, element);
    }

    method UpdateInplace(element: Entry<T>, value: T, valueSize: int) returns (gone: Option<Item<T>>)
      requires Valid() && element in list
      modifies this, element
      ensures Valid() && Model() == Evict(Stored(old(Model()), element.key, value, valueSize))
      ensures gone == Evicted(Stored(old(Model()), element.key, value, valueSize))
      ensures forall x :: x in list ==> x in old(list)
    {
      hide Sum, Distinct, Evict, Evicted, Has, Lookup, Drop, ItemsOf, Keyed;
      StoredSound(Model(), element.key, value, valueSize);
      KeyedItems(list, element);
      var sizeDiff := valueSize - element.size;
      Overwrite(element, value, valueSize);
      size := (size + sizeDiff) % WORD;
      MoveToFront(element);
      gone := CheckCapacity();
    }

    method AddNew(key: string, value: T, valueSize: int) returns (gone: Option<Item<T>>)
      requires Valid() && key !in table
      modifies this
      ensures Valid() && Model() == Evict(Stored(old(Model()), key, value, valueSize))
      ensures gone == Evicted(Stored(old(Model()), key, value, valueSize))
      ensures forall x :: x in list ==> x in old(list) || fresh(x)
    {
      hide Sum, Distinct, Evict, Evicted, Overflows, Stored;
      Link(key, value, valueSize);
      gone := CheckCapacity();
    }

    /** A new entry at the front, before the capacity is looked at. */
    method Link(key: string, value: T, valueSize: int)
      requires Valid() && key !in table
      modifies this
      ensures Valid() && Model() == Stored(old(Model()), key, value, valueSize)
      ensures forall x :: x in list ==> x in old(list) || fresh(x)
    {
      hide Sum, Distinct;
      StoredSound(Model(), key, value, valueSize);
      TableIsList(key);
      var element := new Entry(key, value, valueSize);
      ghost var was := list;
      list := [element] + list;
      assert list[1..] == was;
      table := table[key := element];
      size := (size + valueSize) % WORD;
    }

    method Set(key: string, value: T, valueSize: int) returns (gone: Option<Item<T>>)
      requires Valid()
      modifies this, list
      ensures Valid() && Model() == Step(old(Model()), Op.Set(key, value, valueSize))
      ensures gone == Evicted(Stored(old(Model()), key, value, valueSize))
      ensures Overflows(Stored(old(Model()), key, value, valueSize), gone)
      ensures forall x :: x in list ==> x in old(list) || fresh(x)
    {
      hide Sum, Distinct, Evict, Evicted, Stored, Overflows;
      StoredSound(Model(), key, value, valueSize);
      EvictExactly(Stored(Model(), key, value, valueSize));
      if key in table {
        gone := UpdateInplace(table[key], value, valueSize);
      } else {
        gone := AddNew(key, value, valueSize);
      }
    }

    method SetIfAbsent(key: string, value: T, valueSize: int)
      requires Valid()
      modifies this
      ensures Valid() && Model() == Step(old(Model()), Op.SetIfAbsent(key, value, valueSize))
      ensures forall x :: x in list ==> x in old(list) || fresh(x)
    {
      hide Sum, Distinct, Evict, Stored;
      TableIsList(key);
      StepSound(Model(), Op<T>.Get(key));
      if key in table {
        MoveToFront(table[key]);
      } else {
        var gone := AddNew(key, value, valueSize);
      }
    }

    method Unlink(element: Entry<T>)
      requires Linked() && element in list
      modifies `list, `table
      ensures Linked() && ItemsOf(list) == Drop(old(ItemsOf(list)), element.key)
      ensures forall x :: x in list ==> x in old(list)
    {
      hide ItemsOf;
      KeyedItems(list, element);
      list := Without(list, element);
      table := table - {element.key};
    }

    method Delete(key: string) returns (gone: Option<T>)
      requires Valid()
      modifies this
      ensures Valid() && Model() == Step(old(Model()), Op.Delete(key))
      ensures gone == if Has(old(Model()).items, key) then Some(Lookup(old(Model()).items, key).value) else None
      ensures forall x :: x in list ==> x in old(list)
    {
      hide Sum, Distinct, Drop, ItemsOf, Keyed;
      StepSound(Model(), Op<T>.Delete(key));
      TableIsList(key);
      if key !in table {
        return None;
      }
      var element := table[key];
      Unlink(element);
      size := (size - element.size) % WORD;
      gone := Some(element.value);
    }

    method Clear()
      requires Valid()
      modifies this
      ensures Valid() && Model() == Step(old(Model()), Op<T>.Clear) && list == []
    {
      list, table, size := [], map[], 0;
    }

    method SetCapacity(capacity: nat)
      requires Valid()
      modifies this
      ensures Valid() && Model() == Step(old(Model()), Op<T>.SetCapacity(capacity))
      ensures forall x :: x in list ==> x in old(list)
    {
      hide Sum, Distinct, Evict;
      this.capacity := capacity;
      var gone := CheckCapacity();
    }
  }
}
