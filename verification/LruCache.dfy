/** The `LruCache` the collectors are built on: a map together with its keys in
    order of last use, least recently used first. */
module LruCache {
  import opened Prelude

  const CACHE_NUMBER := 16

  ghost predicate Distinct(order: seq<u64>) {
    forall i, j :: 0 <= i < j < |order| ==> order[i] != order[j]
  }

  datatype Lru<V> = Lru(order: seq<u64>, items: map<u64, V>) {

    ghost predicate Valid() {
      && |order| <= CACHE_NUMBER
      && Distinct(order)
      && (forall k :: k in order <==> k in items)
    }

    /** `get_mut`: a hit becomes the most recently used entry. */
    function Touch(k: u64): Lru<V> {
      if k in items then Lru(Without(order, k) + [k], items) else this
    }

    /** `get_mut` of a present key, followed by a write through the reference. */
    function Update(k: u64, v: V): Lru<V>
      requires k in items
    {
      Lru(Without(order, k) + [k], items[k := v])
    }

    /** `insert` of an absent key: beyond capacity the least recently used goes. */
    function Insert(k: u64, v: V): Lru<V>
      requires k !in items
    {
      if |order| < CACHE_NUMBER then Lru(order + [k], items[k := v])
      else Lru(order[1..] + [k], (items - {order[0]})[k := v])
    }

    /** A write under `k`, through `get_mut` or by `insert`. */
    function Put(k: u64, v: V): Lru<V> {
      if k in items then Update(k, v) else Insert(k, v)
    }

    /** Keys used more recently than `k`. */
    ghost function Newer(k: u64): set<u64> { After(order, k) }
  }

  function EmptyLru<V>(): (l: Lru<V>)
    ensures l.Valid()
  {
    Lru([], map[])
  }

  function Without(order: seq<u64>, k: u64): seq<u64> {
    if order == [] then []
    else if order[0] == k then order[1..]
    else [order[0]] + Without(order[1..], k)
  }

  ghost function Elements(order: seq<u64>): set<u64> { set x | x in order }

  ghost function After(order: seq<u64>, k: u64): set<u64> {
    if order == [] then {}
    else if order[0] == k then Elements(order[1..])
    else After(order[1..], k)
  }

  lemma {:induction false} WithoutKeeps(order: seq<u64>, k: u64)
    requires Distinct(order)
    ensures var w := Without(order, k);
            Distinct(w) && |w| <= |order| && (k in order ==> |w| < |order|)
            && forall x :: x in w <==> x in order && x != k
  {
    if order != [] {
      assert order == [order[0]] + order[1..];
      WithoutKeeps(order[1..], k);
      var w := Without(order, k);
      if order[0] != k {
        assert forall i :: 0 < i < |w| ==> w[i] == Without(order[1..], k)[i - 1] && w[i] in Without(order[1..], k);
      }
    }
  }

  lemma {:induction false} AfterWithout(order: seq<u64>, k: u64, x: u64)
    requires Distinct(order) && x != k
    ensures After(Without(order, k), x) == After(order, x) - {k}
  {
    if order != [] {
      WithoutKeeps(order[1..], k);
      AfterWithout(order[1..], k, x);
      NewerKnown(order[1..], x);
      if order[0] != k { assert Without(order, k)[1..] == Without(order[1..], k); }
    }
  }

  lemma {:induction false} AfterAbsent(order: seq<u64>, x: u64)
    requires x !in order
    ensures After(order, x) == {}
  {
    if order != [] { AfterAbsent(order[1..], x); }
  }

  lemma {:induction false} AfterAppend(order: seq<u64>, k: u64, x: u64)
    requires k !in order
    ensures x in order ==> After(order + [k], x) == After(order, x) + {k}
    ensures x !in order ==> After(order + [k], x) == {}
  {
    if order == [] {
      assert (order + [k])[1..] == [];
    } else {
      assert (order + [k])[1..] == order[1..] + [k];
      AfterAppend(order[1..], k, x);
    }
  }

  lemma {:induction false} DistinctCount(order: seq<u64>)
    requires Distinct(order)
    ensures |Elements(order)| == |order|
  {
    if order != [] {
      DistinctCount(order[1..]);
      assert order[0] !in Elements(order[1..]);
      assert Elements(order) == Elements(order[1..]) + {order[0]};
    }
  }

  lemma MoveToFront<V>(l: Lru<V>, k: u64, v: V)
    requires l.Valid() && k in l.items
    ensures l.Touch(k).Valid() && l.Update(k, v).Valid() && l.Touch(k).order == l.Update(k, v).order
    ensures l.Touch(k).Newer(k) == {}
    ensures forall x :: x in l.items && x != k ==> l.Touch(k).Newer(x) == l.Newer(x) + {k}
  {
    WithoutKeeps(l.order, k);
    AfterAppend(Without(l.order, k), k, k);
    forall x | x in l.items && x != k ensures l.Touch(k).Newer(x) == l.Newer(x) + {k} {
      AfterWithout(l.order, k, x);
      AfterAppend(Without(l.order, k), k, x);
    }
  }

  /** Only the least recently used key has all the others newer than it. */
  lemma {:induction false} NewerCount(order: seq<u64>, x: u64)
    requires Distinct(order) && x in order
    ensures |After(order, x)| <= |order| - 1
    ensures |After(order, x)| == |order| - 1 <==> x == order[0]
  {
    if x == order[0] { DistinctCount(order[1..]); } else { NewerCount(order[1..], x); }
  }

  lemma InsertValid<V>(l: Lru<V>, k: u64, v: V)
    requires l.Valid() && k !in l.items
    ensures l.Insert(k, v).Valid()
    ensures forall x :: x in l.Insert(k, v).items <==>
              x == k || (x in l.items && (|l.order| < CACHE_NUMBER || x != l.order[0]))
  {
    var kept := if |l.order| < CACHE_NUMBER then l.order else l.order[1..];
    assert |l.order| == CACHE_NUMBER ==> l.order == [l.order[0]] + kept;
    assert forall x :: x in kept <==> x in l.items && (|l.order| < CACHE_NUMBER || x != l.order[0]);
  }

  lemma InsertAtFront<V>(l: Lru<V>, k: u64, v: V)
    requires l.Valid() && k !in l.items
    ensures l.Insert(k, v).Valid() && l.Insert(k, v).Newer(k) == {}
    ensures forall x :: x in l.items && |l.Newer(x) + {k}| < 16 ==>
              x in l.Insert(k, v).items && l.Insert(k, v).Newer(x) == l.Newer(x) + {k}
  {
    InsertValid(l, k, v);
    var kept := if |l.order| < CACHE_NUMBER then l.order else l.order[1..];
    AfterAppend(kept, k, k);
    forall x | x in l.items && |l.Newer(x) + {k}| < 16
      ensures x in l.Insert(k, v).items && l.Insert(k, v).Newer(x) == l.Newer(x) + {k}
    {
      NewerKnown(l.order, x);
      if |l.order| == CACHE_NUMBER && x == l.order[0] { NewerCount(l.order, x); }
      AfterAppend(kept, k, x);
    }
  }

  lemma {:induction false} NewerKnown(order: seq<u64>, x: u64)
    ensures forall y :: y in After(order, x) ==> y in order
  {
    if order != [] { NewerKnown(order[1..], x); }
  }

  /** Everything the collectors rely on about a write. */
  lemma PutKeeps<V>(l: Lru<V>, k: u64, v: V)
    requires l.Valid()
    ensures var after := l.Put(k, v);
            && after.Valid()
            && k in after.items && after.items[k] == v && after.Newer(k) == {}
            && (forall x :: x in after.items && x != k ==> x in l.items && after.items[x] == l.items[x])
            && (forall x :: x in l.items && x != k && (k in l.items || |l.Newer(x) + {k}| < 16) ==>
                  x in after.items && after.Newer(x) == l.Newer(x) + {k})
  {
    hide Without, After;
    if k in l.items {
      MoveToFront(l, k, v);
    } else {
      InsertValid(l, k, v);
      InsertAtFront(l, k, v);
    }
  }

  /** An insert loses a key exactly when all fifteen others are newer than it. */
  lemma PutEvicts<V>(l: Lru<V>, k: u64, v: V, x: u64)
    requires l.Valid() && k !in l.items && x in l.items
    ensures x in l.Put(k, v).items <==> |l.Newer(x)| < 15
  {
    hide Without, After;
    NewerCount(l.order, x);
    InsertValid(l, k, v);
  }

  /** What a write does to another key. */
  lemma PutDrops<V>(l: Lru<V>, k: u64, v: V, x: u64)
    requires l.Valid()
    ensures var after := l.Put(k, v);
            && after.Newer(k) == {}
            && (x != k ==>
                  && (x in after.items <==> x in l.items && (k in l.items || |l.Newer(x)| < 15))
                  && (x in after.items ==> after.items[x] == l.items[x] && after.Newer(x) == l.Newer(x) + {k}))
  {
    hide Without, After, Lru.Put;
    PutKeeps(l, k, v);
    if x in l.items && x != k && k !in l.items {
      PutEvicts(l, k, v, x);
      NewerKnown(l.order, x);
      assert k !in l.Newer(x);
    }
  }

  /** Everything they rely on about a read. */
  lemma TouchKeeps<V>(l: Lru<V>, k: u64)
    requires l.Valid()
    ensures var after := l.Touch(k);
            && after.Valid() && after.items == l.items
            && (k in l.items ==> after.Newer(k) == {})
            && (k !in l.items ==> after == l)
            && (forall x :: x in l.items && x != k && k in l.items ==> after.Newer(x) == l.Newer(x) + {k})
  {
    hide Without, After;
    if k in l.items { MoveToFront(l, k, l.items[k]); }
  }
}
