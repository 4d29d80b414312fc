/** The lexicographic order of byte strings and the sorted enumeration of a set
    of them: the order that `sort` gives the entries of a proof's vote map. */
module ByteOrder {
  import opened Prelude

  predicate Le(a: Bytes, b: Bytes) {
    if a == [] then true
    else if b == [] then false
    else a[0] < b[0] || (a[0] == b[0] && Le(a[1..], b[1..]))
  }

  predicate Lt(a: Bytes, b: Bytes) { a != b && Le(a, b) }

  lemma {:induction false} LeTotal(a: Bytes, b: Bytes)
    ensures Le(a, b) || Le(b, a)
    ensures Le(a, b) && Le(b, a) ==> a == b
  {
    if a != [] && b != [] {
      LeTotal(a[1..], b[1..]);
      assert a == [a[0]] + a[1..] && b == [b[0]] + b[1..];
    }
  }

  /** Lexicographic: a proper prefix comes first, else the first difference decides. */
  lemma {:induction false} LtIff(a: Bytes, b: Bytes)
    ensures Lt(a, b) <==> a < b || exists i :: FirstDifference(a, b, i) && a[i] < b[i]
  {
    if a == [] || b == [] {
    } else if a[0] != b[0] {
      assert a[..0] == b[..0];
      assert FirstDifference(a, b, 0);
    } else {
      LtIff(a[1..], b[1..]);
      assert a == [a[0]] + a[1..] && b == [b[0]] + b[1..];
      if i :| FirstDifference(a[1..], b[1..], i) && a[1..][i] < b[1..][i] {
        assert a[..i + 1] == [a[0]] + a[1..][..i] && b[..i + 1] == [b[0]] + b[1..][..i];
        assert FirstDifference(a, b, i + 1);
      }
      if i :| FirstDifference(a, b, i) && a[i] < b[i] {
        assert a[1..][..i - 1] == a[..i][1..] && b[1..][..i - 1] == b[..i][1..];
        assert FirstDifference(a[1..], b[1..], i - 1);
      }
    }
  }

  predicate FirstDifference(a: Bytes, b: Bytes, i: int) {
    0 <= i < |a| && i < |b| && a[..i] == b[..i] && a[i] != b[i]
  }

  lemma {:induction false} LeTransitive(a: Bytes, b: Bytes, c: Bytes)
    requires Le(a, b) && Le(b, c)
    ensures Le(a, c)
  {
    if a != [] && a[0] == b[0] == c[0] {
      LeTransitive(a[1..], b[1..], c[1..]);
    }
  }

  predicate Least(m: Bytes, s: set<Bytes>) {
    m in s && forall k | k in s :: Le(m, k)
  }

  lemma {:induction false} LeastExists(s: set<Bytes>)
    requires s != {}
    ensures exists m :: Least(m, s)
    decreases |s|
  {
    var x :| x in s;
    LeTotal(x, x);
    if s == {x} {
      assert Least(x, s);
    } else {
      LeastExists(s - {x});
      var n :| Least(n, s - {x});
      LeTotal(x, n);
      var m := if Le(x, n) then x else n;
      forall k | k in s ensures Le(m, k) {
        if k != x { LeTransitive(m, n, k); }
      }
      assert Least(m, s);
    }
  }

  lemma LeastUnique(s: set<Bytes>)
    ensures forall m, n | Least(m, s) && Least(n, s) :: m == n
  {
    forall m, n | Least(m, s) && Least(n, s) ensures m == n { LeTotal(m, n); }
  }

  predicate StrictlySorted(keys: seq<Bytes>) {
    forall i, j :: 0 <= i < j < |keys| ==> Lt(keys[i], keys[j])
  }

  function LeastOf(s: set<Bytes>): (m: Bytes)
    requires s != {}
    ensures Least(m, s)
  {
    LeastExists(s);
    LeastUnique(s);
    var m :| m in s && Least(m, s);
    m
  }

  /** The enumeration of a set in strictly ascending order. */
  function Ascending(s: set<Bytes>): (keys: seq<Bytes>)
    ensures forall k :: k in keys <==> k in s
    decreases |s|
  {
    if s == {} then [] else [LeastOf(s)] + Ascending(s - {LeastOf(s)})
  }

  lemma {:induction false} AscendingSorted(s: set<Bytes>)
    ensures StrictlySorted(Ascending(s))
    decreases |s|
  {
    if s != {} {
      AscendingSorted(s - {LeastOf(s)});
    }
  }

  /** Any strictly sorted enumeration of a set is that one. */
  lemma {:induction false} AscendingUnique(keys: seq<Bytes>, s: set<Bytes>)
    requires StrictlySorted(keys) && forall k :: k in keys <==> k in s
    ensures keys == Ascending(s)
    decreases |keys|
  {
    if keys == [] {
      assert s == {};
    } else {
      var m := keys[0];
      assert Least(m, s) by {
        forall k | k in s ensures Le(m, k) {
          var i :| 0 <= i < |keys| && keys[i] == k;
          if i == 0 { LeTotal(k, k); } else { assert Lt(keys[0], keys[i]); }
        }
      }
      LeastUnique(s);
      forall k ensures k in keys[1..] <==> k in s - {m} {
        if k in keys[1..] {
          var i :| 0 <= i < |keys[1..]| && keys[1..][i] == k;
          assert Lt(keys[0], keys[i + 1]);
        }
      }
      AscendingUnique(keys[1..], s - {m});
    }
  }
}
