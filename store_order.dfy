/**
 * The order in which a stable key-value table lists its entries.
 *
 * Each table of the service is keyed by strings, and its `values()` call
 * returns every stored value by ascending key. The model fixes that order
 * as the lexicographic order of the keys' characters (`Below`), proves it
 * a strict total order, and defines `Values` from the unique increasing
 * listing of a key set.
 */
module StoreOrder {

  /** Strict lexicographic order on strings: `a` sorts before `b`. */
  predicate Below(a: string, b: string)
    decreases |a|
  {
    if |a| == 0 then |b| != 0
    else |b| != 0 && (a[0] < b[0] || (a[0] == b[0] && Below(a[1..], b[1..])))
  }

  lemma {:induction false} BelowIrreflexive(a: string)
    ensures !Below(a, a)
    decreases |a|
  {
    if |a| != 0 {
      BelowIrreflexive(a[1..]);
    }
  }

  lemma {:induction false} BelowTransitive(a: string, b: string, c: string)
    requires Below(a, b) && Below(b, c)
    ensures Below(a, c)
    decreases |a|
  {
    if |a| != 0 && a[0] == b[0] && b[0] == c[0] {
      BelowTransitive(a[1..], b[1..], c[1..]);
    }
  }

  lemma {:induction false} BelowTotal(a: string, b: string)
    requires a != b
    ensures Below(a, b) || Below(b, a)
    decreases |a|
  {
    if |a| != 0 && |b| != 0 && a[0] == b[0] {
      assert a == [a[0]] + a[1..] && b == [b[0]] + b[1..];
      BelowTotal(a[1..], b[1..]);
    }
  }

  /** `k` is the smallest key of `keys`. */
  predicate IsLeast(k: string, keys: set<string>)
  {
    k in keys && forall x | x in keys && x != k :: Below(k, x)
  }

  lemma {:induction false} LeastExists(keys: set<string>)
    requires keys != {}
    ensures exists k :: IsLeast(k, keys)
    decreases |keys|
  {
    var x :| x in keys;
    var rest := keys - {x};
    if rest == {} {
      assert keys == {x};
      assert IsLeast(x, keys);
    } else {
      LeastExists(rest);
      var y :| IsLeast(y, rest);
      if Below(x, y) {
        forall z | z in keys && z != x
          ensures Below(x, z)
        {
          if z != y {
            BelowTransitive(x, y, z);
          }
        }
        assert IsLeast(x, keys);
      } else {
        BelowTotal(x, y);
        assert IsLeast(y, keys);
      }
    }
  }

  lemma LeastUnique(keys: set<string>)
    ensures forall a, b :: IsLeast(a, keys) && IsLeast(b, keys) ==> a == b
  {
    forall a, b | IsLeast(a, keys) && IsLeast(b, keys)
      ensures a == b
    {
      if a != b {
        BelowTransitive(a, b, a);
        BelowIrreflexive(a);
      }
    }
  }

  /** The smallest key of a non-empty key set. */
  function Least(keys: set<string>): (k: string)
    requires keys != {}
    ensures IsLeast(k, keys)
  {
    LeastExists(keys);
    LeastUnique(keys);
    var k :| k in keys && IsLeast(k, keys);
    k
  }

  /** `ks` lists strictly ascending keys (so no key twice). */
  predicate Increasing(ks: seq<string>)
  {
    forall i, j | 0 <= i < j < |ks| :: Below(ks[i], ks[j])
  }

  /** The keys of a table in the order `values()` visits them. */
  function SortedKeys(keys: set<string>): (ks: seq<string>)
    ensures |ks| == |keys|
    ensures forall k :: k in ks <==> k in keys
    ensures Increasing(ks)
    decreases |keys|
  {
    if keys == {} then []
    else
      var k := Least(keys);
      var rest := SortedKeys(keys - {k});
      IncreasingCons(k, rest);
      [k] + rest
  }

  /** A key below every key of an increasing listing can go in front of it. */
  lemma IncreasingCons(k: string, rest: seq<string>)
    requires Increasing(rest)
    requires forall x | x in rest :: Below(k, x)
    ensures Increasing([k] + rest)
  {
    var ks := [k] + rest;
    forall i, j | 0 <= i < j < |ks|
      ensures Below(ks[i], ks[j])
    {
      assert ks[j] == rest[j - 1];
      if i > 0 {
        assert ks[i] == rest[i - 1];
      }
    }
  }

  /** Two ascending listings of the same keys are the same listing. */
  lemma {:induction false} IncreasingUnique(a: seq<string>, b: seq<string>)
    requires Increasing(a) && Increasing(b)
    requires forall k :: k in a <==> k in b
    ensures a == b
    decreases |a|
  {
    if a != [] {
      assert a[0] in b;
    }
    if b != [] {
      assert b[0] in a;
    }
    if a != [] && b != [] {
      BelowIrreflexive(a[0]);
      BelowIrreflexive(b[0]);
      assert a == [a[0]] + a[1..] && b == [b[0]] + b[1..];
      if a[0] != b[0] {
        assert b[0] in a && a[0] in b;
        var i :| 0 <= i < |a| && a[i] == b[0];
        var j :| 0 <= j < |b| && b[j] == a[0];
        BelowTransitive(a[0], b[0], a[0]);
      } else {
        forall k
          ensures k in a[1..] <==> k in b[1..]
        {
          if k in a[1..] {
            var i :| 0 <= i < |a| - 1 && a[1..][i] == k;
            assert a[i + 1] == k && Below(a[0], k);
            assert k in b && k != b[0];
          }
          if k in b[1..] {
            var j :| 0 <= j < |b| - 1 && b[1..][j] == k;
            assert b[j + 1] == k && Below(b[0], k);
            assert k in a && k != a[0];
          }
        }
        IncreasingUnique(a[1..], b[1..]);
      }
    }
  }

  /** The values stored under `ks`, in the order of `ks`. */
  function ValuesAt<V>(m: map<string, V>, ks: seq<string>): (vs: seq<V>)
    requires forall k | k in ks :: k in m
    ensures |vs| == |ks|
    ensures forall i | 0 <= i < |ks| :: vs[i] == m[ks[i]]
  {
    if ks == [] then [] else [m[ks[0]]] + ValuesAt(m, ks[1..])
  }

  /** Every key listed in `ks` has its value listed in `ValuesAt(m, ks)`. */
  lemma ValuesAtListsEach<V>(m: map<string, V>, ks: seq<string>, k: string)
    requires forall k' | k' in ks :: k' in m
    requires k in ks
    ensures m[k] in ValuesAt(m, ks)
  {
    var i :| 0 <= i < |ks| && ks[i] == k;
    assert ValuesAt(m, ks)[i] == m[k];
  }

  /** The listing of a table's values by its sorted keys has one value per
      key, lists only stored values and lists every stored value. */
  lemma ValuesAtSortedKeys<V>(m: map<string, V>)
    ensures |ValuesAt(m, SortedKeys(m.Keys))| == |m|
    ensures forall v | v in ValuesAt(m, SortedKeys(m.Keys)) :: v in m.Values
    ensures forall k | k in m :: m[k] in ValuesAt(m, SortedKeys(m.Keys))
  {
    var ks := SortedKeys(m.Keys);
    var vs := ValuesAt(m, ks);
    forall v | v in vs
      ensures v in m.Values
    {
      var i :| 0 <= i < |vs| && vs[i] == v;
      assert ks[i] in m;
    }
    forall k | k in m
      ensures m[k] in vs
    {
      ValuesAtListsEach(m, ks, k);
    }
  }

  /** The listing by sorted keys is a listing by some increasing sequence of
      exactly the table's keys. */
  lemma ValuesAtIncreasingKeys<V>(m: map<string, V>)
    ensures exists ks :: Increasing(ks) && (forall k :: k in ks <==> k in m)
                         && ValuesAt(m, SortedKeys(m.Keys)) == ValuesAt(m, ks)
  {
    var ks := SortedKeys(m.Keys);
    assert forall k :: k in ks <==> k in m;
    assert Increasing(ks) && ValuesAt(m, SortedKeys(m.Keys)) == ValuesAt(m, ks);
  }

  /** What a table's `values()` returns: every stored value, by ascending
      key. The increasing listing of the keys is unique (`IncreasingUnique`),
      so the last postcondition fixes the order. */
  function Values<V(==)>(m: map<string, V>): (vs: seq<V>)
    ensures |vs| == |m|
    ensures forall v | v in vs :: v in m.Values
    ensures forall k | k in m :: m[k] in vs
    ensures exists ks :: Increasing(ks) && (forall k :: k in ks <==> k in m) && vs == ValuesAt(m, ks)
  {
    ValuesAtSortedKeys(m);
    ValuesAtIncreasingKeys(m);
    ValuesAt(m, SortedKeys(m.Keys))
  }
}
