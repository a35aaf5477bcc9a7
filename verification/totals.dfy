/** Sizes of finite sets and sums over them. */
module Totals {
  lemma {:induction false} SubsetSize<T>(a: set<T>, b: set<T>)
    requires a <= b
    ensures |a| <= |b|
    decreases a
  {
    if a != {} {
      var x :| x in a;
      SubsetSize(a - {x}, b - {x});
    }
  }

  ghost function Total<T(!new)>(s: set<T>, weight: T -> nat): nat
    decreases s
  {
    if s == {} then 0
    else
      var x :| x in s;
      weight(x) + Total(s - {x}, weight)
  }

  lemma {:induction false} TotalRemove<T(!new)>(s: set<T>, weight: T -> nat, x: T)
    requires x in s
    ensures Total(s, weight) == weight(x) + Total(s - {x}, weight)
    decreases s
  {
    var y :| y in s && Total(s, weight) == weight(y) + Total(s - {y}, weight);
    if y != x {
      TotalRemove(s - {y}, weight, x);
      TotalRemove(s - {x}, weight, y);
      assert s - {y} - {x} == s - {x} - {y};
    }
  }

  lemma TotalAdd<T(!new)>(s: set<T>, weight: T -> nat, x: T)
    requires x !in s
    ensures Total(s + {x}, weight) == Total(s, weight) + weight(x)
  {
    TotalRemove(s + {x}, weight, x);
    assert s + {x} - {x} == s;
  }

  lemma ValueAdded<K, V>(m: map<K, V>, k: K, v: V)
    requires k !in m
    ensures m[k := v].Values == m.Values + {v}
  {
    var m' := m[k := v];
    forall x
      ensures x in m'.Values <==> x in m.Values || x == v
    {
      if x in m.Values {
        var j :| j in m && m[j] == x;
        assert j in m' && m'[j] == x;
      }
      assert k in m' && m'[k] == v;
    }
  }

  lemma KeyOfValue<K, V>(m: map<K, V>, v: V) returns (k: K)
    requires v in m.Values
    ensures k in m && m[k] == v
  {
    k :| k in m && m[k] == v;
  }

  /** The weights of all values of a map, each counted once per key. */
  ghost function MapTotal<K(!new), V(!new)>(m: map<K, V>, weight: V -> nat): nat
    decreases |m|
  {
    if m == map[] then 0
    else
      var k :| k in m;
      weight(m[k]) + MapTotal(m - {k}, weight)
  }

  lemma {:induction false} MapTotalRemove<K(!new), V(!new)>(m: map<K, V>, weight: V -> nat, k: K)
    requires k in m
    ensures MapTotal(m, weight) == weight(m[k]) + MapTotal(m - {k}, weight)
    decreases |m|
  {
    var j :| j in m && MapTotal(m, weight) == weight(m[j]) + MapTotal(m - {j}, weight);
    if j != k {
      MapTotalRemove(m - {j}, weight, k);
      MapTotalRemove(m - {k}, weight, j);
      assert m - {j} - {k} == m - {k} - {j};
    }
  }

  lemma MapTotalAdd<K(!new), V(!new)>(m: map<K, V>, weight: V -> nat, k: K, v: V)
    requires k !in m
    ensures MapTotal(m[k := v], weight) == MapTotal(m, weight) + weight(v)
  {
    MapTotalRemove(m[k := v], weight, k);
    assert m[k := v] - {k} == m;
  }

  lemma {:induction false} MapTotalBound<K(!new), V(!new)>(m: map<K, V>, weight: V -> nat, bound: nat)
    requires forall k | k in m :: weight(m[k]) <= bound
    ensures MapTotal(m, weight) <= |m| * bound
    decreases |m|
  {
    if m != map[] {
      var k :| k in m;
      MapTotalRemove(m, weight, k);
      SizeRemove(m, k);
      MapTotalBound(m - {k}, weight, bound);
      hide MapTotal;
      OneMoreTime(|m|, bound);
    }
  }

  lemma OneMoreTime(n: nat, bound: nat)
    requires n > 0
    ensures n * bound == (n - 1) * bound + bound
  {
  }

  lemma SizeRemove<K, V>(m: map<K, V>, k: K)
    requires k in m
    ensures |m - {k}| == |m| - 1
  {
    assert (m - {k}).Keys == m.Keys - {k};
  }
}
