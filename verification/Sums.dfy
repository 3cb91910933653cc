/** Sums over finite maps and over logs, for the conservation laws. */
module Sums {

  ghost function Sum<K, V>(m: map<K, V>, f: (K, V) -> int): int {
    if m == map[] then 0
    else
      var k :| k in m;
      f(k, m[k]) + Sum(m - {k}, f)
  }

  lemma {:induction false} SumAt<K, V>(m: map<K, V>, f: (K, V) -> int, k: K)
    requires k in m
    ensures Sum(m, f) == f(k, m[k]) + Sum(m - {k}, f)
    decreases |m|
  {
    var p :| p in m && Sum(m, f) == f(p, m[p]) + Sum(m - {p}, f);
    if p != k {
      SumAt(m - {p}, f, k);
      SumAt(m - {k}, f, p);
      assert m - {p} - {k} == m - {k} - {p};
    }
  }

  lemma SumPut<K, V>(m: map<K, V>, f: (K, V) -> int, k: K, v: V)
    ensures Sum(m[k := v], f) == Sum(m, f) - (if k in m then f(k, m[k]) else 0) + f(k, v)
  {
    SumAt(m[k := v], f, k);
    assert m[k := v] - {k} == m - {k};
    if k in m {
      SumAt(m, f, k);
    } else {
      assert m - {k} == m;
    }
  }

  lemma {:induction false} SumZero<K, V>(m: map<K, V>, f: (K, V) -> int)
    requires forall k :: k in m ==> f(k, m[k]) == 0
    ensures Sum(m, f) == 0
    decreases |m|
  {
    if m != map[] {
      var k :| k in m;
      SumAt(m, f, k);
      SumZero(m - {k}, f);
    }
  }

  lemma {:induction false} SumPart<K, V>(part: map<K, V>, m: map<K, V>, f: (K, V) -> int)
    requires forall k :: k in part ==> k in m && part[k] == m[k]
    requires forall k :: k in m ==> f(k, m[k]) >= 0
    ensures Sum(part, f) <= Sum(m, f)
    decreases |m|
  {
    if m != map[] {
      var k :| k in m;
      SumAt(m, f, k);
      if k in part {
        SumAt(part, f, k);
      } else {
        assert part - {k} == part;
      }
      SumPart(part - {k}, m - {k}, f);
    }
  }

  ghost function Total<T>(s: seq<T>, f: T -> int): int {
    if s == [] then 0 else Total(s[..|s| - 1], f) + f(s[|s| - 1])
  }

  lemma TotalSnoc<T>(s: seq<T>, x: T, f: T -> int)
    ensures Total(s + [x], f) == Total(s, f) + f(x)
  {
    assert (s + [x])[..|s|] == s;
  }
}
