/** Sums over finite maps, the arithmetic behind Redis hashes of integer fields.
    A Redis hash is a `map<K, int>`; a missing field reads as zero, as HINCRBY takes it. */
module FiniteSums {

  /** The field's value, zero when the field is missing. */
  function Get<K>(m: map<K, int>, k: K): int {
    if k in m then m[k] else 0
  }

  /** HINCRBY: add `d` to a field, creating it from zero. */
  function IncrBy<K>(m: map<K, int>, k: K, d: int): map<K, int> {
    m[k := Get(m, k) + d]
  }

  /** Field-wise sum of two hashes. */
  function AddAll<K>(m: map<K, int>, d: map<K, int>): map<K, int> {
    map k | k in m.Keys + d.Keys :: Get(m, k) + Get(d, k)
  }

  /** Field-wise difference of two hashes. */
  function SubAll<K>(m: map<K, int>, d: map<K, int>): map<K, int> {
    map k | k in m.Keys + d.Keys :: Get(m, k) - Get(d, k)
  }

  lemma GetAddAll<K>(m: map<K, int>, d: map<K, int>, k: K)
    ensures Get(AddAll(m, d), k) == Get(m, k) + Get(d, k)
  {
  }

  lemma GetSubAll<K>(m: map<K, int>, d: map<K, int>, k: K)
    ensures Get(SubAll(m, d), k) == Get(m, k) - Get(d, k)
  {
  }

  /** The fields of `m` named in `s`. */
  function Restrict<K, V>(m: map<K, V>, s: set<K>): map<K, V> {
    map k | k in m && k in s :: m[k]
  }

  /** The sum of the fields named in `s`. */
  ghost function Total<K>(s: set<K>, m: map<K, int>): int {
    if s == {} then 0 else
      var k :| k in s;
      Get(m, k) + Total(s - {k}, m)
  }

  /** The sum of all fields. */
  ghost function Sum<K>(m: map<K, int>): int {
    Total(m.Keys, m)
  }

  /** The total does not depend on which field is taken out first. */
  lemma {:induction false} TotalTakeOut<K>(s: set<K>, m: map<K, int>, k: K)
    requires k in s
    ensures Total(s, m) == Get(m, k) + Total(s - {k}, m)
  {
    var p :| p in s && Total(s, m) == Get(m, p) + Total(s - {p}, m);
    if p != k {
      TotalTakeOut(s - {p}, m, k);
      TotalTakeOut(s - {k}, m, p);
      assert s - {p} - {k} == s - {k} - {p};
    }
  }

  lemma {:induction false} TotalLinear<K>(s: set<K>, m: map<K, int>, a: map<K, int>, b: map<K, int>)
    requires forall k :: k in s ==> Get(m, k) == Get(a, k) + Get(b, k)
    ensures Total(s, m) == Total(s, a) + Total(s, b)
  {
    if s != {} {
      var k :| k in s;
      TotalTakeOut(s, m, k);
      TotalTakeOut(s, a, k);
      TotalTakeOut(s, b, k);
      TotalLinear(s - {k}, m, a, b);
    }
  }

  /** Fields that are missing add nothing. */
  lemma {:induction false} TotalWiden<K>(s: set<K>, t: set<K>, m: map<K, int>)
    requires m.Keys <= s <= t
    ensures Total(t, m) == Total(s, m)
    decreases t
  {
    if s != t {
      var k :| k in t && k !in s;
      TotalTakeOut(t, m, k);
      TotalWiden(s, t - {k}, m);
    }
  }

  /** The one fact about sums used everywhere: a hash that is field by field the sum of two
      others sums to the sum of their sums. */
  lemma SumLinear<K>(m: map<K, int>, a: map<K, int>, b: map<K, int>)
    requires forall k <- m.Keys + a.Keys + b.Keys :: Get(m, k) == Get(a, k) + Get(b, k)
    ensures Sum(m) == Sum(a) + Sum(b)
  {
    var s := m.Keys + a.Keys + b.Keys;
    TotalWiden(m.Keys, s, m);
    TotalWiden(a.Keys, s, a);
    TotalWiden(b.Keys, s, b);
    TotalLinear(s, m, a, b);
  }

  lemma SumSingle<K>(k: K, v: int)
    ensures Sum(map[k := v]) == v
  {
    TotalTakeOut({k}, map[k := v], k);
    assert (map[k := v]).Keys == {k};
  }

  lemma SumPut<K>(m: map<K, int>, k: K, v: int)
    ensures Sum(m[k := v]) == Sum(m) - Get(m, k) + v
  {
    SumSingle(k, v - Get(m, k));
    SumLinear(m[k := v], m, map[k := v - Get(m, k)]);
  }

  lemma SumDrop<K>(m: map<K, int>, k: K)
    ensures Sum(m - {k}) == Sum(m) - Get(m, k)
  {
    SumSingle(k, Get(m, k));
    SumLinear(m, m - {k}, map[k := Get(m, k)]);
  }

  lemma SumAddAll<K>(m: map<K, int>, d: map<K, int>)
    ensures Sum(AddAll(m, d)) == Sum(m) + Sum(d)
  {
    SumLinear(AddAll(m, d), m, d);
  }

  lemma SumSubAll<K>(m: map<K, int>, d: map<K, int>)
    ensures Sum(SubAll(m, d)) == Sum(m) - Sum(d)
  {
    SumLinear(m, SubAll(m, d), d);
  }

  lemma {:induction false} TotalAtLeast<K>(s: set<K>, m: map<K, int>, low: nat)
    requires forall k :: k in s ==> Get(m, k) >= low
    ensures Total(s, m) >= 0
    ensures s != {} ==> Total(s, m) >= low
  {
    if s != {} {
      var k :| k in s;
      TotalTakeOut(s, m, k);
      TotalAtLeast(s - {k}, m, low);
    }
  }

  /** Adding one more field of `d` to a partial field-wise sum: the step of every crediting loop. */
  lemma AddOneMore<K>(m: map<K, int>, d: map<K, int>, done: set<K>, k: K)
    requires k in d && k !in done
    ensures IncrBy(AddAll(m, Restrict(d, done)), k, d[k]) == AddAll(m, Restrict(d, done + {k}))
  {
  }

  lemma SubOneMore<K>(m: map<K, int>, d: map<K, int>, done: set<K>, k: K)
    requires k in d && k !in done
    ensures IncrBy(SubAll(m, Restrict(d, done)), k, -d[k]) == SubAll(m, Restrict(d, done + {k}))
  {
  }

  lemma SumOneMore<K>(d: map<K, int>, done: set<K>, k: K)
    requires k in d && k !in done
    ensures Sum(Restrict(d, done + {k})) == Sum(Restrict(d, done)) + d[k]
  {
    SumPut(Restrict(d, done), k, d[k]);
    assert Restrict(d, done + {k}) == Restrict(d, done)[k := d[k]];
  }
}
