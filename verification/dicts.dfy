/** Python dictionaries as the script uses them: literals written entry by
    entry, subscripted with `d[k]` and iterated with `.items()`. Python keeps
    insertion order, so a dictionary is modelled as its association list.
    For a literal without repeated keys the association list is exactly the
    dictionary; with a repeated key only `Get` follows Python (the later
    entry wins), while `Keys` and the inversion still see both entries. The
    script's tables have no repeated keys, and that is proved of each. */
module Dicts {
  import opened Wrappers

  type Dict<K, V> = seq<(K, V)>

  predicate Distinct<T(==)>(s: seq<T>) {
    forall i, j | 0 <= i < j < |s| :: s[i] != s[j]
  }

  /** The keys in iteration order, for a literal without repeated keys. */
  function Keys<K, V>(d: Dict<K, V>): seq<K> {
    seq(|d|, i requires 0 <= i < |d| => d[i].0)
  }

  /** `d[k]`: the value bound to `k`, where a later entry of a literal
      overrides an earlier one with the same key; `None` is the `KeyError`. */
  function Get<K(==), V>(d: Dict<K, V>, k: K): (r: Option<V>)
    ensures r.None? <==> k !in Keys(d)
    ensures r.Some? ==>
      exists i | 0 <= i < |d| :: d[i] == (k, r.value) && forall j | i < j < |d| :: d[j].0 != k
  {
    if |d| == 0 then None
    else
      assert Keys(d) == Keys(d[..|d| - 1]) + [d[|d| - 1].0];
      if d[|d| - 1].0 == k then Some(d[|d| - 1].1)
    else Get(d[..|d| - 1], k)
  }

  /** With distinct keys, every entry is what a lookup of its key finds. */
  lemma GetAt<K, V>(d: Dict<K, V>, i: nat)
    requires Distinct(Keys(d))
    requires i < |d|
    ensures Get(d, d[i].0) == Some(d[i].1)
  {
    var r := Get(d, d[i].0);
    assert Keys(d)[i] == d[i].0;
    var i' :| 0 <= i' < |d| && d[i'] == (d[i].0, r.value) && forall j | i' < j < |d| :: d[j].0 != d[i].0;
    assert Keys(d)[i'] == Keys(d)[i];
  }

  /** Keys of a literal written in two parts. */
  lemma KeysAppend<K, V>(a: Dict<K, V>, b: Dict<K, V>)
    ensures Keys(a + b) == Keys(a) + Keys(b)
  {
  }

  /** The keys bound to `v`, in iteration order, for a literal without
      repeated keys. */
  function KeysWithValue<K, V(==)>(d: Dict<K, V>, v: V): seq<K> {
    if |d| == 0 then []
    else KeysWithValue(d[..|d| - 1], v) + (if d[|d| - 1].1 == v then [d[|d| - 1].0] else [])
  }

  /** The keys listed under `v` are exactly those of the entries carrying `v`. */
  lemma {:induction false} KeysWithValueMembers<K, V>(d: Dict<K, V>, v: V)
    ensures forall k | k in KeysWithValue(d, v) :: exists i | 0 <= i < |d| :: d[i] == (k, v)
    ensures forall i | 0 <= i < |d| && d[i].1 == v :: d[i].0 in KeysWithValue(d, v)
  {
    if |d| > 0 {
      var p := d[..|d| - 1];
      KeysWithValueMembers(p, v);
      forall k | k in KeysWithValue(d, v) ensures exists i | 0 <= i < |d| :: d[i] == (k, v) {
        if k in KeysWithValue(p, v) {
          var i :| 0 <= i < |p| && p[i] == (k, v);
          assert d[i] == (k, v);
        } else {
          assert d[|d| - 1] == (k, v);
        }
      }
    }
  }

  /** Inverts `d`: for each value of `vs`, in that order, the keys bound to it. */
  function GroupBy<K, V(==)>(d: Dict<K, V>, vs: seq<V>): Dict<V, seq<K>> {
    seq(|vs|, i requires 0 <= i < |vs| => (vs[i], KeysWithValue(d, vs[i])))
  }

  /** A dictionary literal written over several lines: the lines joined. */
  function Join<K, V>(lines: seq<Dict<K, V>>): Dict<K, V> {
    if |lines| == 0 then [] else lines[0] + Join(lines[1..])
  }

  /** Every entry of line `j` carries `values[j]`. */
  predicate LinesCarry<K, V(==)>(lines: seq<Dict<K, V>>, values: seq<V>) {
    && |lines| == |values|
    && forall j, e | 0 <= j < |lines| && 0 <= e < |lines[j]| :: lines[j][e].1 == values[j]
  }

  /** The values a dictionary binds. */
  function ValueSet<K, V>(d: Dict<K, V>): set<V> {
    set i | 0 <= i < |d| :: d[i].1
  }

  /** All the lists of a dictionary of lists, joined in iteration order. */
  function Concat<K, T>(g: Dict<K, seq<T>>): seq<T> {
    if |g| == 0 then [] else g[0].1 + Concat(g[1..])
  }

  /** With distinct keys, a key is listed under `v` exactly when `d[k]` is `v`. */
  lemma KeysWithValueIff<K, V>(d: Dict<K, V>, v: V, k: K)
    requires Distinct(Keys(d))
    ensures k in KeysWithValue(d, v) <==> Get(d, k) == Some(v)
  {
    KeysWithValueMembers(d, v);
    if k in KeysWithValue(d, v) {
      var i :| 0 <= i < |d| && d[i] == (k, v);
      GetAt(d, i);
    }
  }

  lemma {:induction false} KeysWithValueAppend<K, V>(a: Dict<K, V>, b: Dict<K, V>, v: V)
    ensures KeysWithValue(a + b, v) == KeysWithValue(a, v) + KeysWithValue(b, v)
  {
    if |b| == 0 {
      assert a + b == a;
    } else {
      var b' := b[..|b| - 1];
      assert (a + b)[..|a + b| - 1] == a + b';
      KeysWithValueAppend(a, b', v);
    }
  }

  /** In a run of entries that all carry `u`, the keys bound to `v` are all of
      them or none. */
  lemma {:induction false} KeysWithValueUniform<K, V>(b: Dict<K, V>, u: V, v: V)
    requires forall i | 0 <= i < |b| :: b[i].1 == u
    ensures KeysWithValue(b, v) == if u == v then Keys(b) else []
  {
    if |b| > 0 {
      var b' := b[..|b| - 1];
      KeysWithValueUniform(b', u, v);
      if u == v {
        assert KeysWithValue(b, v) == KeysWithValue(b', v) + [b[|b| - 1].0];
        assert Keys(b) == Keys(b') + [b[|b| - 1].0];
      } else {
        assert KeysWithValue(b, v) == KeysWithValue(b', v);
      }
    }
  }

  lemma {:induction false} KeysWithValueJoinAbsent<K, V>(lines: seq<Dict<K, V>>, values: seq<V>, v: V)
    requires LinesCarry(lines, values)
    requires v !in values
    ensures KeysWithValue(Join(lines), v) == []
  {
    if |lines| > 0 {
      KeysWithValueAppend(lines[0], Join(lines[1..]), v);
      KeysWithValueUniform(lines[0], values[0], v);
      KeysWithValueJoinAbsent(lines[1..], values[1..], v);
    }
  }

  /** In a literal whose lines each carry one value, distinct from line to
      line, the keys bound to a line's value are exactly that line's keys. */
  lemma {:induction false} KeysWithValueJoin<K, V>(lines: seq<Dict<K, V>>, values: seq<V>, i: nat)
    requires LinesCarry(lines, values)
    requires Distinct(values)
    requires i < |lines|
    ensures KeysWithValue(Join(lines), values[i]) == Keys(lines[i])
  {
    KeysWithValueAppend(lines[0], Join(lines[1..]), values[i]);
    KeysWithValueUniform(lines[0], values[0], values[i]);
    assert LinesCarry(lines[1..], values[1..]);
    if i == 0 {
      KeysWithValueJoinAbsent(lines[1..], values[1..], values[0]);
    } else {
      KeysWithValueJoin(lines[1..], values[1..], i - 1);
    }
  }

  /** Every entry of a joined literal carries one of its lines' values. */
  lemma {:induction false} JoinCarries<K, V>(lines: seq<Dict<K, V>>, values: seq<V>)
    requires LinesCarry(lines, values)
    ensures forall i | 0 <= i < |Join(lines)| :: Join(lines)[i].1 in values
  {
    if |lines| > 0 {
      assert LinesCarry(lines[1..], values[1..]);
      JoinCarries(lines[1..], values[1..]);
      var d := Join(lines);
      forall i | 0 <= i < |d| ensures d[i].1 in values {
        if i >= |lines[0]| {
          assert d[i] == Join(lines[1..])[i - |lines[0]|];
        }
      }
    }
  }

  lemma {:induction false} KeysWithValueDistinct<K, V>(d: Dict<K, V>, v: V)
    requires Distinct(Keys(d))
    ensures Distinct(KeysWithValue(d, v))
  {
    if |d| > 0 {
      var p := d[..|d| - 1];
      assert Keys(p) == Keys(d)[..|d| - 1];
      KeysWithValueDistinct(p, v);
      KeysWithValueMembers(p, v);
      forall i | 0 <= i < |p| ensures p[i].0 != d[|d| - 1].0 {
        assert Keys(d)[i] != Keys(d)[|d| - 1];
      }
    }
  }

  lemma {:induction false} ConcatGroupByEmpty<K, V>(d: Dict<K, V>, vs: seq<V>)
    requires |d| == 0
    ensures Concat(GroupBy(d, vs)) == []
  {
    if |vs| > 0 {
      assert GroupBy(d, vs)[1..] == GroupBy(d, vs[1..]);
      ConcatGroupByEmpty(d, vs[1..]);
    }
  }

  /** Appending one entry to `d` adds its key to exactly one group when the
      group values are distinct and include the entry's value. */
  lemma {:induction false} ConcatGroupBySnoc<K, V>(p: Dict<K, V>, k: K, v: V, vs: seq<V>)
    requires Distinct(vs)
    ensures multiset(Concat(GroupBy(p + [(k, v)], vs)))
         == multiset(Concat(GroupBy(p, vs))) + (if v in vs then multiset{k} else multiset{})
  {
    var d := p + [(k, v)];
    assert d[..|d| - 1] == p;
    if |vs| > 0 {
      assert GroupBy(d, vs)[1..] == GroupBy(d, vs[1..]);
      assert GroupBy(p, vs)[1..] == GroupBy(p, vs[1..]);
      assert Concat(GroupBy(d, vs)) == KeysWithValue(d, vs[0]) + Concat(GroupBy(d, vs[1..]));
      assert Concat(GroupBy(p, vs)) == KeysWithValue(p, vs[0]) + Concat(GroupBy(p, vs[1..]));
      assert KeysWithValue(d, vs[0]) == KeysWithValue(p, vs[0]) + (if v == vs[0] then [k] else []);
      ConcatGroupBySnoc(p, k, v, vs[1..]);
      assert v in vs <==> v == vs[0] || v in vs[1..];
      assert v == vs[0] ==> v !in vs[1..];
    }
  }

  /** Inverting a dictionary whose values all occur, once each, in `vs`
      lists every key exactly once: the groups partition the keys. */
  lemma {:induction false} GroupByPartition<K, V>(d: Dict<K, V>, vs: seq<V>)
    requires Distinct(vs)
    requires forall i | 0 <= i < |d| :: d[i].1 in vs
    ensures multiset(Concat(GroupBy(d, vs))) == multiset(Keys(d))
  {
    if |d| == 0 {
      ConcatGroupByEmpty(d, vs);
    } else {
      var p := d[..|d| - 1];
      assert d == p + [d[|d| - 1]];
      assert Keys(d) == Keys(p) + [d[|d| - 1].0];
      GroupByPartition(p, vs);
      ConcatGroupBySnoc(p, d[|d| - 1].0, d[|d| - 1].1, vs);
    }
  }

  lemma {:induction false} DistinctCount<T>(s: seq<T>, x: T)
    requires Distinct(s)
    ensures multiset(s)[x] <= 1
  {
    if |s| > 0 {
      var p := s[..|s| - 1];
      assert s == p + [s[|s| - 1]];
      DistinctCount(p, x);
      if x == s[|s| - 1] {
        assert x !in p;
      }
    }
  }

  /** A rearrangement of a duplicate-free sequence is duplicate-free. */
  lemma DistinctPermutation<T>(a: seq<T>, b: seq<T>)
    requires Distinct(a)
    requires multiset(a) == multiset(b)
    ensures Distinct(b)
  {
    if !Distinct(b) {
      var i, j :| 0 <= i < j < |b| && b[i] == b[j];
      assert b == b[..j] + b[j..];
      assert b[i] in b[..j];
      assert b[j] in b[j..];
      assert multiset(b)[b[i]] >= 2;
      DistinctCount(a, b[i]);
      assert false;
    }
  }
}
