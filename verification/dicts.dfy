/** Insertion-ordered dictionaries, as Python's `dict` and `defaultdict(list)`:
    a list of (key, value) entries, keys kept in the order they were first inserted. */
module Dicts {
  import opened Wrappers

  type Dict<K, V> = seq<(K, V)>

  function KeysOf<K(==), V>(d: Dict<K, V>): seq<K>
  {
    if d == [] then [] else [d[0].0] + KeysOf(d[1..])
  }

  predicate Distinct<K(==)>(ks: seq<K>)
  {
    forall i, j | 0 <= i < j < |ks| :: ks[i] != ks[j]
  }

  lemma {:induction false} KeysOfLength<K, V>(d: Dict<K, V>)
    ensures |KeysOf(d)| == |d|
    ensures forall i | 0 <= i < |d| :: KeysOf(d)[i] == d[i].0
  {
    if d != [] {
      KeysOfLength(d[1..]);
    }
  }

  lemma {:induction false} KeysOfAppend<K, V>(a: Dict<K, V>, b: Dict<K, V>)
    ensures KeysOf(a + b) == KeysOf(a) + KeysOf(b)
  {
    if a != [] {
      assert (a + b)[1..] == a[1..] + b;
      KeysOfAppend(a[1..], b);
    } else {
      assert a + b == b;
    }
  }

  /** `d.get(k)`: the value stored under `k`, if any. */
  function Get<K(==), V>(d: Dict<K, V>, k: K): (r: Option<V>)
    ensures r.None? <==> k !in KeysOf(d)
    ensures r.Some? ==> (k, r.value) in d
  {
    if d == [] then None
    else if d[0].0 == k then Some(d[0].1)
    else Get(d[1..], k)
  }

  /** `d[k] = v`: overwrite the value of an existing key in place, or add the key at the end. */
  function Put<K(==,!new), V>(d: Dict<K, V>, k: K, v: V): (r: Dict<K, V>)
    ensures Get(r, k) == Some(v)
    ensures forall k' | k' != k :: Get(r, k') == Get(d, k')
    ensures KeysOf(r) == if k in KeysOf(d) then KeysOf(d) else KeysOf(d) + [k]
  {
    if d == [] then [(k, v)]
    else if d[0].0 == k then
      var r := [(k, v)] + d[1..];
      assert r[0] == (k, v) && r[1..] == d[1..];
      r
    else
      var rest := Put(d[1..], k, v);
      var r := [d[0]] + rest;
      assert r[0] == d[0] && r[1..] == rest;
      r
  }

  /** The list under `k` of a `defaultdict(list)`: empty when the key was never appended to. */
  function ListAt<K(==), V>(d: Dict<K, seq<V>>, k: K): seq<V>
  {
    match Get(d, k)
    case Some(l) => l
    case None => []
  }

  /** `d[k].append(v)` on a `defaultdict(list)`. */
  function AppendAt<K(==,!new), V>(d: Dict<K, seq<V>>, k: K, v: V): Dict<K, seq<V>>
  {
    Put(d, k, ListAt(d, k) + [v])
  }

  /** The values paired with `k`, in order. */
  function ValuesFor<K(==), V>(ps: seq<(K, V)>, k: K): seq<V>
  {
    if ps == [] then []
    else ValuesFor(ps[..|ps| - 1], k) + (if ps[|ps| - 1].0 == k then [ps[|ps| - 1].1] else [])
  }

  /** The distinct elements of `xs`, each at the position of its first occurrence. */
  function Dedup<K(==)>(xs: seq<K>): seq<K>
  {
    if xs == [] then []
    else
      var p := Dedup(xs[..|xs| - 1]);
      if xs[|xs| - 1] in p then p else p + [xs[|xs| - 1]]
  }

  /** The `defaultdict(list)` obtained by appending every pair of `ps`, in order. */
  function GroupBy<K(==,!new), V>(ps: seq<(K, V)>): Dict<K, seq<V>>
  {
    if ps == [] then []
    else AppendAt(GroupBy(ps[..|ps| - 1]), ps[|ps| - 1].0, ps[|ps| - 1].1)
  }

  lemma {:induction false} GroupBySnoc<K(!new), V>(ps: seq<(K, V)>, k: K, v: V)
    ensures GroupBy(ps + [(k, v)]) == AppendAt(GroupBy(ps), k, v)
  {
    assert (ps + [(k, v)])[..|ps|] == ps;
  }

  lemma {:induction false} ValuesForAppend<K, V>(a: seq<(K, V)>, b: seq<(K, V)>, k: K)
    ensures ValuesFor(a + b, k) == ValuesFor(a, k) + ValuesFor(b, k)
  {
    if b == [] {
      assert a + b == a;
    } else {
      assert (a + b)[..|a + b| - 1] == a + b[..|b| - 1];
      ValuesForAppend(a, b[..|b| - 1], k);
    }
  }

  /** A value is listed under `k` exactly when the pair `(k, value)` occurs. */
  lemma {:induction false} ValuesForMembership<K, V>(ps: seq<(K, V)>, k: K, v: V)
    ensures v in ValuesFor(ps, k) <==> (k, v) in ps
  {
    if ps != [] {
      ValuesForMembership(ps[..|ps| - 1], k, v);
      assert ps == ps[..|ps| - 1] + [ps[|ps| - 1]];
    }
  }

  /** Dedup keeps every element once and drops nothing. */
  lemma {:induction false} DedupDistinct<K>(xs: seq<K>)
    ensures Distinct(Dedup(xs))
    ensures forall x :: x in Dedup(xs) <==> x in xs
  {
    if xs != [] {
      DedupDistinct(xs[..|xs| - 1]);
      assert xs == xs[..|xs| - 1] + [xs[|xs| - 1]];
    }
  }

  /** The list stored under each key of a grouping is exactly that key's values, in order. */
  lemma {:induction false} GroupByLookup<K(!new), V>(ps: seq<(K, V)>, k: K)
    ensures ListAt(GroupBy(ps), k) == ValuesFor(ps, k)
  {
    if ps != [] {
      GroupByLookup(ps[..|ps| - 1], k);
    }
  }

  /** The keys of a grouping are the distinct keys of the pairs, in order of first appearance. */
  lemma {:induction false} GroupByKeys<K(!new), V>(ps: seq<(K, V)>)
    ensures KeysOf(GroupBy(ps)) == Dedup(KeysOf(ps))
  {
    if ps != [] {
      KeysOfInit(ps);
      var init, last := ps[..|ps| - 1], ps[|ps| - 1];
      GroupByKeys(init);
      var g := GroupBy(init);
      assert GroupBy(ps) == Put(g, last.0, ListAt(g, last.0) + [last.1]);
    }
  }

  lemma KeysOfInit<K, V>(ps: seq<(K, V)>)
    requires ps != []
    ensures var ks := KeysOf(ps); |ks| > 0 && ks[..|ks| - 1] == KeysOf(ps[..|ps| - 1]) && ks[|ks| - 1] == ps[|ps| - 1].0
  {
    assert ps == ps[..|ps| - 1] + [ps[|ps| - 1]];
    KeysOfAppend(ps[..|ps| - 1], [ps[|ps| - 1]]);
    assert KeysOf([ps[|ps| - 1]]) == [ps[|ps| - 1].0];
  }

  /** A key of a grouping never carries an empty list. */
  lemma GroupByNonEmpty<K(!new), V>(ps: seq<(K, V)>, k: K)
    requires k in KeysOf(GroupBy(ps))
    ensures ListAt(GroupBy(ps), k) != []
  {
    GroupByKeys(ps);
    DedupDistinct(KeysOf(ps));
    KeysOfLength(ps);
    var i :| 0 <= i < |ps| && ps[i].0 == k;
    ValuesForMembership(ps, k, ps[i].1);
    GroupByLookup(ps, k);
  }

  /** A key occurs among the pairs exactly when some value is listed under it. */
  lemma KeysOfValuesFor<K, V>(ps: seq<(K, V)>, k: K)
    ensures k in KeysOf(ps) <==> ValuesFor(ps, k) != []
  {
    KeysOfLength(ps);
    if k in KeysOf(ps) {
      var i :| 0 <= i < |ps| && KeysOf(ps)[i] == k;
      ValuesForMembership(ps, k, ps[i].1);
    }
    if ValuesFor(ps, k) != [] {
      var v := ValuesFor(ps, k)[0];
      ValuesForMembership(ps, k, v);
      var i :| 0 <= i < |ps| && ps[i] == (k, v);
      assert KeysOf(ps)[i] == k;
    }
  }

  /** Appending at most one more pair to a grouping. */
  lemma GroupByStep<K(!new), V>(done: seq<(K, V)>, mid: seq<(K, V)>, extra: seq<(K, V)>)
    requires |extra| <= 1
    ensures GroupBy(done + (mid + extra)) ==
            if extra == [] then GroupBy(done + mid) else AppendAt(GroupBy(done + mid), extra[0].0, extra[0].1)
  {
    var ps := done + mid;
    assert done + (mid + extra) == ps + extra;
    if extra == [] {
      assert ps + extra == ps;
    } else {
      var e := extra[0];
      assert extra == [(e.0, e.1)];
      GroupBySnoc(ps, e.0, e.1);
    }
  }

  /** With distinct keys, looking up the key of an entry finds that entry's value. */
  lemma {:induction false} GetAtIndex<K, V>(d: Dict<K, V>, i: nat)
    requires Distinct(KeysOf(d))
    requires i < |d|
    ensures Get(d, d[i].0) == Some(d[i].1)
  {
    KeysOfLength(d);
    if i > 0 {
      var ks := KeysOf(d);
      assert ks == [d[0].0] + KeysOf(d[1..]);
      assert ks[0] != ks[i];
      forall a, b | 0 <= a < b < |KeysOf(d[1..])| ensures KeysOf(d[1..])[a] != KeysOf(d[1..])[b] {
        assert KeysOf(d[1..])[a] == ks[a + 1] && KeysOf(d[1..])[b] == ks[b + 1];
      }
      GetAtIndex(d[1..], i - 1);
    }
  }

  /** Every entry of a grouping lists the values of its key; its keys are distinct. */
  lemma GroupByEntry<K(!new), V>(ps: seq<(K, V)>, i: nat)
    requires i < |GroupBy(ps)|
    ensures GroupBy(ps)[i].1 == ValuesFor(ps, GroupBy(ps)[i].0)
    ensures GroupBy(ps)[i].1 != []
  {
    var g := GroupBy(ps);
    GroupByKeys(ps);
    DedupDistinct(KeysOf(ps));
    GetAtIndex(g, i);
    GroupByLookup(ps, g[i].0);
    KeysOfLength(g);
    assert g[i].0 == KeysOf(g)[i];
    GroupByNonEmpty(ps, g[i].0);
  }
}
