/** JavaScript's `Map`: keys are distinct and iteration follows insertion
    order; `set` on a present key replaces its value where it stands, `set`
    on a new key appends it, `delete` removes the key. */
module JsMaps {
  import opened Wrappers

  datatype Entry<V> = Entry(key: string, value: V)

  predicate DistinctKeys<V>(m: seq<Entry<V>>) {
    forall i, j | 0 <= i < j < |m| :: m[i].key != m[j].key
  }

  /** A `Map<string, V>` as the sequence of its entries in iteration order.
      Its keys are distinct (`DistinctKeys`): `Set` and `Delete` keep them so,
      and the lemmas that rely on it say so in their preconditions. */
  type JsMap<V> = seq<Entry<V>>

  /** The keys in iteration order (`Array.from(m.keys())`). */
  function Keys<V>(m: seq<Entry<V>>): (ks: seq<string>)
    ensures |ks| == |m|
    ensures forall i | 0 <= i < |m| :: ks[i] == m[i].key
  {
    seq(|m|, i requires 0 <= i < |m| => m[i].key)
  }

  /** The position of key `k`, or -1. */
  function Find<V>(m: seq<Entry<V>>, k: string): (r: int)
    ensures -1 <= r < |m|
    ensures r >= 0 ==> m[r].key == k
    ensures forall j | 0 <= j < |m| && (r == -1 || j < r) :: m[j].key != k
  {
    if m == [] then -1
    else if m[|m| - 1].key == k && Find(m[..|m| - 1], k) == -1 then |m| - 1
    else Find(m[..|m| - 1], k)
  }

  /** In a map with distinct keys, the entry holding key `k` is the one `Find` returns. */
  lemma FindAt<V>(m: JsMap<V>, i: int)
    requires DistinctKeys(m)
    requires 0 <= i < |m|
    ensures Find(m, m[i].key) == i
  {
  }

  /** `m.has(k)`. */
  predicate Has<V>(m: seq<Entry<V>>, k: string) {
    Find(m, k) >= 0
  }

  /** `m.get(k)`, with `undefined` as `None`. */
  function Get<V>(m: seq<Entry<V>>, k: string): (r: Option<V>)
    ensures r.Some? <==> k in Keys(m)
    ensures r.Some? ==> Entry(k, r.value) in m
  {
    var i := Find(m, k);
    assert i >= 0 ==> Keys(m)[i] == k;
    if i == -1 then None else Some(m[i].value)
  }

  /** `m.set(k, v)`. */
  function Set<V>(m: JsMap<V>, k: string, v: V): (r: JsMap<V>)
    ensures Get(r, k) == Some(v)
    ensures forall k' | k' != k :: Get(r, k') == Get(m, k')
    ensures k in Keys(m) ==> Keys(r) == Keys(m)
    ensures k !in Keys(m) ==> Keys(r) == Keys(m) + [k] && r == m + [Entry(k, v)]
  {
    var i := Find(m, k);
    if i == -1 then
      var r := m + [Entry(k, v)];
      assert r[..|m|] == m;
      assert Keys(r) == Keys(m) + [k];
      r
    else
      var r := m[i := Entry(k, v)];
      assert Keys(r) == Keys(m);
      forall k' ensures Find(r, k') == Find(m, k') {
        FindKeys(r, m, k');
      }
      r
  }

  /** `set` keeps the keys distinct. */
  lemma SetDistinct<V>(m: JsMap<V>, k: string, v: V)
    requires DistinctKeys(m)
    ensures DistinctKeys(Set(m, k, v))
  {
    var r := Set(m, k, v);
    if k in Keys(m) {
      assert forall i | 0 <= i < |r| :: r[i].key == Keys(r)[i] == Keys(m)[i] == m[i].key;
    } else {
      assert forall i | 0 <= i < |m| :: m[i].key == Keys(m)[i] != k;
    }
  }

  /** `Find` looks at the keys only. */
  lemma {:induction false} FindKeys<V>(m: seq<Entry<V>>, n: seq<Entry<V>>, k: string)
    requires Keys(m) == Keys(n)
    ensures Find(m, k) == Find(n, k)
    decreases |m|
  {
    if m != [] {
      var m', n' := m[..|m| - 1], n[..|n| - 1];
      assert Keys(m') == Keys(n') by {
        assert forall j | 0 <= j < |m'| :: Keys(m')[j] == Keys(m)[j] == Keys(n)[j] == Keys(n')[j];
      }
      assert m[|m| - 1].key == Keys(m)[|m| - 1] == n[|n| - 1].key;
      FindKeys(m', n', k);
    }
  }

  /** With distinct keys, `get` finds exactly the entries of the map. */
  lemma GetIn<V>(m: JsMap<V>, k: string, v: V)
    requires DistinctKeys(m)
    ensures Get(m, k) == Some(v) <==> Entry(k, v) in m
  {
    if Entry(k, v) in m {
      var i :| 0 <= i < |m| && m[i] == Entry(k, v);
      FindAt(m, i);
    }
  }

  /** `m.delete(k)`. */
  function Delete<V>(m: seq<Entry<V>>, k: string): (r: seq<Entry<V>>)
    ensures forall i | 0 <= i < |r| :: r[i] in m && r[i].key != k
    ensures forall i | 0 <= i < |m| && m[i].key != k :: m[i] in r
    ensures Keys(r) == Without(Keys(m), k)
    ensures DistinctKeys(m) ==> DistinctKeys(r)
  {
    if m == [] then []
    else
      var p, last := m[..|m| - 1], m[|m| - 1];
      var q := Delete(p, k);
      DeleteKeys(m, k, p, q);
      if last.key == k then
        DeleteDrop(m, k, p, q);
        q
      else
        DeleteKeep(m, k, p, q);
        q + [last]
  }

  lemma DeleteKeys<V>(m: seq<Entry<V>>, k: string, p: seq<Entry<V>>, q: seq<Entry<V>>)
    requires m != [] && p == m[..|m| - 1]
    requires Keys(q) == Without(Keys(p), k)
    ensures m[|m| - 1].key == k ==> Keys(q) == Without(Keys(m), k)
    ensures m[|m| - 1].key != k ==> Keys(q + [m[|m| - 1]]) == Without(Keys(m), k)
  {
    var ks := Keys(m);
    assert ks[..|ks| - 1] == Keys(p);
    KeysAppend(q, m[|m| - 1]);
  }

  /** The last entry holds `k`: what is left of the others is the result. */
  lemma DeleteDrop<V>(m: seq<Entry<V>>, k: string, p: seq<Entry<V>>, q: seq<Entry<V>>)
    requires m != [] && p == m[..|m| - 1] && m[|m| - 1].key == k
    requires forall i | 0 <= i < |q| :: q[i] in p && q[i].key != k
    requires forall i | 0 <= i < |p| && p[i].key != k :: p[i] in q
    requires DistinctKeys(p) ==> DistinctKeys(q)
    ensures forall i | 0 <= i < |q| :: q[i] in m && q[i].key != k
    ensures forall i | 0 <= i < |m| && m[i].key != k :: m[i] in q
    ensures DistinctKeys(m) ==> DistinctKeys(q)
  {
    forall i | 0 <= i < |q| ensures q[i] in m {
      var j :| 0 <= j < |p| && p[j] == q[i];
      assert m[j] == p[j];
    }
    forall i | 0 <= i < |m| && m[i].key != k ensures m[i] in q {
      assert p[i] == m[i];
    }
    if DistinctKeys(m) {
      assert forall i, j | 0 <= i < j < |p| :: p[i] == m[i] && p[j] == m[j];
    }
  }

  /** The last entry does not hold `k`: it stays, after what is left of the others. */
  lemma DeleteKeep<V>(m: seq<Entry<V>>, k: string, p: seq<Entry<V>>, q: seq<Entry<V>>)
    requires m != [] && p == m[..|m| - 1] && m[|m| - 1].key != k
    requires forall i | 0 <= i < |q| :: q[i] in p && q[i].key != k
    requires forall i | 0 <= i < |p| && p[i].key != k :: p[i] in q
    requires DistinctKeys(p) ==> DistinctKeys(q)
    ensures var r := q + [m[|m| - 1]];
      && (forall i | 0 <= i < |r| :: r[i] in m && r[i].key != k)
      && (forall i | 0 <= i < |m| && m[i].key != k :: m[i] in r)
      && (DistinctKeys(m) ==> DistinctKeys(r))
  {
    var last := m[|m| - 1];
    var r := q + [last];
    forall i | 0 <= i < |r| ensures r[i] in m && r[i].key != k {
      if i < |q| {
        assert r[i] == q[i];
        var j :| 0 <= j < |p| && p[j] == q[i];
        assert m[j] == p[j];
      } else {
        assert r[i] == last;
      }
    }
    forall i | 0 <= i < |m| && m[i].key != k ensures m[i] in r {
      if i < |p| {
        assert p[i] == m[i];
      } else {
        assert r[|q|] == m[i];
      }
    }
    assert m == p + [last];
    DeleteDistinct(m, p, q, last);
  }

  lemma KeysAppend<V>(m: seq<Entry<V>>, e: Entry<V>)
    ensures Keys(m + [e]) == Keys(m) + [e.key]
  {
  }

  lemma DeleteDistinct<V>(m: seq<Entry<V>>, p: seq<Entry<V>>, q: seq<Entry<V>>, last: Entry<V>)
    requires m == p + [last]
    requires forall i | 0 <= i < |q| :: q[i] in p
    requires DistinctKeys(m) ==> DistinctKeys(q)
    ensures DistinctKeys(m) ==> DistinctKeys(q + [last])
  {
    if DistinctKeys(m) {
      forall j | 0 <= j < |q| ensures q[j].key != last.key {
        var i :| 0 <= i < |p| && p[i] == q[j];
        assert m[i] == p[i] && m[|p|] == last;
      }
    }
  }

  /** After `delete(k)`, `k` is absent and every other key keeps its value. */
  lemma DeleteGet<V>(m: JsMap<V>, k: string, k': string)
    requires DistinctKeys(m)
    ensures Get(Delete(m, k), k') == if k' == k then None else Get(m, k')
  {
    var r := Delete(m, k);
    match Get(r, k') {
      case Some(v) => GetIn(r, k', v); GetIn(m, k', v);
      case None =>
        match Get(m, k') {
          case Some(v) => GetIn(r, k', v); GetIn(m, k', v);
          case None =>
        }
    }
  }

  /** `ks` without the occurrences of `k`. */
  function Without(ks: seq<string>, k: string): (r: seq<string>)
    ensures k !in r
    ensures forall x | x in r :: x in ks
  {
    if ks == [] then []
    else if ks[|ks| - 1] == k then Without(ks[..|ks| - 1], k)
    else Without(ks[..|ks| - 1], k) + [ks[|ks| - 1]]
  }

  lemma {:induction false} WithoutAbsent(ks: seq<string>, k: string)
    requires k !in ks
    ensures Without(ks, k) == ks
  {
    if ks != [] {
      WithoutAbsent(ks[..|ks| - 1], k);
    }
  }

  lemma {:induction false} WithoutSplit(a: seq<string>, b: seq<string>, k: string)
    ensures Without(a + b, k) == Without(a, k) + Without(b, k)
    decreases |b|
  {
    if b == [] {
      assert a + b == a;
    } else {
      assert (a + b)[..|a + b| - 1] == a + b[..|b| - 1];
      WithoutSplit(a, b[..|b| - 1], k);
    }
  }

  /** Looking a key up after one more entry. */
  lemma FindSnoc<V>(m: seq<Entry<V>>, e: Entry<V>, k: string)
    requires DistinctKeys(m + [e])
    ensures Find(m + [e], k) == if e.key == k then |m| else Find(m, k)
  {
    assert (m + [e])[..|m|] == m;
  }

  /** Looking a key up after one more entry; the new entry's key was absent before. */
  lemma GetSnoc<V>(m: seq<Entry<V>>, e: Entry<V>, k: string)
    requires DistinctKeys(m + [e])
    ensures Get(m, e.key) == None
    ensures Get(m + [e], k) == if e.key == k then Some(e.value) else Get(m, k)
  {
    forall j | 0 <= j < |m| ensures m[j].key != e.key {
      assert (m + [e])[j] == m[j];
    }
    FindSnoc(m, e, k);
    if e.key != k && Find(m, k) >= 0 {
      assert (m + [e])[Find(m, k)] == m[Find(m, k)];
    }
  }

  // ----- a `Set<string>` as its elements in insertion order -----

  predicate Distinct(s: seq<string>) {
    forall i, j | 0 <= i < j < |s| :: s[i] != s[j]
  }

  /** `set.add(x)`: a new element goes to the end, a present one changes nothing. */
  function SetAdd(s: seq<string>, x: string): (r: seq<string>)
    ensures Distinct(s) ==> Distinct(r)
    ensures forall y :: y in r <==> y in s || y == x
  {
    if x in s then s else s + [x]
  }

  /** `new Set(xs)`: the elements of `xs` in order of first appearance. */
  function FirstAppearances(xs: seq<string>): (r: seq<string>)
    ensures Distinct(r)
    ensures forall y :: y in r <==> y in xs
    decreases |xs|
  {
    if xs == [] then []
    else
      var init := xs[..|xs| - 1];
      assert xs == init + [xs[|xs| - 1]];
      SetAdd(FirstAppearances(init), xs[|xs| - 1])
  }

  /** The order of first appearance: an element listed before another first
      occurs in `xs` before any occurrence of the other. */
  lemma {:induction false} FirstAppearancesOrder(xs: seq<string>, i: nat, j: nat, k: nat)
    requires i < j < |FirstAppearances(xs)|
    requires k < |xs| && xs[k] == FirstAppearances(xs)[j]
    ensures FirstAppearances(xs)[i] in xs[..k]
    decreases |xs|
  {
    var init, x := xs[..|xs| - 1], xs[|xs| - 1];
    assert xs == init + [x];
    var r0 := FirstAppearances(init);
    assert r0[i] in init;
    if k < |init| {
      assert xs[..k] == init[..k];
      FirstAppearancesOrder(init, i, j, k);
    } else {
      assert xs[..k] == init;
    }
  }
}
