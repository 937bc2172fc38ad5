/** Enumerations of finite sets (the order in which Go ranges over a map is any of them)
    and concatenations along an enumeration. */
module Sequences {
  import opened Wrappers

  ghost predicate NoDuplicates<T>(s: seq<T>) {
    forall i, j | 0 <= i < j < |s| :: s[i] != s[j]
  }

  /** `order` lists every element of `keys` exactly once. */
  ghost predicate Enumerates<T(!new)>(order: seq<T>, keys: set<T>) {
    NoDuplicates(order) && forall x :: x in order <==> x in keys
  }

  /** The order of one `range` loop over a Go map: nothing is known of it except that
      every key comes once. */
  method RangeOver<T(==,!new)>(keys: set<T>) returns (order: seq<T>)
    ensures Enumerates(order, keys)
  {
    var todo := keys;
    order := [];
    while todo != {}
      invariant todo <= keys
      invariant NoDuplicates(order)
      invariant forall x :: x in order <==> x in keys && x !in todo
      decreases |todo|
    {
      var x :| x in todo;
      order := order + [x];
      todo := todo - {x};
    }
  }

  lemma {:induction false} SomeEnumeration<T(!new)>(keys: set<T>) returns (order: seq<T>)
    ensures Enumerates(order, keys)
  {
    order := [];
    if keys != {} {
      var k :| k in keys;
      order := SomeEnumeration(keys - {k});
      order := order + [k];
    }
  }

  /** The elements of `f(order[0])`, then those of `f(order[1])`, and so on. */
  ghost function Concat<K, V>(order: seq<K>, f: K -> seq<V>): seq<V> {
    if order == [] then [] else f(order[0]) + Concat(order[1..], f)
  }

  lemma Regroup<T>(a: seq<T>, b: seq<T>, c: seq<T>)
    ensures a + b + c == a + (b + c)
  {
  }

  lemma {:induction false} ConcatAppend<K, V>(a: seq<K>, b: seq<K>, f: K -> seq<V>)
    ensures Concat(a + b, f) == Concat(a, f) + Concat(b, f)
  {
    if a == [] {
      assert a + b == b;
    } else {
      assert (a + b)[1..] == a[1..] + b;
      ConcatAppend(a[1..], b, f);
    }
  }

  lemma ConcatSnoc<K, V>(a: seq<K>, x: K, f: K -> seq<V>)
    ensures Concat(a + [x], f) == Concat(a, f) + f(x)
  {
    ConcatAppend(a, [x], f);
    assert Concat([x], f) == f(x) + Concat([], f);
  }

  lemma {:induction false} ConcatCongruence<K, V>(order: seq<K>, f: K -> seq<V>, g: K -> seq<V>)
    requires forall x | x in order :: f(x) == g(x)
    ensures Concat(order, f) == Concat(order, g)
  {
    if order != [] {
      ConcatCongruence(order[1..], f, g);
    }
  }

  lemma {:induction false} EnumerationSize<K(!new)>(s: seq<K>, keys: set<K>)
    requires Enumerates(s, keys)
    ensures |s| == |keys|
  {
    if s == [] {
      assert keys == {};
    } else {
      WithoutOne(s, 0, keys);
      assert s[..0] + s[1..] == s[1..];
      assert s[0] in s;
      EnumerationSize(s[1..], keys - {s[0]});
    }
  }

  /** Two enumerations of one set give the same bag of elements. */
  lemma {:induction false} ConcatPermuted<K(!new), V>(a: seq<K>, b: seq<K>, keys: set<K>, f: K -> seq<V>)
    requires Enumerates(a, keys) && Enumerates(b, keys)
    ensures multiset(Concat(a, f)) == multiset(Concat(b, f))
    decreases |a|
  {
    if a == [] {
      EnumerationSize(a, keys);
      EnumerationSize(b, keys);
    } else {
      var x := a[0];
      assert x in b;
      var j :| 0 <= j < |b| && b[j] == x;
      WithoutOne(a, 0, keys);
      WithoutOne(b, j, keys);
      ConcatExtract(b, j, f);
      assert a[..0] + a[1..] == a[1..];
      ConcatPermuted(a[1..], b[..j] + b[j + 1..], keys - {x}, f);
    }
  }

  lemma ConcatExtract<K, V>(s: seq<K>, j: nat, f: K -> seq<V>)
    requires j < |s|
    ensures multiset(Concat(s, f)) == multiset(f(s[j])) + multiset(Concat(s[..j] + s[j + 1..], f))
  {
    SplitAround(s, j);
    ConcatAround(s[..j], s[j], s[j + 1..], f);
  }

  lemma SplitAround<K>(s: seq<K>, j: nat)
    requires j < |s|
    ensures s == s[..j] + [s[j]] + s[j + 1..]
  {
  }

  lemma ConcatAround<K, V>(a: seq<K>, x: K, b: seq<K>, f: K -> seq<V>)
    ensures multiset(Concat(a + [x] + b, f)) == multiset(f(x)) + multiset(Concat(a + b, f))
  {
    ConcatSnoc(a, x, f);
    ConcatAppend(a + [x], b, f);
    ConcatAppend(a, b, f);
    MultisetOfMiddle(Concat(a, f), f(x), Concat(b, f));
  }

  lemma MultisetOfMiddle<V>(p: seq<V>, q: seq<V>, r: seq<V>)
    ensures multiset(p + q + r) == multiset(q) + multiset(p + r)
  {
  }

  lemma WithoutOne<K(!new)>(s: seq<K>, j: nat, keys: set<K>)
    requires Enumerates(s, keys) && j < |s|
    ensures Enumerates(s[..j] + s[j + 1..], keys - {s[j]})
  {
    var t := s[..j] + s[j + 1..];
    forall k | 0 <= k < |t| ensures t[k] == s[if k < j then k else k + 1] {}
    forall x ensures x in t <==> x in keys - {s[j]} {
      if x in keys - {s[j]} {
        var i :| 0 <= i < |s| && s[i] == x;
        assert t[if i < j then i else i - 1] == x;
      }
    }
  }

  lemma Overridden<K, V>(base: map<K, V>, over: map<K, V>, m: map<K, V>)
    requires forall k :: k in m <==> k in base || k in over
    requires forall k | k in m :: m[k] == if k in over then over[k] else base[k]
    ensures m == base + over
  {
  }

  lemma Overwrite<K, V>(m: map<K, V>, k: K, x: V, y: V)
    ensures m[k := x][k := y] == m[k := y]
  {
  }

  ghost function Map<A, B>(f: A -> B, s: seq<A>): (r: seq<B>)
    ensures |r| == |s| && forall i | 0 <= i < |s| :: r[i] == f(s[i])
  {
    seq(|s|, i requires 0 <= i < |s| => f(s[i]))
  }

  /** `worlds` are the states before, between and after `actions`, each a step. */
  ghost predicate Chain<A, W>(step: (W, A, W) -> bool, actions: seq<A>, worlds: seq<W>) {
    && |worlds| == |actions| + 1
    && forall i | 0 <= i < |actions| :: step(worlds[i], actions[i], worlds[i + 1])
  }

  lemma ChainAppend<A, W>(step: (W, A, W) -> bool, a: seq<A>, v: seq<W>, b: seq<A>, w: seq<W>)
    requires Chain(step, a, v) && Chain(step, b, w) && v[|a|] == w[0]
    ensures Chain(step, a + b, v + w[1..])
    ensures (v + w[1..])[|a + b|] == w[|b|]
  {
    var actions, worlds := a + b, v + w[1..];
    forall i | 0 <= i < |actions| ensures step(worlds[i], actions[i], worlds[i + 1]) {
      if i >= |a| {
        assert step(w[i - |a|], b[i - |a|], w[i - |a| + 1]);
      }
    }
  }

  ghost function Selected<K, V>(m: map<K, V>, p: V -> bool): set<K> {
    set k | k in m && p(m[k])
  }

  lemma SelectedAfterUpdate<K, V>(m: map<K, V>, p: V -> bool, k: K, v: V)
    requires k in m
    ensures |Selected(m[k := v], p)| == |Selected(m, p)| - (if p(m[k]) then 1 else 0) + if p(v) then 1 else 0
  {
    var others := Selected(m, p) - {k};
    assert Selected(m, p) == others + if p(m[k]) then {k} else {};
    assert Selected(m[k := v], p) == others + if p(v) then {k} else {};
  }

  /** The last of the first `n` places that is marked. */
  ghost function LastMark(marks: seq<bool>, n: nat): (r: Option<nat>)
    requires n <= |marks|
    ensures r.Some? ==> r.value < n && marks[r.value] && forall j | r.value < j < n :: !marks[j]
    ensures r.None? ==> forall j | 0 <= j < n :: !marks[j]
  {
    if n == 0 then None else if marks[n - 1] then Some(n - 1) else LastMark(marks, n - 1)
  }

  /** A variable written at the marked places holds what was written last. */
  lemma {:induction false} LastWrite<V>(marks: seq<bool>, written: seq<V>, values: seq<V>, n: nat)
    requires n <= |marks| == |written| && |values| == |marks| + 1
    requires forall i | 0 <= i < |marks| :: values[i + 1] == if marks[i] then written[i] else values[i]
    ensures values[n] == match LastMark(marks, n) case None => values[0] case Some(i) => written[i]
  {
    if n > 0 {
      LastWrite(marks, written, values, n - 1);
    }
  }
}
