/** Lists that are gathered from parts, filtered by a key, and put together again group by group. */
module Grouping {
  import opened Ordering

  /** The parts that `f` makes of each element, one after the other. */
  function Gather<S, T>(f: S -> seq<T>, s: seq<S>): seq<T> {
    if s == [] then [] else Gather(f, s[..|s| - 1]) + f(s[|s| - 1])
  }

  lemma GatherStep<S, T>(f: S -> seq<T>, s: seq<S>, x: S)
    ensures Gather(f, s + [x]) == Gather(f, s) + f(x)
  {
    assert (s + [x])[..|s|] == s;
  }

  lemma GatherTwo<S, T>(f: S -> seq<T>, x: S, y: S)
    ensures Gather(f, [x, y]) == f(x) + f(y)
  {
    assert [x, y] == [x] + [y] && [x] == [] + [x];
    GatherStep(f, [x], y);
    GatherStep(f, [], x);
    assert [] + f(x) == f(x);
  }

  lemma {:induction false} GatherWithout<S, T>(f: S -> seq<T>, s: seq<S>, k: nat)
    requires k < |s|
    ensures multiset(Gather(f, s)) == multiset(Gather(f, s[..k] + s[k + 1..])) + multiset(f(s[k]))
  {
    var n := |s| - 1;
    if k == n {
      assert s[..k] + s[k + 1..] == s[..n];
    } else {
      var init := s[..n];
      GatherWithout(f, init, k);
      GatherStep(f, init[..k] + init[k + 1..], s[n]);
      assert s[..k] + s[k + 1..] == (init[..k] + init[k + 1..]) + [s[n]];
    }
  }

  lemma WithoutMultiset<S>(s: seq<S>, k: nat)
    requires k < |s|
    ensures multiset(s[..k] + s[k + 1..]) == multiset(s) - multiset{s[k]}
  {
    assert s == s[..k] + [s[k]] + s[k + 1..];
  }

  /** Gathering from a permutation gives a permutation. */
  lemma {:induction false} GatherPermuted<S, T>(f: S -> seq<T>, s: seq<S>, t: seq<S>)
    requires multiset(s) == multiset(t)
    ensures multiset(Gather(f, s)) == multiset(Gather(f, t))
    decreases |s|
  {
    if s == [] {
      assert |multiset(t)| == 0;
    } else {
      var n := |s| - 1;
      assert s[n] in multiset(t);
      var k :| 0 <= k < |t| && t[k] == s[n];
      WithoutMultiset(t, k);
      WithoutMultiset(s, n);
      assert s[..n] + s[n + 1..] == s[..n];
      GatherPermuted(f, s[..n], t[..k] + t[k + 1..]);
      GatherWithout(f, t, k);
    }
  }

  lemma {:induction false} GatherMembers<S, T>(f: S -> seq<T>, s: seq<S>, y: T)
    ensures y in Gather(f, s) <==> exists x :: x in s && y in f(x)
  {
    if s != [] {
      GatherMembers(f, s[..|s| - 1], y);
      assert s == s[..|s| - 1] + [s[|s| - 1]];
    }
  }

  /* ---------- groups ---------- */

  /** The elements with a key, in order. */
  function Having<T, K(==)>(key: T -> K, k: K, s: seq<T>): seq<T> {
    if s == [] then [] else
    var last := s[|s| - 1];
    Having(key, k, s[..|s| - 1]) + if key(last) == k then [last] else []
  }

  lemma HavingStep<T, K>(key: T -> K, k: K, s: seq<T>, x: T)
    ensures Having(key, k, s + [x]) == Having(key, k, s) + if key(x) == k then [x] else []
  {
    assert (s + [x])[..|s|] == s;
  }

  lemma {:induction false} HavingMembers<T, K>(key: T -> K, k: K, s: seq<T>, x: T)
    ensures x in Having(key, k, s) <==> x in s && key(x) == k
  {
    if s != [] {
      HavingMembers(key, k, s[..|s| - 1], x);
      assert s == s[..|s| - 1] + [s[|s| - 1]];
    }
  }

  lemma {:induction false} HavingCount<T, K>(key: T -> K, k: K, s: seq<T>, x: T)
    ensures multiset(Having(key, k, s))[x] == if key(x) == k then multiset(s)[x] else 0
  {
    if s != [] {
      HavingCount(key, k, s[..|s| - 1], x);
      assert s == s[..|s| - 1] + [s[|s| - 1]];
    }
  }

  lemma HavingPermuted<T(!new), K>(key: T -> K, k: K, s: seq<T>, t: seq<T>)
    requires multiset(s) == multiset(t)
    ensures multiset(Having(key, k, s)) == multiset(Having(key, k, t))
  {
    forall x ensures multiset(Having(key, k, s))[x] == multiset(Having(key, k, t))[x] {
      HavingCount(key, k, s, x);
      HavingCount(key, k, t, x);
    }
  }

  /** The groups of distinct keys, put one after the other, hold every element with one of the keys once. */
  lemma {:induction false} GroupsPartition<T, K(!new)>(key: T -> K, keys: seq<K>, s: seq<T>, x: T)
    requires Distinct(keys)
    ensures multiset(Gather(k => Having(key, k, s), keys))[x] == if key(x) in keys then multiset(s)[x] else 0
  {
    if keys != [] {
      var n := |keys| - 1;
      GroupsPartition(key, keys[..n], s, x);
      HavingCount(key, keys[n], s, x);
      assert keys == keys[..n] + [keys[n]];
    }
  }

  /** Regrouping a list by keys that cover it permutes it. */
  lemma RegroupPermutes<T(!new), K(!new)>(key: T -> K, keys: seq<K>, s: seq<T>)
    requires Distinct(keys) && forall x :: x in s ==> key(x) in keys
    ensures multiset(Gather(k => Having(key, k, s), keys)) == multiset(s)
  {
    forall x ensures multiset(Gather(k => Having(key, k, s), keys))[x] == multiset(s)[x] {
      GroupsPartition(key, keys, s, x);
      assert multiset(s)[x] > 0 ==> x in s;
    }
  }

  /* ---------- images ---------- */

  function Map<S, T>(f: S -> T, s: seq<S>): (r: seq<T>)
    ensures |r| == |s| && forall i :: 0 <= i < |s| ==> r[i] == f(s[i])
  {
    seq(|s|, i requires 0 <= i < |s| => f(s[i]))
  }

  lemma MapIsGather<S, T>(f: S -> T, s: seq<S>)
    ensures Map(f, s) == Gather(x => [f(x)], s)
  {
    if s != [] {
      MapIsGather(f, s[..|s| - 1]);
    }
  }

  lemma MapPermuted<S, T>(f: S -> T, s: seq<S>, t: seq<S>)
    requires multiset(s) == multiset(t)
    ensures multiset(Map(f, s)) == multiset(Map(f, t))
  {
    MapIsGather(f, s);
    MapIsGather(f, t);
    GatherPermuted(x => [f(x)], s, t);
  }

  lemma MapWithout<S, T>(f: S -> T, s: seq<S>, k: nat)
    requires k < |s|
    ensures Map(f, s[..k] + s[k + 1..]) == Map(f, s)[..k] + Map(f, s)[k + 1..]
    ensures multiset(Map(f, s[..k] + s[k + 1..])) == multiset(Map(f, s)) - multiset{f(s[k])}
    ensures multiset(s[..k] + s[k + 1..]) == multiset(s) - multiset{s[k]}
  {
    assert Map(f, s[..k] + s[k + 1..]) == Map(f, s)[..k] + Map(f, s)[k + 1..];
    WithoutMultiset(s, k);
    WithoutMultiset(Map(f, s), k);
  }

  lemma MapCons<S, T>(f: S -> T, x: S, s: seq<S>)
    ensures Map(f, [x] + s) == [f(x)] + Map(f, s)
  {
  }

  /** A permutation of an image is the image of a permutation. */
  lemma {:induction false} ImagePermuted<S, T>(f: S -> T, s: seq<S>, t: seq<T>) returns (r: seq<S>)
    requires multiset(t) == multiset(Map(f, s))
    ensures multiset(r) == multiset(s) && t == Map(f, r)
    decreases |t|
  {
    assert |multiset(t)| == |t| && |multiset(Map(f, s))| == |s|;
    if t == [] {
      r := [];
    } else {
      assert t[0] in multiset(Map(f, s));
      var k :| 0 <= k < |s| && f(s[k]) == t[0];
      assert t == [t[0]] + t[1..];
      MapWithout(f, s, k);
      var x, rest := s[k], s[..k] + s[k + 1..];
      hide Map;
      var others := ImagePermuted(f, rest, t[1..]);
      r := [x] + others;
      MapCons(f, x, others);
    }
  }

  lemma HavingMap<S, T, K>(f: S -> T, key: T -> K, own: S -> K, k: K, s: seq<S>)
    requires forall x :: x in s ==> own(x) == key(f(x))
    ensures Having(key, k, Map(f, s)) == Map(f, Having(own, k, s))
  {
    if s != [] {
      var n := |s| - 1;
      HavingMap(f, key, own, k, s[..n]);
      assert Map(f, s)[..n] == Map(f, s[..n]);
    }
  }

  /* ---------- what is kept of a list ---------- */

  /** `t` shows the elements of `s` that are kept, each once and in order. */
  ghost predicate Picked<A, B>(s: seq<A>, keep: A -> bool, shows: (A, B) -> bool, t: seq<B>)
    decreases |s|
  {
    if s == [] then t == []
    else if keep(s[0]) then t != [] && shows(s[0], t[0]) && Picked(s[1..], keep, shows, t[1..])
    else Picked(s[1..], keep, shows, t)
  }

  /* ---------- distinct keys ---------- */

  ghost predicate DistinctBy<T, K>(key: T -> K, s: seq<T>) {
    forall i, j :: 0 <= i < j < |s| ==> key(s[i]) != key(s[j])
  }

  lemma Twice<T>(s: seq<T>, i: nat, j: nat)
    requires i < j < |s| && s[i] == s[j]
    ensures multiset(s)[s[i]] >= 2
  {
    assert s == s[..i] + [s[i]] + s[i + 1..j] + [s[j]] + s[j + 1..];
  }

  lemma Once<T, K>(key: T -> K, s: seq<T>, x: T)
    requires DistinctBy(key, s) && x in s
    ensures multiset(s)[x] == 1
  {
    var k :| 0 <= k < |s| && s[k] == x;
    assert s == s[..k] + [s[k]] + s[k + 1..];
    assert x !in s[..k] && x !in s[k + 1..];
  }

  /** Distinct keys stay distinct when the list is permuted. */
  lemma DistinctByPermuted<T, K>(key: T -> K, s: seq<T>, t: seq<T>)
    requires DistinctBy(key, s) && multiset(s) == multiset(t)
    ensures DistinctBy(key, t)
  {
    forall i, j | 0 <= i < j < |t| ensures key(t[i]) != key(t[j]) {
      assert t[i] in multiset(s) && t[j] in multiset(s);
      Once(key, s, t[i]);
      var k :| 0 <= k < |s| && s[k] == t[i];
      var l :| 0 <= l < |s| && s[l] == t[j];
      if t[i] == t[j] {
        Twice(t, i, j);
      }
    }
  }

  lemma SameMembers<T>(s: seq<T>, t: seq<T>, x: T)
    requires multiset(s) == multiset(t)
    ensures x in s <==> x in t
  {
    assert x in s <==> x in multiset(s);
    assert x in t <==> x in multiset(t);
  }
}
