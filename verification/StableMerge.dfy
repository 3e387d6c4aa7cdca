/**
 * Lists that are gathered from parts and sorted stably by a key that need not be unique: when the result
 * does not depend on the order of the parts.
 */
module StableMerge {
  import opened Ordering
  import opened Grouping

  /** Sort keys are pairs, compared from the left. */
  type Key = (string, string)

  predicate PairLe(a: Key, b: Key) {
    if a.0 == b.0 then StringLe(a.1, b.1) else StringLe(a.0, b.0)
  }

  function Order<T(!new)>(key: T -> Key): (T, T) -> bool {
    (x, y) => PairLe(key(x), key(y))
  }

  /** Pairs are compared by their first parts and, where these are equal, by their second ones. */
  lemma PairLeMeans(a: Key, b: Key)
    ensures PairLe(a, b) <==> Alphabetical(a.0, b.0) && (a.0 == b.0 ==> Alphabetical(a.1, b.1))
  {
    StringLeMeans(a.0, b.0);
    StringLeMeans(a.1, b.1);
    StringLeTotal(a.0, a.0);
  }

  lemma PairLeOrders(a: Key, b: Key, c: Key)
    ensures PairLe(a, b) || PairLe(b, a)
    ensures PairLe(a, b) && PairLe(b, a) ==> a == b
    ensures PairLe(a, b) && PairLe(b, c) ==> PairLe(a, c)
  {
    StringLeTotal(a.0, b.0);
    StringLeTotal(a.1, b.1);
    if StringLe(a.0, b.0) && StringLe(b.0, a.0) { StringLeAntisymmetric(a.0, b.0); }
    if StringLe(a.1, b.1) && StringLe(b.1, a.1) { StringLeAntisymmetric(a.1, b.1); }
    if PairLe(a, b) && PairLe(b, c) {
      if StringLe(a.0, b.0) && StringLe(b.0, c.0) { StringLeTransitive(a.0, b.0, c.0); }
      if StringLe(a.1, b.1) && StringLe(b.1, c.1) { StringLeTransitive(a.1, b.1, c.1); }
      if a.0 == c.0 && a.0 != b.0 { StringLeAntisymmetric(a.0, b.0); }
    }
  }

  lemma OrderIsPreorder<T(!new)>(key: T -> Key)
    ensures Preorder(Order(key))
  {
    forall x: T, y: T ensures Order(key)(x, y) || Order(key)(y, x) {
      PairLeOrders(key(x), key(y), key(x));
    }
    forall x: T, y: T, z: T | Order(key)(x, y) && Order(key)(y, z) ensures Order(key)(x, z) {
      PairLeOrders(key(x), key(y), key(z));
    }
  }

  /* ---------- stability ---------- */

  /** The element itself, if it has the key. */
  function Only<T>(key: T -> Key, k: Key, x: T): seq<T> {
    if key(x) == k then [x] else []
  }

  lemma {:induction false} HavingCons<T>(key: T -> Key, k: Key, x: T, s: seq<T>)
    ensures Having(key, k, [x] + s) == Only(key, k, x) + Having(key, k, s)
  {
    if s == [] {
      assert [x] + s == [x] && [x][..0] == [];
    } else {
      var n := |s| - 1;
      HavingCons(key, k, x, s[..n]);
      assert ([x] + s)[..n + 1] == [x] + s[..n];
    }
  }

  lemma {:induction false} InsertIsStable<T(!new)>(key: T -> Key, k: Key, x: T, s: seq<T>)
    ensures Having(key, k, Insert(Order(key), x, s)) == Only(key, k, x) + Having(key, k, s)
  {
    if s == [] || Order(key)(x, s[0]) {
      HavingCons(key, k, x, s);
    } else {
      PairLeOrders(key(x), key(s[0]), key(x));
      assert key(x) != key(s[0]);
      var r := Insert(Order(key), x, s[1..]);
      assert Insert(Order(key), x, s) == [s[0]] + r;
      assert s == [s[0]] + s[1..];
      InsertIsStable(key, k, x, s[1..]);
      hide Having, PairLe, Insert, Order, Only;
      HavingCons(key, k, s[0], r);
      HavingCons(key, k, s[0], s[1..]);
      OnlyOneHas(key, k, x, s[0], Having(key, k, s[1..]));
    }
  }

  lemma OnlyOneHas<T>(key: T -> Key, k: Key, x: T, y: T, rest: seq<T>)
    requires key(x) != key(y)
    ensures Only(key, k, y) + (Only(key, k, x) + rest) == Only(key, k, x) + (Only(key, k, y) + rest)
  {
    assert [] + rest == rest;
  }

  /** Sorting keeps the elements with one key in their order. */
  lemma {:induction false} SortIsStable<T(!new)>(key: T -> Key, k: Key, s: seq<T>)
    ensures Having(key, k, Sort(Order(key), s)) == Having(key, k, s)
  {
    if s != [] {
      SortIsStable(key, k, s[1..]);
      InsertIsStable(key, k, s[0], Sort(Order(key), s[1..]));
      HavingCons(key, k, s[0], s[1..]);
      assert s == [s[0]] + s[1..];
    }
  }

  ghost predicate SameRuns<T(!new)>(key: T -> Key, s: seq<T>, t: seq<T>) {
    forall k :: Having(key, k, s) == Having(key, k, t)
  }

  lemma {:induction false} SortedByRuns<T(!new)>(key: T -> Key, s: seq<T>, t: seq<T>)
    requires Sorted(Order(key), s) && Sorted(Order(key), t) && SameRuns(key, s, t)
    ensures s == t
  {
    if s == [] {
      if t != [] {
        HavingMembers(key, key(t[0]), t, t[0]);
        HavingMembers(key, key(t[0]), s, t[0]);
      }
    } else {
      HavingMembers(key, key(s[0]), s, s[0]);
      HavingMembers(key, key(s[0]), t, s[0]);
      SameHead(key, s, t);
      SameTails(key, s, t);
      SortedByRuns(key, s[1..], t[1..]);
      assert s == [s[0]] + s[1..] && t == [t[0]] + t[1..];
    }
  }

  lemma SameTails<T(!new)>(key: T -> Key, s: seq<T>, t: seq<T>)
    requires s != [] && t != [] && s[0] == t[0] && SameRuns(key, s, t)
    ensures SameRuns(key, s[1..], t[1..])
  {
    hide Having;
    assert s == [s[0]] + s[1..] && t == [t[0]] + t[1..];
    forall k ensures Having(key, k, s[1..]) == Having(key, k, t[1..]) {
      HavingCons(key, k, s[0], s[1..]);
      HavingCons(key, k, t[0], t[1..]);
      Cancel(Only(key, k, s[0]), Having(key, k, s[1..]), Having(key, k, t[1..]));
    }
  }

  lemma Cancel<T>(head: seq<T>, a: seq<T>, b: seq<T>)
    requires head + a == head + b
    ensures a == b
  {
    assert (head + a)[|head|..] == a && (head + b)[|head|..] == b;
  }

  lemma SameHead<T(!new)>(key: T -> Key, s: seq<T>, t: seq<T>)
    requires s != [] && t != [] && Sorted(Order(key), s) && Sorted(Order(key), t) && SameRuns(key, s, t)
    ensures s[0] == t[0]
  {
    var x, y := s[0], t[0];
    HavingMembers(key, key(x), s, x);
    HavingMembers(key, key(x), t, x);
    HavingMembers(key, key(y), t, y);
    HavingMembers(key, key(y), s, y);
    hide Having, PairLe, Sorted;
    OrderIsPreorder(key);
    HeadIsLeast(Order(key), t, x);
    HeadIsLeast(Order(key), s, y);
    PairLeOrders(key(x), key(y), key(x));
    assert s == [x] + s[1..] && t == [y] + t[1..];
    HavingCons(key, key(x), x, s[1..]);
    HavingCons(key, key(x), y, t[1..]);
    assert Having(key, key(x), s)[0] == x && Having(key, key(x), t)[0] == y;
  }

  /** Two lists sort to the same list exactly when they agree on the order within every key. */
  lemma SortsAgreeExactly<T(!new)>(key: T -> Key, s: seq<T>, t: seq<T>)
    ensures Sort(Order(key), s) == Sort(Order(key), t) <==> SameRuns(key, s, t)
  {
    forall k
      ensures Having(key, k, Sort(Order(key), s)) == Having(key, k, s)
      ensures Having(key, k, Sort(Order(key), t)) == Having(key, k, t)
    {
      SortIsStable(key, k, s);
      SortIsStable(key, k, t);
    }
    OrderIsPreorder(key);
    SortSorted(Order(key), s);
    SortSorted(Order(key), t);
    if SameRuns(key, s, t) {
      SortedByRuns(key, Sort(Order(key), s), Sort(Order(key), t));
    }
  }

  /** Earlier elements stand in the relation to later ones. */
  ghost predicate Pairwise<T(!new)>(before: (T, T) -> bool, s: seq<T>) {
    forall i, j :: 0 <= i < j < |s| ==> before(s[i], s[j])
  }

  lemma {:induction false} HavingPairwise<T(!new)>(before: (T, T) -> bool, key: T -> Key, k: Key, s: seq<T>)
    requires Pairwise(before, s)
    ensures Pairwise(before, Having(key, k, s))
  {
    if s != [] {
      var n := |s| - 1;
      HavingPairwise(before, key, k, s[..n]);
      forall x | x in Having(key, k, s[..n]) ensures before(x, s[n]) {
        HavingMembers(key, k, s[..n], x);
        var i :| 0 <= i < n && s[..n][i] == x;
        assert before(s[i], s[n]);
      }
    }
  }

  /** Elements with one key stand in the relation, if those of every run do. */
  lemma {:induction false} RunsPairwise<T(!new)>(before: (T, T) -> bool, key: T -> Key, s: seq<T>)
    requires forall k :: Pairwise(before, Having(key, k, s))
    ensures forall i, j :: 0 <= i < j < |s| && key(s[i]) == key(s[j]) ==> before(s[i], s[j])
  {
    if s != [] {
      var n := |s| - 1;
      var init, last := s[..n], s[n];
      forall k ensures Pairwise(before, Having(key, k, init)) {
        assert Having(key, k, s) == Having(key, k, init) + Only(key, k, last);
        PairwisePrefix(before, Having(key, k, init), Only(key, k, last));
      }
      RunsPairwise(before, key, init);
      forall i | 0 <= i < n && key(s[i]) == key(last) ensures before(s[i], last) {
        var run := Having(key, key(last), init);
        HavingMembers(key, key(last), init, init[i]);
        var j :| 0 <= j < |run| && run[j] == s[i];
        assert Having(key, key(last), s) == run + [last];
        assert (run + [last])[j] == s[i] && (run + [last])[|run|] == last;
      }
      hide Having;
      forall i, j | 0 <= i < j < |s| && key(s[i]) == key(s[j]) ensures before(s[i], s[j]) {
        if j < n {
          assert before(init[i], init[j]);
        }
      }
    }
  }

  lemma PairwisePrefix<T(!new)>(before: (T, T) -> bool, s: seq<T>, t: seq<T>)
    requires Pairwise(before, s + t)
    ensures Pairwise(before, s)
  {
    assert forall i :: 0 <= i < |s| ==> s[i] == (s + t)[i];
  }

  /** A sorted list: by its keys, and where they are equal in the order it was given in. */
  lemma SortKeepsTies<T(!new)>(before: (T, T) -> bool, key: T -> Key, s: seq<T>)
    requires Pairwise(before, s)
    ensures var r := Sort(Order(key), s);
            forall i, j :: 0 <= i < j < |r| ==> PairLe(key(r[i]), key(r[j])) && (key(r[i]) == key(r[j]) ==> before(r[i], r[j]))
  {
    var r := Sort(Order(key), s);
    OrderIsPreorder(key);
    SortSorted(Order(key), s);
    forall k ensures Pairwise(before, Having(key, k, r)) {
      SortIsStable(key, k, s);
      HavingPairwise(before, key, k, s);
    }
    RunsPairwise(before, key, r);
    assert forall i, j :: 0 <= i < j < |r| ==> Order(key)(r[i], r[j]);
  }

  /* ---------- gathering in any order ---------- */

  /** The elements with one key that a part contributes. */
  function RunOf<S, T>(f: S -> seq<T>, key: T -> Key, k: Key): S -> seq<T> {
    x => Having(key, k, f(x))
  }

  lemma {:induction false} GatherRuns<S, T>(f: S -> seq<T>, key: T -> Key, k: Key, parts: seq<S>)
    ensures Having(key, k, Gather(f, parts)) == Gather(RunOf(f, key, k), parts)
  {
    if parts != [] {
      GatherRuns(f, key, k, parts[..|parts| - 1]);
      HavingConcat(key, k, Gather(f, parts[..|parts| - 1]), f(parts[|parts| - 1]));
    }
  }

  lemma {:induction false} HavingConcat<T, K>(key: T -> K, k: K, s: seq<T>, t: seq<T>)
    ensures Having(key, k, s + t) == Having(key, k, s) + Having(key, k, t)
  {
    if t == [] {
      assert s + t == s;
    } else {
      var n := |t| - 1;
      HavingConcat(key, k, s, t[..n]);
      assert s + t == (s + t[..n]) + [t[n]];
      HavingStep(key, k, s + t[..n], t[n]);
    }
  }

  /** The words that `f` makes of any two parts commute. */
  ghost predicate Commute<S(!new), T>(f: S -> seq<T>, parts: seq<S>) {
    forall x, y :: x in parts && y in parts ==> f(x) + f(y) == f(y) + f(x)
  }

  lemma {:induction false} CommuteWithAll<S, T>(f: S -> seq<T>, x: S, parts: seq<S>)
    requires forall y :: y in parts ==> f(x) + f(y) == f(y) + f(x)
    ensures f(x) + Gather(f, parts) == Gather(f, parts) + f(x)
  {
    if parts == [] {
      assert f(x) + [] == f(x) == [] + f(x);
    } else {
      var init, y := parts[..|parts| - 1], parts[|parts| - 1];
      CommuteWithAll(f, x, init);
      var g := Gather(f, init);
      assert f(x) + (g + f(y)) == (f(x) + g) + f(y);
      assert (g + f(x)) + f(y) == g + (f(x) + f(y));
      assert g + (f(y) + f(x)) == (g + f(y)) + f(x);
    }
  }

  lemma {:induction false} GatherConcat<S, T>(f: S -> seq<T>, s: seq<S>, t: seq<S>)
    ensures Gather(f, s + t) == Gather(f, s) + Gather(f, t)
  {
    if t == [] {
      assert s + t == s;
    } else {
      var n := |t| - 1;
      var init, x := t[..n], t[n];
      GatherConcat(f, s, init);
      assert Gather(f, t) == Gather(f, init) + f(x);
      hide Gather;
      assert s + t == (s + init) + [x];
      GatherStep(f, s + init, x);
      var a, b, c := Gather(f, s), Gather(f, init), f(x);
      assert (a + b) + c == a + (b + c);
    }
  }

  /** The last element of one list, where it stands in a permutation of the list. */
  lemma LastElsewhere<S>(s: seq<S>, t: seq<S>) returns (left: seq<S>, right: seq<S>)
    requires s != [] && multiset(s) == multiset(t)
    ensures t == left + [s[|s| - 1]] + right && multiset(s[..|s| - 1]) == multiset(left + right)
  {
    var n := |s| - 1;
    SameMembers(s, t, s[n]);
    var k :| 0 <= k < |t| && t[k] == s[n];
    left, right := t[..k], t[k + 1..];
    WithoutMultiset(t, k);
    WithoutMultiset(s, n);
    assert s[..n] + s[n + 1..] == s[..n];
    assert t == left + [s[n]] + right;
  }

  /** Commuting words can be gathered in any order. */
  lemma {:induction false} CommutingGather<S(!new), T>(f: S -> seq<T>, s: seq<S>, t: seq<S>)
    requires multiset(s) == multiset(t) && Commute(f, s)
    ensures Gather(f, s) == Gather(f, t)
    decreases |s|
  {
    if s == [] {
      assert |multiset(t)| == 0;
    } else {
      var n := |s| - 1;
      var x := s[n];
      var left, right := LastElsewhere(s, t);
      CommutingGather(f, s[..n], left + right);
      forall y | y in right ensures f(x) + f(y) == f(y) + f(x) {
        SameMembers(s, t, y);
      }
      MoveToEnd(f, left, x, right);
    }
  }

  lemma MoveToEnd<S, T>(f: S -> seq<T>, left: seq<S>, x: S, right: seq<S>)
    requires forall y :: y in right ==> f(x) + f(y) == f(y) + f(x)
    ensures Gather(f, left + [x] + right) == Gather(f, left + right) + f(x)
  {
    hide Gather;
    CommuteWithAll(f, x, right);
    GatherConcat(f, left + [x], right);
    GatherStep(f, left, x);
    GatherConcat(f, left, right);
    var u, v, w := Gather(f, left), f(x), Gather(f, right);
    assert (u + v) + w == u + (v + w) && (u + w) + v == u + (w + v);
  }

  lemma TwoFirst<S>(parts: seq<S>, i: nat, j: nat) returns (rest: seq<S>)
    requires i < j < |parts|
    ensures multiset([parts[i], parts[j]] + rest) == multiset(parts)
    ensures multiset([parts[j], parts[i]] + rest) == multiset(parts)
  {
    var x, y := parts[i], parts[j];
    var a, b, c := parts[..i], parts[i + 1..j], parts[j + 1..];
    rest := a + b + c;
    assert parts == a + [x] + b + [y] + c;
    assert multiset([x, y] + rest) == multiset{x} + multiset{y} + multiset(a) + multiset(b) + multiset(c);
    assert multiset([y, x] + rest) == multiset{x} + multiset{y} + multiset(a) + multiset(b) + multiset(c);
  }

  lemma TwoGathered<S, T>(f: S -> seq<T>, x: S, y: S, rest: seq<S>)
    requires Gather(f, [x, y] + rest) == Gather(f, [y, x] + rest)
    ensures f(x) + f(y) == f(y) + f(x)
  {
    hide Gather;
    GatherConcat(f, [x, y], rest);
    GatherConcat(f, [y, x], rest);
    GatherTwo(f, x, y);
    GatherTwo(f, y, x);
    var u, v, w := f(x) + f(y), f(y) + f(x), Gather(f, rest);
    assert (u + w)[..|u|] == u && (v + w)[..|v|] == v;
  }

  /** Gathering is free of order only if all words commute. */
  lemma OrderFreeMeansCommuting<S(!new), T>(f: S -> seq<T>, parts: seq<S>)
    requires forall t :: multiset(t) == multiset(parts) ==> Gather(f, t) == Gather(f, parts)
    ensures Commute(f, parts)
  {
    hide Gather;
    forall i, j | 0 <= i < j < |parts| ensures f(parts[i]) + f(parts[j]) == f(parts[j]) + f(parts[i]) {
      var rest := TwoFirst(parts, i, j);
      TwoGathered(f, parts[i], parts[j], rest);
    }
  }

  /** The parts' elements with any one key commute as words. */
  ghost predicate RunsCommute<S(!new), T(!new)>(f: S -> seq<T>, key: T -> Key, parts: seq<S>) {
    forall k :: Commute(RunOf(f, key, k), parts)
  }

  /** What gathering and sorting make of the parts. */
  function Merged<S(!new), T(!new)>(f: S -> seq<T>, key: T -> Key, parts: seq<S>): seq<T> {
    Sort(Order(key), Gather(f, parts))
  }

  /**
   * The merge is free of order, exactly: every permutation of the parts merges to the same list if and
   * only if, key by key, what any two parts contribute commutes.
   */
  lemma MergeForgetsOrderExactly<S(!new), T(!new)>(f: S -> seq<T>, key: T -> Key, parts: seq<S>)
    ensures (forall t :: multiset(t) == multiset(parts) ==> Merged(f, key, t) == Merged(f, key, parts))
       <==> RunsCommute(f, key, parts)
  {
    forall t ensures Merged(f, key, t) == Merged(f, key, parts) <==> SameRuns(key, Gather(f, t), Gather(f, parts)) {
      SortsAgreeExactly(key, Gather(f, t), Gather(f, parts));
    }
    if RunsCommute(f, key, parts) {
      forall t | multiset(t) == multiset(parts) ensures SameRuns(key, Gather(f, t), Gather(f, parts)) {
        CommutingRuns(f, key, parts, t);
      }
    }
    if forall t :: multiset(t) == multiset(parts) ==> Merged(f, key, t) == Merged(f, key, parts) {
      forall k ensures Commute(RunOf(f, key, k), parts) {
        var g := RunOf(f, key, k);
        forall t | multiset(t) == multiset(parts) ensures Gather(g, t) == Gather(g, parts) {
          GatherRuns(f, key, k, t);
          GatherRuns(f, key, k, parts);
          assert Merged(f, key, t) == Merged(f, key, parts);
        }
        OrderFreeMeansCommuting(g, parts);
      }
    }
  }

  lemma CommutingRuns<S(!new), T(!new)>(f: S -> seq<T>, key: T -> Key, parts: seq<S>, t: seq<S>)
    requires RunsCommute(f, key, parts) && multiset(t) == multiset(parts)
    ensures SameRuns(key, Gather(f, t), Gather(f, parts))
  {
    forall k ensures Having(key, k, Gather(f, t)) == Having(key, k, Gather(f, parts)) {
      GatherRuns(f, key, k, t);
      GatherRuns(f, key, k, parts);
      CommutingGather(RunOf(f, key, k), parts, t);
    }
  }
}
