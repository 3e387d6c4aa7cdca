/**
 * The order of strings, the iteration order of ordered maps and sets, and stable sorting.  Strings
 * compare by Unicode scalar value, which is the order of their UTF-8 bytes.
 */
module Ordering {

  predicate StringLe(a: string, b: string) {
    a == "" || (b != "" && (a[0] < b[0] || (a[0] == b[0] && StringLe(a[1..], b[1..]))))
  }

  lemma {:induction false} StringLeTotal(a: string, b: string)
    ensures StringLe(a, b) || StringLe(b, a)
  {
    if a != "" && b != "" && a[0] == b[0] {
      StringLeTotal(a[1..], b[1..]);
    }
  }

  lemma {:induction false} StringLeTransitive(a: string, b: string, c: string)
    requires StringLe(a, b) && StringLe(b, c)
    ensures StringLe(a, c)
  {
    if a != "" && a[0] == b[0] && b[0] == c[0] {
      StringLeTransitive(a[1..], b[1..], c[1..]);
    }
  }

  lemma {:induction false} StringLeAntisymmetric(a: string, b: string)
    requires StringLe(a, b) && StringLe(b, a)
    ensures a == b
  {
    if a != "" {
      StringLeAntisymmetric(a[1..], b[1..]);
      assert a == [a[0]] + a[1..] && b == [b[0]] + b[1..];
    }
  }

  /** The one starts the other, or the first character in which they differ is smaller. */
  ghost predicate Alphabetical(a: string, b: string) {
    (|a| <= |b| && b[..|a|] == a) || exists i :: 0 <= i < |a| && i < |b| && a[..i] == b[..i] && a[i] < b[i]
  }

  /** Strings are compared character by character, from the left. */
  lemma {:induction false} StringLeMeans(a: string, b: string)
    ensures StringLe(a, b) <==> Alphabetical(a, b)
  {
    if a != "" && b != "" {
      StringLeMeans(a[1..], b[1..]);
      if a[0] == b[0] {
        AlphabeticalBehind(a, b);
      } else {
        assert a[..0] == b[..0];
        assert forall i :: 0 < i < |a| && i < |b| ==> a[..i][0] == a[0] && b[..i][0] == b[0];
      }
    }
  }

  lemma AlphabeticalBehind(a: string, b: string)
    requires a != "" && b != "" && a[0] == b[0]
    ensures Alphabetical(a, b) <==> Alphabetical(a[1..], b[1..])
  {
    assert a == [a[0]] + a[1..] && b == [b[0]] + b[1..];
    if i :| 0 <= i < |a| && i < |b| && a[..i] == b[..i] && a[i] < b[i] {
      assert a[1..][..i - 1] == a[..i][1..] && b[1..][..i - 1] == b[..i][1..];
    }
    if i :| 0 <= i < |a[1..]| && i < |b[1..]| && a[1..][..i] == b[1..][..i] && a[1..][i] < b[1..][i] {
      assert a[..i + 1] == [a[0]] + a[1..][..i] && b[..i + 1] == [b[0]] + b[1..][..i];
      assert a[i + 1] < b[i + 1];
    }
    if |a| <= |b| && b[..|a|] == a {
      assert b[1..][..|a| - 1] == b[..|a|][1..];
    }
    if |a[1..]| <= |b[1..]| && b[1..][..|a| - 1] == a[1..] {
      assert b[..|a|] == [b[0]] + b[1..][..|a| - 1];
    }
  }

  /* ---------- iteration order of ordered sets and maps ---------- */

  predicate Least(k: string, s: set<string>) {
    k in s && forall x :: x in s ==> StringLe(k, x)
  }

  lemma {:induction false} LeastExists(s: set<string>) returns (k: string)
    requires s != {}
    ensures Least(k, s)
    decreases |s|
  {
    var x :| x in s;
    StringLeTotal(x, x);
    k := x;
    if s != {x} {
      var y := LeastExists(s - {x});
      StringLeTotal(x, y);
      if StringLe(y, x) {
        k := y;
      } else {
        forall z | z in s ensures StringLe(x, z) {
          if z != x { StringLeTransitive(x, y, z); }
        }
      }
    }
  }

  lemma LeastUnique(s: set<string>)
    requires s != {}
    ensures exists k :: Least(k, s)
    ensures forall k, l :: Least(k, s) && Least(l, s) ==> k == l
  {
    var _ := LeastExists(s);
    forall k, l | Least(k, s) && Least(l, s) ensures k == l {
      StringLeAntisymmetric(k, l);
    }
  }

  ghost predicate Distinct<T(!new)>(s: seq<T>) {
    forall i, j :: 0 <= i < j < |s| ==> s[i] != s[j]
  }

  /** The keys of an ordered set or map, in iteration order. */
  function SortedKeys(s: set<string>): (keys: seq<string>)
    ensures Distinct(keys) && |keys| == |s|
    ensures forall x :: x in keys <==> x in s
    ensures forall i, j :: 0 <= i < j < |keys| ==> StringLe(keys[i], keys[j])
    decreases |s|
  {
    if s == {} then [] else
    LeastUnique(s);
    var k :| k in s && Least(k, s);
    [k] + SortedKeys(s - {k})
  }

  /* ---------- stable sorting ---------- */

  /** `le` is a total preorder. */
  ghost predicate Preorder<T(!new)>(le: (T, T) -> bool) {
    (forall x, y :: le(x, y) || le(y, x)) && (forall x, y, z :: le(x, y) && le(y, z) ==> le(x, z))
  }

  ghost predicate Sorted<T(!new)>(le: (T, T) -> bool, s: seq<T>) {
    forall i, j :: 0 <= i < j < |s| ==> le(s[i], s[j])
  }

  function Insert<T>(le: (T, T) -> bool, x: T, s: seq<T>): (r: seq<T>)
    ensures multiset(r) == multiset{x} + multiset(s) && |r| == |s| + 1
  {
    if s == [] || le(x, s[0]) then [x] + s
    else
      assert s == [s[0]] + s[1..];
      [s[0]] + Insert(le, x, s[1..])
  }

  /** A stable sort: elements that compare equal keep their order. */
  function Sort<T>(le: (T, T) -> bool, s: seq<T>): (r: seq<T>)
    ensures multiset(r) == multiset(s) && |r| == |s|
  {
    if s == [] then []
    else
      assert s == [s[0]] + s[1..];
      Insert(le, s[0], Sort(le, s[1..]))
  }

  lemma {:induction false} InsertAlike<T>(le: (T, T) -> bool, same: (T, T) -> bool, x: T, s: seq<T>)
    requires forall a, b :: le(a, b) == same(a, b)
    ensures Insert(le, x, s) == Insert(same, x, s)
  {
    if s != [] {
      InsertAlike(le, same, x, s[1..]);
    }
  }

  /** Orders that agree sort alike. */
  lemma {:induction false} SortAlike<T>(le: (T, T) -> bool, same: (T, T) -> bool, s: seq<T>)
    requires forall a, b :: le(a, b) == same(a, b)
    ensures Sort(le, s) == Sort(same, s)
  {
    if s != [] {
      SortAlike(le, same, s[1..]);
      InsertAlike(le, same, s[0], Sort(le, s[1..]));
    }
  }

  lemma {:induction false} InsertSorted<T(!new)>(le: (T, T) -> bool, x: T, s: seq<T>)
    requires Preorder(le) && Sorted(le, s)
    ensures Sorted(le, Insert(le, x, s))
  {
    if s == [] || le(x, s[0]) {
    } else {
      InsertSorted(le, x, s[1..]);
      var r := Insert(le, x, s[1..]);
      forall j | 0 <= j < |r| ensures le(s[0], r[j]) {
        assert r[j] in multiset(r);
        if r[j] != x {
          assert r[j] in s[1..];
        }
      }
    }
  }

  lemma {:induction false} SortSorted<T(!new)>(le: (T, T) -> bool, s: seq<T>)
    requires Preorder(le)
    ensures Sorted(le, Sort(le, s))
  {
    if s == [] {
    } else {
      SortSorted(le, s[1..]);
      InsertSorted(le, s[0], Sort(le, s[1..]));
    }
  }

  /** Elements of `s` that compare equal are equal. */
  ghost predicate Separates<T(!new)>(le: (T, T) -> bool, s: multiset<T>) {
    forall x, y :: x in s && y in s && le(x, y) && le(y, x) ==> x == y
  }

  lemma HeadIsLeast<T(!new)>(le: (T, T) -> bool, s: seq<T>, x: T)
    requires Preorder(le) && Sorted(le, s) && x in multiset(s)
    ensures s != [] && le(s[0], x)
  {
    assert x in s;
    var i :| 0 <= i < |s| && s[i] == x;
    assert le(x, x);
  }

  lemma TailMultiset<T>(s: seq<T>)
    requires s != []
    ensures multiset(s[1..]) == multiset(s) - multiset{s[0]}
  {
    assert s == [s[0]] + s[1..];
  }

  lemma HeadsAgree<T(!new)>(le: (T, T) -> bool, a: seq<T>, b: seq<T>)
    requires Preorder(le) && Sorted(le, a) && Sorted(le, b) && a != [] && b != []
    requires multiset(a) == multiset(b) && Separates(le, multiset(a))
    ensures a[0] == b[0] && Sorted(le, a[1..]) && Sorted(le, b[1..])
    ensures multiset(a[1..]) == multiset(b[1..]) && Separates(le, multiset(a[1..]))
  {
    assert a[0] in multiset(b) && b[0] in multiset(a);
    HeadIsLeast(le, b, a[0]);
    HeadIsLeast(le, a, b[0]);
    TailMultiset(a);
    TailMultiset(b);
  }

  /** A sorted arrangement is unique when the order tells its elements apart. */
  lemma {:induction false} SortedUnique<T(!new)>(le: (T, T) -> bool, a: seq<T>, b: seq<T>)
    requires Preorder(le) && Sorted(le, a) && Sorted(le, b)
    requires multiset(a) == multiset(b) && Separates(le, multiset(a))
    ensures a == b
  {
    hide Preorder, Sorted, Separates;
    if a == [] {
      assert |multiset(b)| == 0;
    } else {
      assert |multiset(a)| == |multiset(b)|;
      HeadsAgree(le, a, b);
      SortedUnique(le, a[1..], b[1..]);
      assert a == [a[0]] + a[1..] && b == [b[0]] + b[1..];
    }
  }

  /** Sorting forgets the order of its input when the order tells the elements apart. */
  lemma SortPermutation<T(!new)>(le: (T, T) -> bool, a: seq<T>, b: seq<T>)
    requires Preorder(le) && multiset(a) == multiset(b) && Separates(le, multiset(a))
    ensures Sort(le, a) == Sort(le, b)
  {
    SortSorted(le, a);
    SortSorted(le, b);
    SortedUnique(le, Sort(le, a), Sort(le, b));
  }
}
