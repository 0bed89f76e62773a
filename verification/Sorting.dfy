/** Python's `sorted`: a stable sort of (key, item) pairs by ascending key.
    Two callers depend on its stability: the limiter's key-cap eviction and the
    similarity search (which sorts by the negated score). */
module Sorting {

  /** A sort key paired with the item it ranks. */
  datatype Keyed<T> = Keyed(key: real, item: T)

  ghost predicate Ascending<T>(s: seq<Keyed<T>>) {
    forall i, j | 0 <= i < j < |s| :: s[i].key <= s[j].key
  }

  /** The subsequence of entries whose key is exactly `k`, in order. */
  function WithKey<T>(s: seq<Keyed<T>>, k: real): seq<Keyed<T>> {
    if s == [] then []
    else WithKey(s[..|s| - 1], k) + (if s[|s| - 1].key == k then [s[|s| - 1]] else [])
  }

  /** Places `x` after every entry whose key is not larger. */
  function Insert<T>(s: seq<Keyed<T>>, x: Keyed<T>): (r: seq<Keyed<T>>)
    ensures |r| == |s| + 1
  {
    if s == [] || s[|s| - 1].key <= x.key then s + [x]
    else Insert(s[..|s| - 1], x) + [s[|s| - 1]]
  }

  function StableSort<T>(s: seq<Keyed<T>>): (r: seq<Keyed<T>>)
    ensures |r| == |s|
  {
    if s == [] then [] else Insert(StableSort(s[..|s| - 1]), s[|s| - 1])
  }

  lemma {:induction false} InsertKeepsOrder<T>(s: seq<Keyed<T>>, x: Keyed<T>)
    requires Ascending(s)
    ensures Ascending(Insert(s, x))
  {
    if s != [] && s[|s| - 1].key > x.key {
      InsertKeepsOrder(s[..|s| - 1], x);
      InsertBounded(s[..|s| - 1], x, s[|s| - 1].key);
    }
  }

  lemma {:induction false} InsertKeepsContent<T>(s: seq<Keyed<T>>, x: Keyed<T>)
    ensures multiset(Insert(s, x)) == multiset(s) + multiset{x}
  {
    if s != [] && s[|s| - 1].key > x.key {
      InsertKeepsContent(s[..|s| - 1], x);
      assert s == s[..|s| - 1] + [s[|s| - 1]];
    }
  }

  lemma {:induction false} InsertKeepsTies<T>(s: seq<Keyed<T>>, x: Keyed<T>, k: real)
    requires Ascending(s)
    ensures WithKey(Insert(s, x), k) == WithKey(s, k) + (if x.key == k then [x] else [])
  {
    if s == [] || s[|s| - 1].key <= x.key {
      assert (s + [x])[..|s|] == s;
    } else {
      var front, last := s[..|s| - 1], s[|s| - 1];
      InsertKeepsTies(front, x, k);
      var r := Insert(front, x);
      assert (r + [last])[..|r|] == r;
      if k == last.key {
        assert WithKey(s, k) == WithKey(front, k) + [last];
      } else {
        assert WithKey(s, k) == WithKey(front, k);
      }
    }
  }

  lemma {:induction false} InsertBounded<T>(s: seq<Keyed<T>>, x: Keyed<T>, bound: real)
    requires forall i | 0 <= i < |s| :: s[i].key <= bound
    requires x.key <= bound
    ensures forall i | 0 <= i < |Insert(s, x)| :: Insert(s, x)[i].key <= bound
  {
    if s != [] && s[|s| - 1].key > x.key {
      InsertBounded(s[..|s| - 1], x, bound);
    }
  }

  /** The sort orders, permutes, and keeps equal keys in their original order. */
  lemma {:induction false} StableSortCorrect<T>(s: seq<Keyed<T>>)
    ensures Ascending(StableSort(s))
    ensures multiset(StableSort(s)) == multiset(s)
    ensures forall k :: WithKey(StableSort(s), k) == WithKey(s, k)
  {
    if s != [] {
      var front := s[..|s| - 1];
      assert s == front + [s[|s| - 1]];
      StableSortCorrect(front);
      InsertKeepsOrder(StableSort(front), s[|s| - 1]);
      InsertKeepsContent(StableSort(front), s[|s| - 1]);
      forall k ensures WithKey(StableSort(s), k) == WithKey(s, k) {
        InsertKeepsTies(StableSort(front), s[|s| - 1], k);
      }
    }
  }

  /** Order, content and tie order pin the result down: no other sequence has them. */
  lemma {:induction false} StableSortUnique<T>(s: seq<Keyed<T>>, r: seq<Keyed<T>>)
    requires Ascending(r)
    requires forall k :: WithKey(r, k) == WithKey(s, k)
    ensures r == StableSort(s)
  {
    StableSortCorrect(s);
    SameGroupsSameSequence(r, StableSort(s));
  }

  lemma {:induction false} SameGroupsSameSequence<T>(a: seq<Keyed<T>>, b: seq<Keyed<T>>)
    requires Ascending(a) && Ascending(b)
    requires forall k :: WithKey(a, k) == WithKey(b, k)
    ensures a == b
    decreases |a|
  {
    if a == [] {
      if b != [] { LastKeyDominates(b, a); }
    } else {
      LastKeyDominates(a, b);
      LastKeyDominates(b, a);
      var k := a[|a| - 1].key;
      LastWithKey(a);
      LastWithKey(b);
      var a', b' := a[..|a| - 1], b[..|b| - 1];
      forall j ensures WithKey(a', j) == WithKey(b', j) {
        WithKeyFront(a, j);
        WithKeyFront(b, j);
        assert WithKey(a, j) == WithKey(b, j) && WithKey(a, k) == WithKey(b, k);
      }
      SameGroupsSameSequence(a', b');
      assert a == a' + [a[|a| - 1]] && b == b' + [b[|b| - 1]];
    }
  }

  lemma LastKeyDominates<T>(a: seq<Keyed<T>>, b: seq<Keyed<T>>)
    requires a != [] && Ascending(b)
    requires forall k :: WithKey(a, k) == WithKey(b, k)
    ensures b != [] && a[|a| - 1].key <= b[|b| - 1].key
  {
    LastWithKey(a);
    hide WithKey;
    WithKeyMember(b, a[|a| - 1].key);
  }

  lemma LastWithKey<T>(a: seq<Keyed<T>>)
    requires a != []
    ensures WithKey(a, a[|a| - 1].key) != []
    ensures var g := WithKey(a, a[|a| - 1].key); g[|g| - 1] == a[|a| - 1]
  {
  }

  lemma WithKeyFront<T>(a: seq<Keyed<T>>, j: real)
    requires a != []
    ensures j != a[|a| - 1].key ==> WithKey(a[..|a| - 1], j) == WithKey(a, j)
    ensures j == a[|a| - 1].key ==>
              WithKey(a, j) != [] && WithKey(a[..|a| - 1], j) == WithKey(a, j)[..|WithKey(a, j)| - 1]
  {
  }

  lemma {:induction false} WithKeyMember<T>(s: seq<Keyed<T>>, k: real)
    requires WithKey(s, k) != []
    ensures exists i :: 0 <= i < |s| && s[i].key == k
  {
    if s[|s| - 1].key != k {
      WithKeyMember(s[..|s| - 1], k);
      var i :| 0 <= i < |s[..|s| - 1]| && s[..|s| - 1][i].key == k;
      assert s[i].key == k;
    }
  }

  /** Sorting keeps every bound on the keys. */
  lemma {:induction false} SortBounded<T>(s: seq<Keyed<T>>, bound: real)
    requires forall i | 0 <= i < |s| :: s[i].key <= bound
    ensures forall i | 0 <= i < |s| :: StableSort(s)[i].key <= bound
  {
    if s != [] {
      SortBounded(s[..|s| - 1], bound);
      InsertBounded(StableSort(s[..|s| - 1]), s[|s| - 1], bound);
    }
  }

  /** An entry that comes last with a maximal key stays last. */
  lemma LastMaximalStaysLast<T>(s: seq<Keyed<T>>)
    requires s != []
    requires forall i | 0 <= i < |s| :: s[i].key <= s[|s| - 1].key
    ensures StableSort(s)[|s| - 1] == s[|s| - 1]
  {
    SortBounded(s[..|s| - 1], s[|s| - 1].key);
  }
}
