/**
 * `sort.SliceStable` with a comparator of the form `key(x[i]) < key(x[j])` on
 * string keys, the only way the renderer sorts. The sort is a library call in
 * the program, so it is modelled as a function: insertion from the right, which
 * keeps elements with equal keys in their input order. Its contract says that
 * the result is ordered by key, is a permutation of the input and keeps the
 * input order among equal keys; `StableOrderIsUnique` shows that these three
 * facts determine the result, so every stable sort agrees with this one.
 */
module StableSort {
  import opened GoStrings

  /** `r` is in ascending key order; equal keys may sit side by side. */
  ghost predicate SortedBy<T>(r: seq<T>, key: T -> string) {
    forall i, j :: 0 <= i < j < |r| ==> !Less(key(r[j]), key(r[i]))
  }

  /** The elements of `s` whose key is `k`, in the order in which `s` holds them. */
  ghost function WithKey<T>(s: seq<T>, key: T -> string, k: string): seq<T>
    decreases |s|
  {
    if s == [] then []
    else WithKey(s[..|s| - 1], key, k) + (if key(s[|s| - 1]) == k then [s[|s| - 1]] else [])
  }

  /** Every stable rearrangement of the input keeps each key's elements in their input order. */
  ghost predicate KeepsTies<T>(r: seq<T>, s: seq<T>, key: T -> string) {
    forall k :: WithKey(r, key, k) == WithKey(s, key, k)
  }

  /** Inserts `x` into `t` after every element whose key is not greater than `x`'s. */
  function InsertBy<T>(t: seq<T>, x: T, key: T -> string): (r: seq<T>)
    ensures |r| == |t| + 1
    ensures multiset(r) == multiset(t) + multiset{x}
    ensures forall k :: WithKey(r, key, k) == WithKey(t, key, k) + (if key(x) == k then [x] else [])
    decreases |t|
  {
    if t == [] then
      assert forall k :: WithKey([x], key, k) == (if key(x) == k then [x] else []) by {
        assert [x][..0] == [];
      }
      [x]
    else
      var last := t[|t| - 1];
      var front := t[..|t| - 1];
      assert t == front + [last];
      WithKeySnoc(front, last, key);
      if Less(key(x), key(last)) then
        var r := InsertBy(front, x, key) + [last];
        LessIrreflexive(key(x));
        WithKeySnoc(InsertBy(front, x, key), last, key);
        r
      else
        var r := t + [x];
        WithKeySnoc(t, x, key);
        r
  }

  /** One more element joins the subsequence of its own key only. */
  lemma WithKeySnoc<T>(s: seq<T>, x: T, key: T -> string)
    ensures forall k :: WithKey(s + [x], key, k) == WithKey(s, key, k) + (if key(x) == k then [x] else [])
  {
    assert (s + [x])[..|s|] == s;
  }

  /** Inserting into a sorted sequence keeps it sorted. */
  lemma {:induction false} InsertByKeepsOrder<T>(t: seq<T>, x: T, key: T -> string)
    requires SortedBy(t, key)
    ensures SortedBy(InsertBy(t, x, key), key)
    decreases |t|
  {
    if t != [] {
      var last := t[|t| - 1];
      var front := t[..|t| - 1];
      if Less(key(x), key(last)) {
        assert SortedBy(front, key);
        InsertByKeepsOrder(front, x, key);
        var m := InsertBy(front, x, key);
        forall i | 0 <= i < |m| ensures !Less(key(last), key(m[i])) {
          assert m[i] in multiset(m);
          if m[i] != x {
            assert m[i] in multiset(front);
            var j :| 0 <= j < |front| && front[j] == m[i];
            assert t[j] == m[i];
          } else if Less(key(last), key(x)) {
            LessTransitive(key(x), key(last), key(x));
            LessIrreflexive(key(x));
          }
        }
      } else {
        forall i | 0 <= i < |t| ensures !Less(key(x), key(t[i])) {
          if i < |t| - 1 {
            LessEqTransitive(key(t[i]), key(last), key(x));
          }
        }
      }
    }
  }

  /** "Not greater than" is transitive on Go strings. */
  lemma LessEqTransitive(a: string, b: string, c: string)
    requires !Less(b, a) && !Less(c, b)
    ensures !Less(c, a)
  {
    if Less(c, a) {
      LessTotal(a, b);
      if Less(a, b) { LessTransitive(c, a, b); }
    }
  }

  /**
   * `sort.SliceStable(s, func(i, j) bool { return key(s[i]) < key(s[j]) })`:
   * the result is ordered by key, holds exactly the input's elements, and keeps
   * the input order among elements with equal keys.
   */
  function SortBy<T>(s: seq<T>, key: T -> string): (r: seq<T>)
    ensures |r| == |s|
    ensures SortedBy(r, key)
    ensures multiset(r) == multiset(s)
    ensures KeepsTies(r, s, key)
    decreases |s|
  {
    if s == [] then []
    else
      var front := s[..|s| - 1];
      assert s == front + [s[|s| - 1]];
      InsertByKeepsOrder(SortBy(front, key), s[|s| - 1], key);
      InsertBy(SortBy(front, key), s[|s| - 1], key)
  }

  /** `WithKey(s, key, k)` is empty exactly when no element of `s` has key `k`. */
  lemma {:induction false} WithKeyEmpty<T>(s: seq<T>, key: T -> string, k: string)
    ensures WithKey(s, key, k) == [] <==> forall i :: 0 <= i < |s| ==> key(s[i]) != k
    decreases |s|
  {
    if s != [] {
      WithKeyEmpty(s[..|s| - 1], key, k);
      assert forall i :: 0 <= i < |s| - 1 ==> s[..|s| - 1][i] == s[i];
    }
  }

  /**
   * Two sequences that are both ordered by key and agree on the order of every
   * key's elements are equal: the contract of `SortBy` leaves no freedom.
   */
  lemma {:induction false} StableOrderIsUnique<T>(r1: seq<T>, r2: seq<T>, key: T -> string)
    requires SortedBy(r1, key) && SortedBy(r2, key)
    requires KeepsTies(r1, r2, key)
    ensures r1 == r2
    decreases |r1|
  {
    if r1 == [] || r2 == [] {
      if r1 != [] {
        WithKeyEmpty(r1, key, key(r1[0]));
        WithKeyEmpty(r2, key, key(r1[0]));
      } else if r2 != [] {
        WithKeyEmpty(r1, key, key(r2[0]));
        WithKeyEmpty(r2, key, key(r2[0]));
      }
    } else {
      var a, b := r1[|r1| - 1], r2[|r2| - 1];
      var f1, f2 := r1[..|r1| - 1], r2[..|r2| - 1];
      // the last elements carry the largest key of each side, and those keys agree
      LastKeyIsLargest(r1, r2, key);
      LastKeyIsLargest(r2, r1, key);
      LessTotal(key(a), key(b));
      assert WithKey(r1, key, key(a)) == WithKey(r2, key, key(a));
      assert WithKey(r1, key, key(a)) == WithKey(f1, key, key(a)) + [a];
      assert WithKey(r2, key, key(a)) == WithKey(f2, key, key(a)) + [b];
      var w := WithKey(r1, key, key(a));
      assert a == w[|w| - 1] == b;
      forall k ensures WithKey(f1, key, k) == WithKey(f2, key, k) {
        var tail := if key(a) == k then [a] else [];
        var w1, w2 := WithKey(f1, key, k), WithKey(f2, key, k);
        assert w1 + tail == WithKey(r1, key, k) == WithKey(r2, key, k) == w2 + tail;
        assert w1 == (w1 + tail)[..|w1|];
        assert w2 == (w2 + tail)[..|w2|];
      }
      assert SortedBy(f1, key) && SortedBy(f2, key);
      StableOrderIsUnique(f1, f2, key);
      assert r1 == f1 + [a] && r2 == f2 + [b];
    }
  }

  /** The last element of a key-ordered `r1` has a key at least that of `r2`'s last element. */
  lemma LastKeyIsLargest<T>(r1: seq<T>, r2: seq<T>, key: T -> string)
    requires r1 != [] && r2 != []
    requires SortedBy(r1, key) && KeepsTies(r1, r2, key)
    ensures !Less(key(r1[|r1| - 1]), key(r2[|r2| - 1]))
  {
    var kb := key(r2[|r2| - 1]);
    WithKeyEmpty(r2, key, kb);
    assert WithKey(r1, key, kb) == WithKey(r2, key, kb);
    WithKeyEmpty(r1, key, kb);
    var i :| 0 <= i < |r1| && key(r1[i]) == kb;
    if i < |r1| - 1 {
      assert !Less(key(r1[|r1| - 1]), key(r1[i]));
    } else {
      LessIrreflexive(kb);
    }
  }

  /** Any key-ordered rearrangement that keeps ties in input order is `SortBy`'s result. */
  lemma SortByIsTheStableSort<T>(s: seq<T>, r: seq<T>, key: T -> string)
    requires SortedBy(r, key) && KeepsTies(r, s, key)
    ensures r == SortBy(s, key)
  {
    StableOrderIsUnique(r, SortBy(s, key), key);
  }
}
