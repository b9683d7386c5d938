/** The ordering contract of Python's `list.sort(key=..., reverse=True)`:
    a stable sort. `before(a, b)` says that key `a` must come ahead of key
    `b` (for `reverse=True`, `a > b`); elements whose keys are equal keep
    the order in which they were encountered.

    `Sort` is a functional insertion sort. Its lemmas show that it is a
    permutation, that it is sorted, that it keeps encounter order among
    equal keys, and that it is the ONLY sequence with those properties, so
    it is exactly the list that any stable sort leaves behind. */
module StableSort {

  ghost predicate StrictTotalOrder<K(!new)>(before: (K, K) -> bool)
  {
    && (forall a :: !before(a, a))
    && (forall a, b, c :: before(a, b) && before(b, c) ==> before(a, c))
    && (forall a, b :: a != b ==> before(a, b) || before(b, a))
  }

  /** No element is preceded by a later one. */
  ghost predicate Sorted<T, K>(s: seq<T>, key: T -> K, before: (K, K) -> bool)
  {
    forall i, j :: 0 <= i < j < |s| ==> !before(key(s[j]), key(s[i]))
  }

  /** The subsequence of the elements whose key is k, in order. */
  function WithKey<T, K(==)>(s: seq<T>, key: T -> K, k: K): seq<T>
  {
    if s == [] then []
    else (if key(s[0]) == k then [s[0]] else []) + WithKey(s[1..], key, k)
  }

  /** r keeps, for every key, the relative order those elements have in s. */
  ghost predicate KeepsOrderPerKey<T, K(!new)>(r: seq<T>, s: seq<T>, key: T -> K)
  {
    forall k :: WithKey(r, key, k) == WithKey(s, key, k)
  }

  /** Inserts x ahead of the first element that does not strictly precede it. */
  function Insert<T, K>(x: T, t: seq<T>, key: T -> K, before: (K, K) -> bool): seq<T>
  {
    if t == [] || !before(key(t[0]), key(x)) then [x] + t
    else [t[0]] + Insert(x, t[1..], key, before)
  }

  function Sort<T, K>(s: seq<T>, key: T -> K, before: (K, K) -> bool): seq<T>
  {
    if s == [] then [] else Insert(s[0], Sort(s[1..], key, before), key, before)
  }

  /** The index of the first element whose key is k, or |s| when there is none. */
  function IndexOfKey<T, K(==)>(s: seq<T>, key: T -> K, k: K): (i: nat)
    ensures i <= |s|
    ensures i < |s| ==> key(s[i]) == k
    ensures forall j :: 0 <= j < i ==> key(s[j]) != k
  {
    if s == [] then 0
    else if key(s[0]) == k then 0
    else 1 + IndexOfKey(s[1..], key, k)
  }

  lemma {:induction false} WithKeyStartsAtIndexOfKey<T, K>(s: seq<T>, key: T -> K, k: K)
    ensures var i := IndexOfKey(s, key, k);
      (i == |s| <==> WithKey(s, key, k) == []) &&
      (i < |s| ==> WithKey(s, key, k)[0] == s[i])
  {
    if s != [] && key(s[0]) != k {
      WithKeyStartsAtIndexOfKey(s[1..], key, k);
    }
  }

  lemma {:induction false} WithKeyMembers<T, K>(s: seq<T>, key: T -> K, k: K, x: T)
    ensures x in WithKey(s, key, k) <==> x in s && key(x) == k
  {
    if s != [] {
      WithKeyMembers(s[1..], key, k, x);
      assert s == [s[0]] + s[1..];
    }
  }

  lemma {:induction false} InsertPermutes<T, K>(x: T, t: seq<T>, key: T -> K, before: (K, K) -> bool)
    ensures multiset(Insert(x, t, key, before)) == multiset{x} + multiset(t)
  {
    if t != [] && before(key(t[0]), key(x)) {
      InsertPermutes(x, t[1..], key, before);
      assert t == [t[0]] + t[1..];
    }
  }

  /** Sort returns a permutation of its input. */
  lemma {:induction false} SortPermutes<T, K>(s: seq<T>, key: T -> K, before: (K, K) -> bool)
    ensures multiset(Sort(s, key, before)) == multiset(s)
  {
    if s != [] {
      SortPermutes(s[1..], key, before);
      InsertPermutes(s[0], Sort(s[1..], key, before), key, before);
      assert s == [s[0]] + s[1..];
    }
  }

  lemma SortedCons<T, K>(a: T, r: seq<T>, key: T -> K, before: (K, K) -> bool)
    requires Sorted(r, key, before)
    requires forall j :: 0 <= j < |r| ==> !before(key(r[j]), key(a))
    ensures Sorted([a] + r, key, before)
  {
    var s := [a] + r;
    forall i, j | 0 <= i < j < |s| ensures !before(key(s[j]), key(s[i])) {
      if i > 0 {
        assert s[i] == r[i - 1] && s[j] == r[j - 1];
      } else {
        assert s[j] == r[j - 1];
      }
    }
  }

  lemma {:induction false} InsertSorted<T, K(!new)>(x: T, t: seq<T>, key: T -> K, before: (K, K) -> bool)
    requires StrictTotalOrder(before)
    requires Sorted(t, key, before)
    ensures Sorted(Insert(x, t, key, before), key, before)
  {
    if t == [] {
    } else if !before(key(t[0]), key(x)) {
      forall j | 0 <= j < |t| ensures !before(key(t[j]), key(x)) {
        if j > 0 && key(t[j]) != key(t[0]) {
          assert !before(key(t[j]), key(t[0]));
          assert before(key(t[0]), key(t[j]));
        }
      }
      SortedCons(x, t, key, before);
    } else {
      var rest := Insert(x, t[1..], key, before);
      assert Sorted(t[1..], key, before) by {
        forall i, j | 0 <= i < j < |t[1..]| ensures !before(key(t[1..][j]), key(t[1..][i])) {
          assert t[1..][i] == t[i + 1] && t[1..][j] == t[j + 1];
        }
      }
      InsertSorted(x, t[1..], key, before);
      InsertPermutes(x, t[1..], key, before);
      forall j | 0 <= j < |rest| ensures !before(key(rest[j]), key(t[0])) {
        assert rest[j] in multiset(rest);
        if rest[j] != x {
          assert rest[j] in t[1..];
          var m :| 0 <= m < |t[1..]| && t[1..][m] == rest[j];
          assert t[m + 1] == rest[j];
        }
      }
      SortedCons(t[0], rest, key, before);
    }
  }

  /** Sort returns a sorted sequence. */
  lemma {:induction false} SortSorted<T, K(!new)>(s: seq<T>, key: T -> K, before: (K, K) -> bool)
    requires StrictTotalOrder(before)
    ensures Sorted(Sort(s, key, before), key, before)
  {
    if s != [] {
      SortSorted(s[1..], key, before);
      InsertSorted(s[0], Sort(s[1..], key, before), key, before);
    }
  }

  lemma {:induction false} InsertKeepsOrderPerKey<T, K>(x: T, t: seq<T>, key: T -> K, before: (K, K) -> bool, k: K)
    requires forall a :: !before(a, a)
    ensures WithKey(Insert(x, t, key, before), key, k) == WithKey([x] + t, key, k)
  {
    if t != [] && before(key(t[0]), key(x)) {
      InsertKeepsOrderPerKey(x, t[1..], key, before, k);
      assert t == [t[0]] + t[1..];
      assert ([x] + t)[1..] == t;
      assert ([x] + t[1..])[1..] == t[1..];
      assert ([t[0]] + Insert(x, t[1..], key, before))[1..] == Insert(x, t[1..], key, before);
    }
  }

  /** Sort keeps encounter order among elements with equal keys. */
  lemma {:induction false} SortKeepsOrderPerKey<T, K(!new)>(s: seq<T>, key: T -> K, before: (K, K) -> bool)
    requires StrictTotalOrder(before)
    ensures KeepsOrderPerKey(Sort(s, key, before), s, key)
  {
    if s != [] {
      SortKeepsOrderPerKey(s[1..], key, before);
      forall k ensures WithKey(Sort(s, key, before), key, k) == WithKey(s, key, k) {
        InsertKeepsOrderPerKey(s[0], Sort(s[1..], key, before), key, before, k);
        assert ([s[0]] + Sort(s[1..], key, before))[1..] == Sort(s[1..], key, before);
      }
    }
  }

  lemma HeadKeyNonEmpty<T, K>(s: seq<T>, key: T -> K)
    ensures s != [] ==> WithKey(s, key, key(s[0])) != []
  {
  }

  lemma {:induction false} SortedUnique<T, K(!new)>(a: seq<T>, b: seq<T>, key: T -> K, before: (K, K) -> bool)
    requires StrictTotalOrder(before)
    requires Sorted(a, key, before) && Sorted(b, key, before)
    requires KeepsOrderPerKey(a, b, key)
    ensures a == b
    decreases |a|
  {
    if a == [] || b == [] {
      if a != [] {
        HeadKeyNonEmpty(a, key);
        assert false;
      } else if b != [] {
        HeadKeyNonEmpty(b, key);
        assert false;
      }
    } else {
      var ka, kb := key(a[0]), key(b[0]);
      WithKeyMembers(a, key, kb, b[0]);
      WithKeyMembers(b, key, ka, a[0]);
      assert a[0] in WithKey(a, key, ka);
      assert b[0] in WithKey(b, key, kb);
      var i :| 0 <= i < |b| && b[i] == a[0];
      var j :| 0 <= j < |a| && a[j] == b[0];
      assert !before(ka, kb) by { if i > 0 { assert !before(key(b[i]), key(b[0])); } }
      assert !before(kb, ka) by { if j > 0 { assert !before(key(a[j]), key(a[0])); } }
      assert ka == kb;
      assert WithKey(a, key, ka)[0] == a[0];
      assert WithKey(b, key, ka)[0] == b[0];
      assert a[0] == b[0];
      forall k ensures WithKey(a[1..], key, k) == WithKey(b[1..], key, k) {
        var p := if key(a[0]) == k then [a[0]] else [];
        assert WithKey(a, key, k) == p + WithKey(a[1..], key, k);
        assert WithKey(b, key, k) == p + WithKey(b[1..], key, k);
        assert WithKey(a[1..], key, k) == WithKey(a, key, k)[|p|..];
        assert WithKey(b[1..], key, k) == WithKey(b, key, k)[|p|..];
      }
      assert Sorted(a[1..], key, before) by {
        forall i, j | 0 <= i < j < |a[1..]| ensures !before(key(a[1..][j]), key(a[1..][i])) {
          assert a[1..][i] == a[i + 1] && a[1..][j] == a[j + 1];
        }
      }
      assert Sorted(b[1..], key, before) by {
        forall i, j | 0 <= i < j < |b[1..]| ensures !before(key(b[1..][j]), key(b[1..][i])) {
          assert b[1..][i] == b[i + 1] && b[1..][j] == b[j + 1];
        }
      }
      SortedUnique(a[1..], b[1..], key, before);
      assert a == [a[0]] + a[1..] && b == [b[0]] + b[1..];
    }
  }

  /** Any sorted sequence that keeps encounter order per key, that is the
      output of any stable sort of s, is Sort(s). */
  lemma StableSortIsUnique<T, K(!new)>(r: seq<T>, s: seq<T>, key: T -> K, before: (K, K) -> bool)
    requires StrictTotalOrder(before)
    requires Sorted(r, key, before)
    requires KeepsOrderPerKey(r, s, key)
    ensures r == Sort(s, key, before)
  {
    SortSorted(s, key, before);
    SortKeepsOrderPerKey(s, key, before);
    SortedUnique(r, Sort(s, key, before), key, before);
  }

  /** The head of a sorted non-empty sequence is preceded by no element of
      the input, and it is the first input element that carries its key. */
  lemma SortHead<T, K(!new)>(s: seq<T>, key: T -> K, before: (K, K) -> bool)
    requires StrictTotalOrder(before)
    requires |s| > 0
    ensures |Sort(s, key, before)| == |s|
    ensures var h := Sort(s, key, before)[0];
      var i := IndexOfKey(s, key, key(h));
      i < |s| && s[i] == h &&
      forall j :: 0 <= j < |s| ==> !before(key(s[j]), key(h))
  {
    var r := Sort(s, key, before);
    SortPermutes(s, key, before);
    assert |r| == |multiset(r)| == |multiset(s)| == |s|;
    SortSorted(s, key, before);
    SortKeepsOrderPerKey(s, key, before);
    var h := r[0];
    assert r[0] in multiset(r);
    forall j | 0 <= j < |s| ensures !before(key(s[j]), key(h)) {
      assert s[j] in multiset(s);
      assert s[j] in r;
      var m :| 0 <= m < |r| && r[m] == s[j];
    }
    assert WithKey(r, key, key(h))[0] == h;
    WithKeyStartsAtIndexOfKey(s, key, key(h));
  }
}
