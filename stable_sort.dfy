/** The stable sort `Array.prototype.sort` performs (ES2019 and later) with a
    comparator of the form `(key(a) - key(b))`: elements end up in ascending
    key order and elements with equal keys keep their input order. The model
    sorts by insertion; `SortIsUnique` shows that every sequence with those two
    properties is this one, so the choice of algorithm does not matter. */
module StableSort {

  /** Keys never decrease from left to right. */
  ghost predicate SortedBy<T>(s: seq<T>, key: T -> real) {
    forall i, j :: 0 <= i < j < |s| ==> key(s[i]) <= key(s[j])
  }

  /** The elements of `s` whose key is `k`, in the order of `s`. */
  function WithKey<T>(s: seq<T>, key: T -> real, k: real): (r: seq<T>)
    ensures |r| <= |s|
    ensures forall y :: y in r ==> y in s && key(y) == k
  {
    if s == [] then []
    else if key(s[0]) == k then [s[0]] + WithKey(s[1..], key, k)
    else WithKey(s[1..], key, k)
  }

  /** Places `x` before the first element of `t` whose key is at least `key(x)`. */
  function Insert<T>(x: T, t: seq<T>, key: T -> real): (r: seq<T>)
    ensures multiset(r) == multiset(t) + multiset{x}
  {
    if t == [] || key(x) <= key(t[0]) then
      [x] + t
    else
      assert t == [t[0]] + t[1..];
      [t[0]] + Insert(x, t[1..], key)
  }

  lemma {:induction false} InsertSorted<T>(x: T, t: seq<T>, key: T -> real)
    requires SortedBy(t, key)
    ensures SortedBy(Insert(x, t, key), key)
  {
    if t != [] && key(t[0]) < key(x) {
      InsertSorted(x, t[1..], key);
      InsertAbove(x, t, key);
      ConsSorted(t[0], Insert(x, t[1..], key), key);
    }
  }

  /** Inserting `x` after the head of `t` keeps every element at or above the head's key. */
  lemma InsertAbove<T>(x: T, t: seq<T>, key: T -> real)
    requires SortedBy(t, key) && t != [] && key(t[0]) < key(x)
    ensures forall y :: y in Insert(x, t[1..], key) ==> key(t[0]) <= key(y)
  {
    var rest := Insert(x, t[1..], key);
    forall y | y in rest ensures key(t[0]) <= key(y) {
      assert y in multiset(rest);
      if y != x {
        assert y in multiset(t[1..]);
        var j :| 0 <= j < |t[1..]| && t[1..][j] == y;
        assert t[j + 1] == y;
      }
    }
  }

  /** A head no greater than anything in a sorted tail gives a sorted list. */
  lemma ConsSorted<T>(h: T, rest: seq<T>, key: T -> real)
    requires SortedBy(rest, key)
    requires forall y :: y in rest ==> key(h) <= key(y)
    ensures SortedBy([h] + rest, key)
  {
    var r := [h] + rest;
    forall i, j | 0 <= i < j < |r| ensures key(r[i]) <= key(r[j]) {
      assert r[j] == rest[j - 1] && rest[j - 1] in rest;
      if i > 0 {
        assert r[i] == rest[i - 1];
      }
    }
  }

  /** `s.slice().sort(...)`: a new sequence, `s` itself is not touched. */
  function Sort<T>(s: seq<T>, key: T -> real): (r: seq<T>)
    ensures multiset(r) == multiset(s)
    ensures |r| == |s|
    ensures SortedBy(r, key)
  {
    if s == [] then []
    else
      var t := Sort(s[1..], key);
      var r := Insert(s[0], t, key);
      InsertSorted(s[0], t, key);
      assert s == [s[0]] + s[1..];
      assert |r| == |multiset(r)| == |multiset(s)| == |s|;
      r
  }

  lemma {:induction false} InsertWithKey<T>(x: T, t: seq<T>, key: T -> real, k: real)
    requires SortedBy(t, key)
    decreases |t|
    ensures WithKey(Insert(x, t, key), key, k) ==
            (if key(x) == k then [x] else []) + WithKey(t, key, k)
  {
    if t == [] || key(x) <= key(t[0]) {
      assert ([x] + t)[1..] == t;
    } else {
      InsertWithKey(x, t[1..], key, k);
      assert key(t[0]) != key(x);
      assert ([t[0]] + Insert(x, t[1..], key))[1..] == Insert(x, t[1..], key);
    }
  }

  /** Stability: for every key, the elements carrying it appear in the sorted
      sequence in exactly the order they had in the input. */
  lemma {:induction false} SortIsStable<T>(s: seq<T>, key: T -> real, k: real)
    ensures WithKey(Sort(s, key), key, k) == WithKey(s, key, k)
  {
    if s != [] {
      SortIsStable(s[1..], key, k);
      InsertWithKey(s[0], Sort(s[1..], key), key, k);
    }
  }

  lemma {:induction false} WithKeyFirst<T>(s: seq<T>, key: T -> real)
    requires s != []
    ensures WithKey(s, key, key(s[0])) != [] && WithKey(s, key, key(s[0]))[0] == s[0]
  {
  }

  lemma {:induction false} WithKeyNonEmpty<T>(s: seq<T>, key: T -> real, k: real)
    requires WithKey(s, key, k) != []
    ensures exists i :: 0 <= i < |s| && key(s[i]) == k
  {
    var y := WithKey(s, key, k)[0];
    assert y in WithKey(s, key, k);
  }

  /** Two sequences sorted by the same key that agree on the order of every
      group of equal keys are the same sequence. */
  lemma {:induction false} SortedUnique<T>(a: seq<T>, b: seq<T>, key: T -> real)
    requires SortedBy(a, key) && SortedBy(b, key)
    requires forall k :: WithKey(a, key, k) == WithKey(b, key, k)
    ensures a == b
    decreases |a|
  {
    if a == [] {
      if b != [] {
        WithKeyFirst(b, key);
      }
    } else if b == [] {
      WithKeyFirst(a, key);
    } else {
      HeadsAgree(a, b, key);
      forall k ensures WithKey(a[1..], key, k) == WithKey(b[1..], key, k) {
        WithKeyTails(a, b, key, k);
      }
      SortedUnique(a[1..], b[1..], key);
      assert a == [a[0]] + a[1..] && b == [b[0]] + b[1..];
    }
  }

  /** Two sorted lists with the same elements of every key start alike. */
  lemma HeadsAgree<T>(a: seq<T>, b: seq<T>, key: T -> real)
    requires a != [] && b != []
    requires SortedBy(a, key) && SortedBy(b, key)
    requires forall k :: WithKey(a, key, k) == WithKey(b, key, k)
    ensures a[0] == b[0]
  {
    var ka, kb := key(a[0]), key(b[0]);
    WithKeyFirst(a, key);
    WithKeyFirst(b, key);
    WithKeyNonEmpty(b, key, ka);
    WithKeyNonEmpty(a, key, kb);
    assert ka == kb;
    assert WithKey(a, key, ka) == WithKey(b, key, ka);
  }

  /** Two lists with the same first element and the same elements of key `k`
      have the same elements of key `k` after that first one. */
  lemma WithKeyTails<T>(a: seq<T>, b: seq<T>, key: T -> real, k: real)
    requires a != [] && b != [] && a[0] == b[0]
    requires WithKey(a, key, k) == WithKey(b, key, k)
    ensures WithKey(a[1..], key, k) == WithKey(b[1..], key, k)
  {
    if key(a[0]) == k {
      assert WithKey(a, key, k) == [a[0]] + WithKey(a[1..], key, k);
      assert WithKey(b, key, k) == [b[0]] + WithKey(b[1..], key, k);
      assert WithKey(a[1..], key, k) == WithKey(a, key, k)[1..];
    }
  }

  /** Any stable ascending arrangement of `s` is `Sort(s, key)`. */
  lemma SortIsUnique<T>(s: seq<T>, r: seq<T>, key: T -> real)
    requires SortedBy(r, key)
    requires forall k :: WithKey(r, key, k) == WithKey(s, key, k)
    ensures r == Sort(s, key)
  {
    forall k ensures WithKey(r, key, k) == WithKey(Sort(s, key), key, k) {
      SortIsStable(s, key, k);
    }
    SortedUnique(r, Sort(s, key), key);
  }
}
