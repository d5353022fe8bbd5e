/**
 * Array.prototype.sort with a comparator, as the modelled code uses it. ECMAScript requires the
 * sort to be stable; every comparator in the modelled code orders by a pair of reals
 * lexicographically (one of them is a centre x with a centre y as tie-breaker, the others use a
 * single real and a constant second component). The sort is modelled as a stable insertion sort
 * on values, and characterised by three lemmas: the result is ordered, a permutation, and keeps
 * the input order of elements whose keys are equal.
 */
module StableSort {

  type Key = (real, real)

  /** The order the comparators compute: by the first component, ties by the second. */
  predicate KeyLe(a: Key, b: Key) {
    a.0 < b.0 || (a.0 == b.0 && a.1 <= b.1)
  }

  predicate SortedBy<T>(s: seq<T>, key: T -> Key) {
    forall i, j :: 0 <= i < j < |s| ==> KeyLe(key(s[i]), key(s[j]))
  }

  /** Inserts x before the first element whose key is not smaller than x's. */
  function Insert<T>(x: T, s: seq<T>, key: T -> Key): (r: seq<T>)
    ensures |r| == |s| + 1
    ensures multiset(r) == multiset(s) + multiset{x}
  {
    if s == [] then [x]
    else if KeyLe(key(x), key(s[0])) then [x] + s
    else
      assert s == [s[0]] + s[1..];
      [s[0]] + Insert(x, s[1..], key)
  }

  /** The sorted copy of s. */
  function SortBy<T>(s: seq<T>, key: T -> Key): (r: seq<T>)
    ensures |r| == |s|
    ensures multiset(r) == multiset(s)
  {
    if s == [] then []
    else
      assert s == [s[0]] + s[1..];
      Insert(s[0], SortBy(s[1..], key), key)
  }

  /** The elements of s whose key is k, in their order in s. */
  function WithKey<T>(s: seq<T>, key: T -> Key, k: Key): seq<T> {
    if s == [] then []
    else (if key(s[0]) == k then [s[0]] else []) + WithKey(s[1..], key, k)
  }

  lemma {:induction false} InsertSorted<T>(x: T, s: seq<T>, key: T -> Key)
    requires SortedBy(s, key)
    ensures SortedBy(Insert(x, s, key), key)
  {
    if s != [] && !KeyLe(key(x), key(s[0])) {
      InsertSorted(x, s[1..], key);
      var t := Insert(x, s[1..], key);
      assert Insert(x, s, key) == [s[0]] + t;
      forall j | 0 <= j < |t|
        ensures KeyLe(key(s[0]), key(t[j]))
      {
        var m := InsertMember(x, s[1..], key, j);
        if m >= 0 {
          assert s[1..][m] == s[m + 1];
        }
      }
      ConsSorted(s[0], t, key);
    }
  }

  /** Every element of an insertion is x or an element of s, at index m (-1 for x). */
  lemma InsertMember<T>(x: T, s: seq<T>, key: T -> Key, j: int) returns (m: int)
    requires 0 <= j < |Insert(x, s, key)|
    ensures -1 <= m < |s|
    ensures m == -1 ==> Insert(x, s, key)[j] == x
    ensures m >= 0 ==> s[m] == Insert(x, s, key)[j]
  {
    var e := Insert(x, s, key)[j];
    assert e in multiset(Insert(x, s, key));
    if e == x {
      m := -1;
    } else {
      assert e in multiset(s);
      m :| 0 <= m < |s| && s[m] == e;
    }
  }

  /** An ordered sequence stays ordered behind an element no larger than any of it. */
  lemma ConsSorted<T>(h: T, t: seq<T>, key: T -> Key)
    requires SortedBy(t, key)
    requires forall j :: 0 <= j < |t| ==> KeyLe(key(h), key(t[j]))
    ensures SortedBy([h] + t, key)
  {
    var r := [h] + t;
    forall a, b | 0 <= a < b < |r| ensures KeyLe(key(r[a]), key(r[b])) {
      assert r[b] == t[b - 1];
      if a > 0 {
        assert r[a] == t[a - 1];
      }
    }
  }

  /** The result of SortBy is ordered by the key. */
  lemma {:induction false} SortBySorted<T>(s: seq<T>, key: T -> Key)
    ensures SortedBy(SortBy(s, key), key)
  {
    if s != [] {
      SortBySorted(s[1..], key);
      InsertSorted(s[0], SortBy(s[1..], key), key);
    }
  }

  lemma {:induction false} WithKeyInsert<T>(x: T, s: seq<T>, key: T -> Key, k: Key)
    ensures WithKey(Insert(x, s, key), key, k) ==
            (if key(x) == k then [x] else []) + WithKey(s, key, k)
  {
    var mine: seq<T> := if key(x) == k then [x] else [];
    if s == [] {
      WithKeyCons(x, [], key, k);
      assert Insert(x, s, key) == [x] + [];
    } else if KeyLe(key(x), key(s[0])) {
      WithKeyCons(x, s, key, k);
      assert Insert(x, s, key) == [x] + s;
    } else {
      var t := Insert(x, s[1..], key);
      WithKeyInsert(x, s[1..], key, k);
      assert Insert(x, s, key) == [s[0]] + t;
      WithKeyCons(s[0], t, key, k);
      assert s == [s[0]] + s[1..];
      WithKeyCons(s[0], s[1..], key, k);
      KeysApart(key(x), key(s[0]), k);
      var theirs: seq<T> := if key(s[0]) == k then [s[0]] else [];
      var rest := WithKey(s[1..], key, k);
      if key(x) == k {
        assert theirs == [];
        assert theirs + (mine + rest) == mine + rest;
        assert theirs + rest == rest;
      } else {
        assert mine == [];
        assert mine + rest == rest;
        assert mine + (theirs + rest) == theirs + rest;
      }
    }
  }

  lemma WithKeyCons<T>(y: T, t: seq<T>, key: T -> Key, k: Key)
    ensures WithKey([y] + t, key, k) == (if key(y) == k then [y] else []) + WithKey(t, key, k)
  {
    assert ([y] + t)[0] == y && ([y] + t)[1..] == t;
  }

  /** Two keys that are not in order are different, so at most one of them is k. */
  lemma KeysApart(a: Key, b: Key, k: Key)
    requires !KeyLe(a, b)
    ensures !(a == k && b == k)
  {
  }

  /** Stability: for every key, the elements carrying it appear in the result in the same order
      as in the input. */
  lemma {:induction false} SortByStable<T>(s: seq<T>, key: T -> Key, k: Key)
    ensures WithKey(SortBy(s, key), key, k) == WithKey(s, key, k)
  {
    if s != [] {
      SortByStable(s[1..], key, k);
      WithKeyInsert(s[0], SortBy(s[1..], key), key, k);
    }
  }

  /** Sorting an already sorted sequence changes nothing. */
  lemma {:induction false} SortBySortedIdentity<T>(s: seq<T>, key: T -> Key)
    requires SortedBy(s, key)
    ensures SortBy(s, key) == s
  {
    if s != [] {
      SortBySortedIdentity(s[1..], key);
      assert SortBy(s[1..], key) == s[1..];
      if |s| > 1 {
        assert KeyLe(key(s[0]), key(s[1]));
      }
    }
  }

  /** Two ordered elements stay in place. */
  lemma SortTwo<T>(a: T, b: T, key: T -> Key)
    requires KeyLe(key(a), key(b))
    ensures SortBy([a, b], key) == [a, b]
  {
    assert [b][1..] == [];
    assert SortBy([b], key) == [b];
    assert [a, b][1..] == [b];
  }

  /** An element that belongs after two ordered ones is inserted at the end. */
  lemma InsertLast<T>(x: T, a: T, b: T, key: T -> Key)
    requires !KeyLe(key(x), key(a)) && !KeyLe(key(x), key(b))
    ensures Insert(x, [a, b], key) == [a, b, x]
  {
    assert [a, b][1..] == [b];
    assert Insert(x, [b], key) == [b, x];
  }

  /** A first element that belongs after two ordered ones moves to the end. */
  lemma SortThreeLastFirst<T>(x: T, a: T, b: T, key: T -> Key)
    requires KeyLe(key(a), key(b))
    requires !KeyLe(key(x), key(a)) && !KeyLe(key(x), key(b))
    ensures SortBy([x, a, b], key) == [a, b, x]
  {
    SortTwo(a, b, key);
    assert [x, a, b][1..] == [a, b];
    InsertLast(x, a, b, key);
  }
}
