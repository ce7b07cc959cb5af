/**
 * Python's `sorted(xs, key=...)` for an integer key: a stable sort. Modelled
 * as an insertion sort, with the property that characterises it: the result
 * is ordered by key, and the elements that share a key keep their relative
 * order. Those two facts determine the result, so any stable sort agrees.
 */
module StableSort {

  predicate SortedBy<T>(s: seq<T>, key: T -> int)
  {
    forall i, j :: 0 <= i < j < |s| ==> key(s[i]) <= key(s[j])
  }

  /** The elements of `s` whose key is `k`, in their order in `s`. */
  function WithKey<T>(s: seq<T>, key: T -> int, k: int): (r: seq<T>)
    ensures |r| <= |s|
    ensures forall i :: 0 <= i < |r| ==> key(r[i]) == k
  {
    if |s| == 0 then []
    else (if key(s[0]) == k then [s[0]] else []) + WithKey(s[1..], key, k)
  }

  /** `r` is `s` stably sorted: ordered by key, and every key's elements in their order in `s`. */
  ghost predicate StablySorted<T>(r: seq<T>, s: seq<T>, key: T -> int)
  {
    SortedBy(r, key) && forall k :: WithKey(r, key, k) == WithKey(s, key, k)
  }

  lemma {:induction false} WithKeyAppend<T>(a: seq<T>, b: seq<T>, key: T -> int, k: int)
    ensures WithKey(a + b, key, k) == WithKey(a, key, k) + WithKey(b, key, k)
  {
    if |a| == 0 {
      assert a + b == b;
    } else {
      assert (a + b)[1..] == a[1..] + b;
      WithKeyAppend(a[1..], b, key, k);
    }
  }

  lemma {:induction false} WithKeyAbsent<T>(s: seq<T>, key: T -> int, k: int)
    requires forall i :: 0 <= i < |s| ==> key(s[i]) != k
    ensures WithKey(s, key, k) == []
  {
    if |s| > 0 {
      WithKeyAbsent(s[1..], key, k);
    }
  }

  /** Puts `x` after every element of `t` whose key is not greater than its own. */
  function Insert<T>(x: T, t: seq<T>, key: T -> int): (r: seq<T>)
    ensures |r| == |t| + 1
    ensures multiset(r) == multiset(t) + multiset{x}
    ensures r[0] == x || (|t| > 0 && r[0] == t[0])
  {
    if |t| == 0 then [x]
    else if key(x) < key(t[0]) then [x] + t
    else
      assert t == [t[0]] + t[1..];
      [t[0]] + Insert(x, t[1..], key)
  }

  lemma {:induction false} InsertSorted<T>(x: T, t: seq<T>, key: T -> int)
    requires SortedBy(t, key)
    ensures SortedBy(Insert(x, t, key), key)
  {
    if |t| > 0 && key(x) >= key(t[0]) {
      var r' := Insert(x, t[1..], key);
      InsertSorted(x, t[1..], key);
      var r := [t[0]] + r';
      assert r == Insert(x, t, key);
      forall i, j | 0 <= i < j < |r|
        ensures key(r[i]) <= key(r[j])
      {
        if i == 0 {
          assert key(r'[0]) >= key(t[0]);
          assert key(r'[0]) <= key(r'[j - 1]) || j == 1;
        }
      }
    }
  }

  lemma {:induction false} InsertWithKey<T>(x: T, t: seq<T>, key: T -> int, k: int)
    requires SortedBy(t, key)
    ensures WithKey(Insert(x, t, key), key, k) == WithKey(t, key, k) + (if key(x) == k then [x] else [])
  {
    if |t| == 0 {
      assert [x][1..] == [];
    } else if key(x) < key(t[0]) {
      InsertBeforeWithKey(x, t, key, k);
    } else {
      assert SortedBy(t[1..], key);
      InsertWithKey(x, t[1..], key, k);
      assert Insert(x, t, key) == [t[0]] + Insert(x, t[1..], key);
      WithKeyPrepend(t[0], Insert(x, t[1..], key), t[1..], if key(x) == k then [x] else [], key, k);
      assert [t[0]] + t[1..] == t;
    }
  }

  /** Putting the same element in front of two sequences keeps the key-`k` relation between them. */
  lemma WithKeyPrepend<T>(h: T, a: seq<T>, b: seq<T>, extra: seq<T>, key: T -> int, k: int)
    requires WithKey(a, key, k) == WithKey(b, key, k) + extra
    ensures WithKey([h] + a, key, k) == WithKey([h] + b, key, k) + extra
  {
    var head := if key(h) == k then [h] else [];
    WithKeyCons(h, a, key, k);
    WithKeyCons(h, b, key, k);
    ConcatAssoc(head, WithKey(b, key, k), extra);
  }

  lemma ConcatAssoc<T>(a: seq<T>, b: seq<T>, c: seq<T>)
    ensures a + (b + c) == (a + b) + c
  {
  }

  lemma WithKeyCons<T>(h: T, rest: seq<T>, key: T -> int, k: int)
    ensures WithKey([h] + rest, key, k) == (if key(h) == k then [h] else []) + WithKey(rest, key, k)
  {
    assert ([h] + rest)[1..] == rest;
  }

  /** An element with a smaller key than all of `t` joins its key's elements alone, in front. */
  lemma InsertBeforeWithKey<T>(x: T, t: seq<T>, key: T -> int, k: int)
    requires SortedBy(t, key) && |t| > 0 && key(x) < key(t[0])
    ensures WithKey([x] + t, key, k) == WithKey(t, key, k) + (if key(x) == k then [x] else [])
  {
    assert ([x] + t)[1..] == t;
    if key(x) == k {
      forall i | 0 <= i < |t|
        ensures key(t[i]) != k
      {
        assert key(t[0]) <= key(t[i]);
      }
      WithKeyAbsent(t, key, k);
    }
  }

  /** Sorts `s` by inserting its elements one after another, last one last. */
  function Sort<T>(s: seq<T>, key: T -> int): (r: seq<T>)
    ensures |r| == |s|
    ensures multiset(r) == multiset(s)
    ensures SortedBy(r, key)
  {
    if |s| == 0 then []
    else
      var init := s[..|s| - 1];
      assert s == init + [s[|s| - 1]];
      var sorted := Sort(init, key);
      InsertSorted(s[|s| - 1], sorted, key);
      Insert(s[|s| - 1], sorted, key)
  }

  /** `Sort` is stable. */
  lemma {:induction false} SortStable<T>(s: seq<T>, key: T -> int)
    ensures StablySorted(Sort(s, key), s, key)
  {
    if |s| > 0 {
      var init := s[..|s| - 1];
      var x := s[|s| - 1];
      assert s == init + [x];
      var sorted := Sort(init, key);
      assert Sort(s, key) == Insert(x, sorted, key);
      SortStable(init, key);
      forall k
        ensures WithKey(Sort(s, key), key, k) == WithKey(s, key, k)
      {
        InsertWithKey(x, sorted, key, k);
        WithKeyAppend(init, [x], key, k);
        assert WithKey([x], key, k) == (if key(x) == k then [x] else []) by {
          assert [x][1..] == [];
        }
      }
    }
  }

  lemma WithKeyFirst<T>(s: seq<T>, key: T -> int)
    requires |s| > 0
    ensures WithKey(s, key, key(s[0])) != [] && WithKey(s, key, key(s[0]))[0] == s[0]
  {
  }

  /** Two sequences ordered by key whose elements of each key agree are the same sequence. */
  lemma {:induction false} StablySortedUnique<T>(r1: seq<T>, r2: seq<T>, key: T -> int)
    requires SortedBy(r1, key) && SortedBy(r2, key)
    requires forall k :: WithKey(r1, key, k) == WithKey(r2, key, k)
    ensures r1 == r2
  {
    if |r1| == 0 || |r2| == 0 {
      // The key of the first element of a non-empty one has elements on one side only.
      if |r1| > 0 {
        WithKeyFirst(r1, key);
        assert false;
      } else if |r2| > 0 {
        WithKeyFirst(r2, key);
        assert false;
      }
    } else {
      var k1 := key(r1[0]);
      var k2 := key(r2[0]);
      if k1 < k2 {
        WithKeyAbsent(r2, key, k1);
        assert false;
      } else if k2 < k1 {
        WithKeyAbsent(r1, key, k2);
        assert false;
      }
      assert WithKey(r1, key, k1)[0] == r1[0];
      assert WithKey(r2, key, k1)[0] == r2[0];
      assert r1[0] == r2[0];
      forall k
        ensures WithKey(r1[1..], key, k) == WithKey(r2[1..], key, k)
      {
        assert WithKey(r1, key, k) == (if key(r1[0]) == k then [r1[0]] else []) + WithKey(r1[1..], key, k);
        assert WithKey(r2, key, k) == (if key(r2[0]) == k then [r2[0]] else []) + WithKey(r2[1..], key, k);
        var h := if k1 == k then 1 else 0;
        assert WithKey(r1[1..], key, k) == WithKey(r1, key, k)[h..];
        assert WithKey(r2[1..], key, k) == WithKey(r2, key, k)[h..];
      }
      StablySortedUnique(r1[1..], r2[1..], key);
      assert r1 == [r1[0]] + r1[1..];
      assert r2 == [r2[0]] + r2[1..];
    }
  }

  /** Every stable sort of `s` is `Sort(s)`. */
  lemma StableSortIsSort<T>(r: seq<T>, s: seq<T>, key: T -> int)
    requires StablySorted(r, s, key)
    ensures r == Sort(s, key)
  {
    SortStable(s, key);
    StablySortedUnique(r, Sort(s, key), key);
  }
}
