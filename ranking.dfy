/** Python's `list.sort(key=key, reverse=True)`, which both search tools use to
    rank their results: the list ends up in descending key order, it is a
    permutation of the input, and the sort is stable (elements with equal keys
    keep their input order). The library sort is modelled by an insertion sort
    with the same result. */
module Ranking {

  /** Puts `x` after every leading element whose key is at least its own. */
  function Insert<T>(x: T, t: seq<T>, key: T -> real): (r: seq<T>)
    ensures |r| == |t| + 1
    decreases |t|
  {
    if t == [] then [x]
    else if key(x) > key(t[0]) then [x] + t
    else [t[0]] + Insert(x, t[1..], key)
  }

  /** The list after `list.sort(key=key, reverse=True)`. */
  function SortDescending<T>(s: seq<T>, key: T -> real): (r: seq<T>)
    ensures |r| == |s|
  {
    if s == [] then [] else Insert(s[|s| - 1], SortDescending(s[..|s| - 1], key), key)
  }

  ghost predicate Descending<T>(s: seq<T>, key: T -> real) {
    forall i, j :: 0 <= i < j < |s| ==> key(s[i]) >= key(s[j])
  }

  /** The elements whose key is `v`, in their order in `s`. */
  function WithKey<T>(s: seq<T>, key: T -> real, v: real): seq<T>
  {
    if s == [] then [] else (if key(s[0]) == v then [s[0]] else []) + WithKey(s[1..], key, v)
  }

  lemma {:induction false} InsertPermutes<T>(x: T, t: seq<T>, key: T -> real)
    ensures multiset(Insert(x, t, key)) == multiset(t) + multiset{x}
    decreases |t|
  {
    if t != [] && key(x) <= key(t[0]) {
      InsertPermutes(x, t[1..], key);
      assert t == [t[0]] + t[1..];
    }
  }

  lemma {:induction false} InsertKeepsDescending<T>(x: T, t: seq<T>, key: T -> real)
    requires Descending(t, key)
    ensures Descending(Insert(x, t, key), key)
    decreases |t|
  {
    if t != [] && key(x) <= key(t[0]) {
      var rest := t[1..];
      assert Descending(rest, key) by {
        forall i, j | 0 <= i < j < |rest| ensures key(rest[i]) >= key(rest[j]) {
          assert rest[i] == t[i + 1] && rest[j] == t[j + 1];
        }
      }
      InsertKeepsDescending(x, rest, key);
      var tail := Insert(x, rest, key);
      InsertPermutes(x, rest, key);
      forall k | 0 <= k < |tail| ensures key(t[0]) >= key(tail[k]) {
        assert tail[k] in multiset(tail);
        if tail[k] != x {
          assert tail[k] in multiset(rest);
          var m :| 0 <= m < |rest| && rest[m] == tail[k];
          assert rest[m] == t[m + 1];
        }
      }
    }
  }

  /** The sorted list is in descending key order. */
  lemma {:induction false} SortIsDescending<T>(s: seq<T>, key: T -> real)
    ensures Descending(SortDescending(s, key), key)
  {
    if s != [] {
      SortIsDescending(s[..|s| - 1], key);
      InsertKeepsDescending(s[|s| - 1], SortDescending(s[..|s| - 1], key), key);
    }
  }

  /** The sorted list holds exactly the input's elements. */
  lemma {:induction false} SortPermutes<T>(s: seq<T>, key: T -> real)
    ensures multiset(SortDescending(s, key)) == multiset(s)
  {
    if s != [] {
      var init := s[..|s| - 1];
      SortPermutes(init, key);
      InsertPermutes(s[|s| - 1], SortDescending(init, key), key);
      assert s == init + [s[|s| - 1]];
    }
  }

  lemma {:induction false} WithKeyAppend<T>(a: seq<T>, b: seq<T>, key: T -> real, v: real)
    ensures WithKey(a + b, key, v) == WithKey(a, key, v) + WithKey(b, key, v)
    decreases |a|
  {
    if a != [] {
      WithKeyAppend(a[1..], b, key, v);
      assert (a + b)[1..] == a[1..] + b;
      var head := if key(a[0]) == v then [a[0]] else [];
      assert WithKey(a + b, key, v) == head + WithKey(a[1..] + b, key, v);
      assert WithKey(a, key, v) == head + WithKey(a[1..], key, v);
      assert head + (WithKey(a[1..], key, v) + WithKey(b, key, v))
          == (head + WithKey(a[1..], key, v)) + WithKey(b, key, v);
    } else {
      assert a + b == b;
    }
  }

  lemma {:induction false} WithKeyAbove<T>(t: seq<T>, key: T -> real, v: real)
    requires forall k :: 0 <= k < |t| ==> key(t[k]) < v
    ensures WithKey(t, key, v) == []
    decreases |t|
  {
    if t != [] {
      WithKeyAbove(t[1..], key, v);
    }
  }

  lemma {:induction false} InsertIsStable<T>(x: T, t: seq<T>, key: T -> real, v: real)
    requires Descending(t, key)
    ensures WithKey(Insert(x, t, key), key, v)
         == WithKey(t, key, v) + (if key(x) == v then [x] else [])
    decreases |t|
  {
    if t == [] {
    } else if key(x) > key(t[0]) {
      assert ([x] + t)[1..] == t;
      if key(x) == v {
        WithKeyAbove(t, key, v);
      }
    } else {
      var rest := t[1..];
      assert Descending(rest, key) by {
        forall i, j | 0 <= i < j < |rest| ensures key(rest[i]) >= key(rest[j]) {
          assert rest[i] == t[i + 1] && rest[j] == t[j + 1];
        }
      }
      InsertIsStable(x, rest, key, v);
      assert ([t[0]] + Insert(x, rest, key))[1..] == Insert(x, rest, key);
    }
  }

  /** Stability: for every key value, the elements with that key appear in the
      sorted list in the same order as in the input. */
  lemma {:induction false} SortIsStable<T>(s: seq<T>, key: T -> real, v: real)
    ensures WithKey(SortDescending(s, key), key, v) == WithKey(s, key, v)
  {
    if s != [] {
      var init := s[..|s| - 1];
      var x := s[|s| - 1];
      SortIsStable(init, key, v);
      SortIsDescending(init, key);
      InsertIsStable(x, SortDescending(init, key), key, v);
      WithKeyAppend(init, [x], key, v);
      assert s == init + [x];
      assert WithKey([x], key, v) == (if key(x) == v then [x] else []) + WithKey([x][1..], key, v);
    }
  }
}
