/** Stable ordering by an integer key: `Array.prototype.sort` with the
    comparator `(a, b) => key(a) - key(b)` that `getAllMatches` uses
    (contexts/TeamsContext.tsx). The language requires that sort to be
    stable, and a stable sort's output is fully determined (see
    `StableSortedUnique`), so an insertion sort describes it exactly. */
module Sorting {

  /** Nondecreasing by key. */
  predicate Sorted<T>(s: seq<T>, key: T -> int)
  {
    forall i, j :: 0 <= i < j < |s| ==> key(s[i]) <= key(s[j])
  }

  /** The elements whose key is `v`, in the order they occur in `s`. */
  function WithKey<T>(s: seq<T>, key: T -> int, v: int): seq<T>
  {
    if |s| == 0 then []
    else (if key(s[0]) == v then [s[0]] else []) + WithKey(s[1..], key, v)
  }

  /** `r` orders the elements of `s` by key, keeping the input order among
      elements whose keys are equal. */
  ghost predicate StablySorts<T>(s: seq<T>, r: seq<T>, key: T -> int)
  {
    && Sorted(r, key)
    && multiset(r) == multiset(s)
    && forall v :: WithKey(r, key, v) == WithKey(s, key, v)
  }

  /** Places `x` ahead of every element whose key is not below its own. */
  function Insert<T>(x: T, s: seq<T>, key: T -> int): (r: seq<T>)
    requires Sorted(s, key)
    ensures Sorted(r, key)
    ensures multiset(r) == multiset(s) + multiset{x}
    ensures r[0] == x || (|s| > 0 && r[0] == s[0])
  {
    if |s| == 0 || key(x) <= key(s[0]) then
      [x] + s
    else
      var rest := Insert(x, s[1..], key);
      assert s == [s[0]] + s[1..];
      [s[0]] + rest
  }

  /** Insertion sort, taking the input from the front so that of two equal
      keys the earlier element ends up first. */
  function Sort<T>(s: seq<T>, key: T -> int): (r: seq<T>)
    ensures Sorted(r, key)
    ensures multiset(r) == multiset(s)
    ensures forall v :: WithKey(r, key, v) == WithKey(s, key, v)
  {
    if |s| == 0 then []
    else
      assert s == [s[0]] + s[1..];
      var rest := Sort(s[1..], key);
      InsertClasses(s[0], rest, key);
      Insert(s[0], rest, key)
  }

  // ------------------------------------------------------------- lemmas

  lemma WithKeyCons<T>(y: T, t: seq<T>, key: T -> int, v: int)
    ensures WithKey([y] + t, key, v) == (if key(y) == v then [y] else []) + WithKey(t, key, v)
  {
    assert ([y] + t)[1..] == t;
  }

  /** Inserting `x` puts it at the front of its key class and leaves every
      other class as it was. */
  lemma {:induction false} InsertClass<T>(x: T, s: seq<T>, key: T -> int, v: int)
    requires Sorted(s, key)
    ensures WithKey(Insert(x, s, key), key, v) == (if key(x) == v then [x] else []) + WithKey(s, key, v)
  {
    if |s| == 0 || key(x) <= key(s[0]) {
      WithKeyCons(x, s, key, v);
    } else {
      var rest := Insert(x, s[1..], key);
      InsertClass(x, s[1..], key, v);
      WithKeyCons(s[0], rest, key, v);
      WithKeyCons(s[0], s[1..], key, v);
      assert s == [s[0]] + s[1..];
    }
  }

  lemma InsertClasses<T>(x: T, s: seq<T>, key: T -> int)
    requires Sorted(s, key)
    ensures forall v :: WithKey(Insert(x, s, key), key, v) == (if key(x) == v then [x] else []) + WithKey(s, key, v)
  {
    forall v
      ensures WithKey(Insert(x, s, key), key, v) == (if key(x) == v then [x] else []) + WithKey(s, key, v)
    {
      InsertClass(x, s, key, v);
    }
  }

  lemma {:induction false} WithKeyMember<T>(s: seq<T>, key: T -> int, v: int, x: T)
    ensures x in WithKey(s, key, v) <==> x in s && key(x) == v
  {
    if |s| > 0 {
      WithKeyMember(s[1..], key, v, x);
      assert s == [s[0]] + s[1..];
    }
  }

  /** A non-empty sequence has a non-empty class: that of its first element. */
  lemma WithKeyFirst<T>(s: seq<T>, key: T -> int)
    requires |s| > 0
    ensures WithKey(s, key, key(s[0])) != []
  {
  }

  /** Two sequences that are both sorted and agree on the order of each key
      class are equal: a stable sort has exactly one possible output. */
  lemma {:induction false} StableSortedUnique<T>(a: seq<T>, b: seq<T>, key: T -> int)
    requires Sorted(a, key) && Sorted(b, key)
    requires forall v :: WithKey(a, key, v) == WithKey(b, key, v)
    ensures a == b
    decreases |a| + |b|
  {
    if |a| == 0 && |b| == 0 {
    } else if |a| == 0 {
      WithKeyFirst(b, key);
      assert false;
    } else if |b| == 0 {
      WithKeyFirst(a, key);
      assert false;
    } else {
      var va, vb := key(a[0]), key(b[0]);
      WithKeyMember(a, key, va, a[0]);
      WithKeyMember(b, key, vb, b[0]);
      WithKeyMember(b, key, va, a[0]);
      WithKeyMember(a, key, vb, b[0]);
      assert va == vb;
      assert a[0] == b[0] by {
        assert WithKey(a, key, va)[0] == a[0];
        assert WithKey(b, key, va)[0] == b[0];
      }
      forall v
        ensures WithKey(a[1..], key, v) == WithKey(b[1..], key, v)
      {
        assert WithKey(a, key, v) == WithKey(b, key, v);
        WithKeyCons(a[0], a[1..], key, v);
        WithKeyCons(b[0], b[1..], key, v);
        assert a == [a[0]] + a[1..];
        assert b == [b[0]] + b[1..];
        if va == v {
          assert WithKey(a[1..], key, v) == WithKey(a, key, v)[1..];
          assert WithKey(b[1..], key, v) == WithKey(b, key, v)[1..];
        } else {
          assert WithKey(a, key, v) == WithKey(a[1..], key, v);
          assert WithKey(b, key, v) == WithKey(b[1..], key, v);
        }
      }
      StableSortedUnique(a[1..], b[1..], key);
      assert a == [a[0]] + a[1..];
      assert b == [b[0]] + b[1..];
    }
  }
}
