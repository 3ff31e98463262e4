/** Sequence operations over records identified by a string key: the
    `find`, `map` and `filter` calls with which contexts/TeamsContext.tsx
    looks up, edits and removes teams, athletes and matches by id. The key
    and the edit are passed as named functions, so one definition serves
    all three record kinds. */
module Keyed {
  import opened Wrappers

  /** Number of elements whose key is `k`. */
  function Count<T>(s: seq<T>, key: T -> string, k: string): (n: nat)
    ensures n <= |s|
    ensures n == 0 <==> forall i :: 0 <= i < |s| ==> key(s[i]) != k
  {
    if |s| == 0 then 0 else (if key(s[0]) == k then 1 else 0) + Count(s[1..], key, k)
  }

  /** Position of the first element whose key is `k`. */
  function IndexOf<T>(s: seq<T>, key: T -> string, k: string): (r: Option<nat>)
    ensures r.None? <==> forall i :: 0 <= i < |s| ==> key(s[i]) != k
    ensures r.Some? ==> r.value < |s| && key(s[r.value]) == k
    ensures r.Some? ==> forall j :: 0 <= j < r.value ==> key(s[j]) != k
  {
    if |s| == 0 then None
    else if key(s[0]) == k then Some(0)
    else match IndexOf(s[1..], key, k)
      case None => None
      case Some(i) => Some(i + 1)
  }

  /** `s.find(x => key(x) === k)`: the first element with key `k`, or
      nothing when there is none. */
  function Find<T>(s: seq<T>, key: T -> string, k: string): (r: Option<T>)
    ensures r.None? <==> forall i :: 0 <= i < |s| ==> key(s[i]) != k
    ensures r.Some? ==> exists i :: 0 <= i < |s| && s[i] == r.value && key(s[i]) == k
                                 && forall j :: 0 <= j < i ==> key(s[j]) != k
  {
    match IndexOf(s, key, k)
    case None => None
    case Some(i) => Some(s[i])
  }

  /** `s.map(x => key(x) === k ? edit(x, p) : x)`. */
  function UpdateWhere<T, P>(s: seq<T>, key: T -> string, k: string, edit: (T, P) -> T, p: P): (r: seq<T>)
    ensures |r| == |s|
    ensures forall i :: 0 <= i < |s| && key(s[i]) != k ==> r[i] == s[i]
    ensures forall i :: 0 <= i < |s| && key(s[i]) == k ==> r[i] == edit(s[i], p)
  {
    if |s| == 0 then []
    else [if key(s[0]) == k then edit(s[0], p) else s[0]] + UpdateWhere(s[1..], key, k, edit, p)
  }

  /** `s.filter(x => key(x) !== k)`. */
  function RemoveWhere<T>(s: seq<T>, key: T -> string, k: string): (r: seq<T>)
    ensures |r| == |s| - Count(s, key, k)
    ensures forall i :: 0 <= i < |r| ==> key(r[i]) != k
  {
    if |s| == 0 then []
    else
      assert s == [s[0]] + s[1..];
      var rest := RemoveWhere(s[1..], key, k);
      if key(s[0]) == k then rest else [s[0]] + rest
  }

  // ------------------------------------------------------------- lemmas

  /** An edit that keeps an element's key lets `Find` reach the same
      position before and after the update; a key other than `k` finds
      exactly what it found before. */
  lemma {:induction false} FindAfterUpdate<T, P>(s: seq<T>, key: T -> string, k: string, edit: (T, P) -> T, p: P, k': string)
    requires forall x :: key(edit(x, p)) == key(x)
    ensures Find(UpdateWhere(s, key, k, edit, p), key, k') ==
              match Find(s, key, k')
              case None => None
              case Some(x) => Some(if k' == k then edit(x, p) else x)
  {
    if |s| > 0 {
      var r := UpdateWhere(s, key, k, edit, p);
      assert r[1..] == UpdateWhere(s[1..], key, k, edit, p);
      FindAfterUpdate(s[1..], key, k, edit, p, k');
      assert key(r[0]) == key(s[0]);
    }
  }

  /** Appending an element whose key is new makes it the one `Find`
      returns for that key. */
  lemma {:induction false} FindAppendFresh<T>(s: seq<T>, key: T -> string, x: T)
    requires Count(s, key, key(x)) == 0
    ensures Find(s + [x], key, key(x)) == Some(x)
  {
    if |s| > 0 {
      assert (s + [x])[1..] == s[1..] + [x];
      FindAppendFresh(s[1..], key, x);
    }
  }

  /** Appending an element leaves `Find` for any other key as it was. */
  lemma {:induction false} FindAppendOther<T>(s: seq<T>, key: T -> string, x: T, k: string)
    requires key(x) != k
    ensures Find(s + [x], key, k) == Find(s, key, k)
  {
    if |s| > 0 {
      assert (s + [x])[1..] == s[1..] + [x];
      FindAppendOther(s[1..], key, x, k);
    }
  }

  /** The filter adds nothing, and every element with another key survives
      it as often as it occurred. */
  lemma {:induction false} RemoveWhereKeepsOthers<T>(s: seq<T>, key: T -> string, k: string)
    ensures multiset(RemoveWhere(s, key, k)) <= multiset(s)
    ensures forall i :: 0 <= i < |s| && key(s[i]) != k ==> multiset(RemoveWhere(s, key, k))[s[i]] == multiset(s)[s[i]]
  {
    if |s| > 0 {
      RemoveWhereKeepsOthers(s[1..], key, k);
      assert s == [s[0]] + s[1..];
      assert multiset(RemoveWhere(s, key, k)) <= multiset(s);
      forall i | 0 <= i < |s| && key(s[i]) != k
        ensures multiset(RemoveWhere(s, key, k))[s[i]] == multiset(s)[s[i]]
      {
        var x := s[i];
        if x !in s[1..] {
          assert multiset(RemoveWhere(s[1..], key, k))[x] == 0;
        } else {
          var j :| 0 <= j < |s[1..]| && s[1..][j] == x;
        }
      }
    }
  }

  lemma RemoveWhereCons<T>(x: T, t: seq<T>, key: T -> string, k: string)
    ensures RemoveWhere([x] + t, key, k) == (if key(x) == k then [] else [x]) + RemoveWhere(t, key, k)
  {
    assert ([x] + t)[0] == x;
    assert ([x] + t)[1..] == t;
  }

  /** `filter` distributes over concatenation: the survivors keep the order
      they had. */
  lemma {:induction false} RemoveWhereAppend<T>(a: seq<T>, b: seq<T>, key: T -> string, k: string)
    ensures RemoveWhere(a + b, key, k) == RemoveWhere(a, key, k) + RemoveWhere(b, key, k)
  {
    if |a| == 0 {
      assert a + b == b;
    } else {
      var x, t := a[0], a[1..];
      assert a == [x] + t;
      assert a + b == [x] + (t + b);
      RemoveWhereAppend(t, b, key, k);
      RemoveWhereCons(x, t + b, key, k);
      RemoveWhereCons(x, t, key, k);
      var head := if key(x) == k then [] else [x];
      assert head + (RemoveWhere(t, key, k) + RemoveWhere(b, key, k))
          == (head + RemoveWhere(t, key, k)) + RemoveWhere(b, key, k);
    }
  }

  /** With no element carrying key `k`, filtering keeps everything. */
  lemma {:induction false} RemoveWhereNothing<T>(s: seq<T>, key: T -> string, k: string)
    requires Count(s, key, k) == 0
    ensures RemoveWhere(s, key, k) == s
  {
    if |s| > 0 {
      RemoveWhereNothing(s[1..], key, k);
    }
  }

  /** With no element carrying key `k`, mapping changes nothing. */
  lemma UpdateWhereNothing<T, P>(s: seq<T>, key: T -> string, k: string, edit: (T, P) -> T, p: P)
    requires Count(s, key, k) == 0
    ensures UpdateWhere(s, key, k, edit, p) == s
  {
  }

  /** Count adds up over concatenation. */
  lemma {:induction false} CountAppend<T>(a: seq<T>, b: seq<T>, key: T -> string, k: string)
    ensures Count(a + b, key, k) == Count(a, key, k) + Count(b, key, k)
  {
    if |a| > 0 {
      assert (a + b)[0] == a[0];
      assert (a + b)[1..] == a[1..] + b;
      CountAppend(a[1..], b, key, k);
    } else {
      assert a + b == b;
    }
  }
}
