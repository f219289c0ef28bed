/** `sorted(..., key=...)` with pairs of numbers as keys, and why distinct keys make its result unique. */
module Sorting {
  type Key = (int, int)

  predicate Less(a: Key, b: Key) {
    a.0 < b.0 || (a.0 == b.0 && a.1 < b.1)
  }

  function InsertSorted<T>(x: T, s: seq<T>, key: T -> Key): seq<T> {
    if s == [] then [x]
    else if Less(key(x), key(s[0])) then [x] + s
    else [s[0]] + InsertSorted(x, s[1..], key)
  }

  /** Stable insertion sort. */
  function Sort<T>(s: seq<T>, key: T -> Key): seq<T> {
    if s == [] then [] else InsertSorted(s[|s| - 1], Sort(s[..|s| - 1], key), key)
  }

  ghost predicate StrictlySorted<T>(s: seq<T>, key: T -> Key) {
    forall i, j | 0 <= i < j < |s| :: Less(key(s[i]), key(s[j]))
  }

  ghost predicate DistinctKeys<T>(s: seq<T>, key: T -> Key) {
    forall i, j | 0 <= i < j < |s| :: key(s[i]) != key(s[j])
  }

  lemma {:induction false} InsertKeeps<T>(x: T, s: seq<T>, key: T -> Key)
    ensures multiset(InsertSorted(x, s, key)) == multiset(s) + multiset{x}
  {
    if s != [] {
      assert s == [s[0]] + s[1..];
      InsertKeeps(x, s[1..], key);
    }
  }

  lemma {:induction false} InsertSorts<T>(x: T, s: seq<T>, key: T -> Key)
    requires StrictlySorted(s, key) && forall y | y in s :: key(y) != key(x)
    ensures StrictlySorted(InsertSorted(x, s, key), key)
  {
    if s != [] && !Less(key(x), key(s[0])) {
      var r := InsertSorted(x, s[1..], key);
      InsertSorts(x, s[1..], key);
      InsertKeeps(x, s[1..], key);
      assert key(s[0]) != key(x);
      forall j | 0 <= j < |r|
        ensures Less(key(s[0]), key(r[j]))
      {
        assert r[j] in multiset(r);
        if r[j] != x {
          AfterFirst(s, r[j], key);
        }
      }
    }
  }

  lemma AfterFirst<T>(s: seq<T>, y: T, key: T -> Key)
    requires StrictlySorted(s, key) && s != [] && y in s[1..]
    ensures Less(key(s[0]), key(y))
  {
    var i :| 0 <= i < |s[1..]| && s[1..][i] == y;
    assert s[i + 1] == y;
  }

  lemma {:induction false} SortKeeps<T>(s: seq<T>, key: T -> Key)
    ensures multiset(Sort(s, key)) == multiset(s)
    ensures DistinctKeys(s, key) ==> StrictlySorted(Sort(s, key), key)
  {
    if s != [] {
      var n := |s| - 1;
      assert s == s[..n] + [s[n]];
      SortKeeps(s[..n], key);
      InsertKeeps(s[n], Sort(s[..n], key), key);
      if DistinctKeys(s, key) {
        forall y | y in Sort(s[..n], key)
          ensures key(y) != key(s[n])
        {
          assert y in multiset(s[..n]);
          var j :| 0 <= j < n && s[j] == y;
        }
        InsertSorts(s[n], Sort(s[..n], key), key);
      }
    }
  }

  lemma SortMembers<T>(s: seq<T>, key: T -> Key)
    ensures forall y :: y in Sort(s, key) <==> y in s
    ensures |Sort(s, key)| == |s|
  {
    SortKeeps(s, key);
    SameBag(Sort(s, key), s);
  }

  lemma SameBag<T>(s: seq<T>, t: seq<T>)
    requires multiset(s) == multiset(t)
    ensures forall y :: y in s <==> y in t
    ensures |s| == |t|
  {
    assert forall y :: y in s <==> y in multiset(s);
    assert forall y :: y in t <==> y in multiset(t);
    assert |multiset(s)| == |s| && |multiset(t)| == |t|;
  }

  /** Two strictly sorted sequences of the same elements are the same sequence. */
  lemma {:induction false} SortedUnique<T>(a: seq<T>, b: seq<T>, key: T -> Key)
    requires StrictlySorted(a, key) && StrictlySorted(b, key)
    requires forall x :: x in a <==> x in b
    ensures a == b
    decreases |a|
  {
    Inhabited(a);
    Inhabited(b);
    if a != [] {
      assert a[0] in b && b[0] in a;
      var i :| 0 <= i < |b| && b[i] == a[0];
      var j :| 0 <= j < |a| && a[j] == b[0];
      assert a[0] == b[0];
      TailElements(a, key);
      TailElements(b, key);
      SortedUnique(a[1..], b[1..], key);
    }
  }

  lemma Inhabited<T>(a: seq<T>)
    ensures a == [] || a[0] in a
  {
  }

  lemma TailElements<T>(a: seq<T>, key: T -> Key)
    requires StrictlySorted(a, key) && a != []
    ensures StrictlySorted(a[1..], key)
    ensures forall x :: x in a[1..] <==> x in a && x != a[0]
  {
    forall x | x in a && x != a[0]
      ensures x in a[1..]
    {
      var k :| 0 <= k < |a| && a[k] == x;
      assert a[1..][k - 1] == x;
    }
    forall k | 0 <= k < |a[1..]|
      ensures a[1..][k] != a[0]
    {
      assert Less(key(a[0]), key(a[k + 1]));
    }
  }

  /** A strictly sorted sequence is the sort of any arrangement of its elements. */
  lemma SortIsTheSorted<T>(s: seq<T>, sorted: seq<T>, key: T -> Key)
    requires DistinctKeys(s, key) && StrictlySorted(sorted, key) && forall x :: x in s <==> x in sorted
    ensures Sort(s, key) == sorted
  {
    SortKeeps(s, key);
    SortMembers(s, key);
    SortedUnique(Sort(s, key), sorted, key);
  }

  ghost function KeysOf<T>(s: seq<T>, key: T -> Key): set<Key> {
    set x | x in s :: key(x)
  }

  lemma DistinctOneMore<T>(s: seq<T>, x: T, key: T -> Key)
    ensures DistinctKeys(s + [x], key) <==> DistinctKeys(s, key) && key(x) !in KeysOf(s, key)
    ensures KeysOf(s + [x], key) == KeysOf(s, key) + {key(x)}
  {
    var all, n := s + [x], |s|;
    assert forall i | 0 <= i < n :: all[i] == s[i];
    if key(x) in KeysOf(s, key) {
      var y :| y in s && key(y) == key(x);
      var i :| 0 <= i < n && s[i] == y;
      assert key(all[i]) == key(all[n]);
    } else {
      forall i | 0 <= i < n
        ensures key(all[i]) != key(x)
      {
        assert s[i] in s;
      }
    }
  }

  lemma DistinctAppend<T>(s: seq<T>, t: seq<T>, key: T -> Key)
    requires DistinctKeys(s, key) && DistinctKeys(t, key)
    requires forall i, j | 0 <= i < |s| && 0 <= j < |t| :: key(s[i]) != key(t[j])
    ensures DistinctKeys(s + t, key)
  {
  }

  /** `len(set(keys)) == len(keys)`, the source's test that no two elements share a key. */
  lemma {:induction false} CountingKeys<T>(s: seq<T>, key: T -> Key)
    ensures |KeysOf(s, key)| <= |s|
    ensures |KeysOf(s, key)| == |s| <==> DistinctKeys(s, key)
  {
    if s == [] {
    } else {
      var n := |s| - 1;
      assert s == s[..n] + [s[n]];
      CountingKeys(s[..n], key);
      DistinctOneMore(s[..n], s[n], key);
    }
  }

  /** Distinct keys and the sort itself do not depend on the arrangement. */
  lemma SortForgetsOrder<T>(s: seq<T>, t: seq<T>, key: T -> Key)
    requires multiset(s) == multiset(t)
    ensures DistinctKeys(s, key) <==> DistinctKeys(t, key)
    ensures DistinctKeys(s, key) ==> Sort(s, key) == Sort(t, key)
  {
    SameBag(s, t);
    CountingKeys(s, key);
    CountingKeys(t, key);
    assert KeysOf(s, key) == KeysOf(t, key);
    if DistinctKeys(s, key) {
      SortKeeps(s, key);
      SortKeeps(t, key);
      SortMembers(s, key);
      SortMembers(t, key);
      SortedUnique(Sort(s, key), Sort(t, key), key);
    }
  }
}
