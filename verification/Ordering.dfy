/**
  Stable sorting by a key, as `list.sort(key=...)` and `np.sort` promise it: the result is ascending,
  and elements with equal keys keep their order. That fixes the result uniquely, so `SortBy` stands
  for whatever algorithm the library uses. `reverse=True` is a sort by the negated key.
*/
module Ordering {

  function Insert<T>(x: T, s: seq<T>, key: T -> real): (r: seq<T>)
    ensures |r| == |s| + 1
  {
    if s == [] || key(x) <= key(s[0]) then [x] + s else [s[0]] + Insert(x, s[1..], key)
  }

  function SortBy<T>(s: seq<T>, key: T -> real): (r: seq<T>)
    ensures |r| == |s|
  {
    if s == [] then [] else Insert(s[0], SortBy(s[1..], key), key)
  }

  ghost predicate Ascending<T>(s: seq<T>, key: T -> real)
  {
    forall i, j :: 0 <= i < j < |s| ==> key(s[i]) <= key(s[j])
  }

  /** The elements of s whose key is k, in order. */
  ghost function Ties<T>(s: seq<T>, key: T -> real, k: real): seq<T>
  {
    if s == [] then [] else (if key(s[0]) == k then [s[0]] else []) + Ties(s[1..], key, k)
  }

  lemma {:induction false} InsertMembers<T>(x: T, s: seq<T>, key: T -> real)
    ensures multiset(Insert(x, s, key)) == multiset(s) + multiset{x}
  {
    if s != [] && key(x) > key(s[0]) {
      InsertMembers(x, s[1..], key);
      assert s == [s[0]] + s[1..];
    }
  }

  lemma {:induction false} InsertAscends<T>(x: T, s: seq<T>, key: T -> real)
    requires Ascending(s, key)
    ensures Ascending(Insert(x, s, key), key)
  {
    if s != [] && key(x) > key(s[0]) {
      var rest := Insert(x, s[1..], key);
      InsertAscends(x, s[1..], key);
      InsertMembers(x, s[1..], key);
      forall y | y in rest ensures key(s[0]) <= key(y) {
        assert y in multiset(rest);
        assert y == x || y in s[1..];
      }
    }
  }

  lemma {:induction false} InsertTies<T>(x: T, s: seq<T>, key: T -> real, k: real)
    ensures Ties(Insert(x, s, key), key, k) == (if key(x) == k then [x] else []) + Ties(s, key, k)
  {
    if s == [] || key(x) <= key(s[0]) {
      assert ([x] + s)[1..] == s;
    } else {
      var rest := Insert(x, s[1..], key);
      InsertTies(x, s[1..], key, k);
      assert ([s[0]] + rest)[1..] == rest;
      if key(x) == k {
        assert Ties(s, key, k) == Ties(s[1..], key, k);
        assert Ties([s[0]] + rest, key, k) == Ties(rest, key, k);
      } else {
        assert Ties(rest, key, k) == Ties(s[1..], key, k);
      }
    }
  }

  /** The sort is a sort. */
  lemma {:induction false} SortBySorts<T>(s: seq<T>, key: T -> real)
    ensures Ascending(SortBy(s, key), key)
    ensures multiset(SortBy(s, key)) == multiset(s)
  {
    if s != [] {
      SortBySorts(s[1..], key);
      InsertMembers(s[0], SortBy(s[1..], key), key);
      InsertAscends(s[0], SortBy(s[1..], key), key);
      assert s == [s[0]] + s[1..];
    }
  }

  /** The sort is stable. */
  lemma {:induction false} SortByStable<T>(s: seq<T>, key: T -> real, k: real)
    ensures Ties(SortBy(s, key), key, k) == Ties(s, key, k)
  {
    if s != [] {
      var rest := SortBy(s[1..], key);
      SortByStable(s[1..], key, k);
      InsertTies(s[0], rest, key, k);
    }
  }

  lemma {:induction false} TiesMember<T>(s: seq<T>, key: T -> real, k: real)
    ensures Ties(s, key, k) != [] <==> exists i :: 0 <= i < |s| && key(s[i]) == k
  {
    if s != [] {
      TiesMember(s[1..], key, k);
      if i :| 0 <= i < |s[1..]| && key(s[1..][i]) == k { assert s[i + 1] == s[1..][i]; }
      if i :| 0 <= i < |s| && key(s[i]) == k { assert i > 0 ==> s[i] == s[1..][i - 1]; }
    }
  }

  /** Nothing else is a stable sort of s. */
  lemma SortByUnique<T>(s: seq<T>, t: seq<T>, key: T -> real)
    requires Ascending(t, key)
    requires forall k :: Ties(t, key, k) == Ties(s, key, k)
    ensures t == SortBy(s, key)
  {
    SortBySorts(s, key);
    forall k ensures Ties(t, key, k) == Ties(SortBy(s, key), key, k) { SortByStable(s, key, k); }
    SameTies(t, SortBy(s, key), key);
  }

  lemma {:induction false} SameTies<T>(a: seq<T>, b: seq<T>, key: T -> real)
    requires Ascending(a, key) && Ascending(b, key)
    requires forall k :: Ties(a, key, k) == Ties(b, key, k)
    ensures a == b
  {
    if a != [] {
      SameHead(a, b, key);
      forall k ensures Ties(a[1..], key, k) == Ties(b[1..], key, k) {
        SameTail(a, b, key, k);
      }
      SameTies(a[1..], b[1..], key);
      assert a == [a[0]] + a[1..] && b == [b[0]] + b[1..];
    } else if b != [] {
      SameHead(b, a, key);
    }
  }

  lemma SameHead<T>(a: seq<T>, b: seq<T>, key: T -> real)
    requires Ascending(a, key) && Ascending(b, key) && a != []
    requires forall k :: Ties(a, key, k) == Ties(b, key, k)
    ensures b != [] && a[0] == b[0]
  {
    TiesMember(b, key, key(a[0]));
    TiesMember(a, key, key(b[0]));
    assert a[0] == Ties(a, key, key(a[0]))[0];
    assert b[0] == Ties(b, key, key(b[0]))[0];
  }

  lemma SameTail<T>(a: seq<T>, b: seq<T>, key: T -> real, k: real)
    requires a != [] && b != [] && a[0] == b[0]
    requires Ties(a, key, k) == Ties(b, key, k)
    ensures Ties(a[1..], key, k) == Ties(b[1..], key, k)
  {
    if key(a[0]) == k {
      assert Ties(a[1..], key, k) == Ties(a, key, k)[1..];
      assert Ties(b[1..], key, k) == Ties(b, key, k)[1..];
    } else {
      assert Ties(a[1..], key, k) == Ties(a, key, k);
      assert Ties(b[1..], key, k) == Ties(b, key, k);
    }
  }

  /** A stable sort puts the first of the smallest elements first. */
  lemma {:induction false} SortHead<T>(s: seq<T>, key: T -> real) returns (i: nat)
    requires s != []
    ensures i < |s| && SortBy(s, key)[0] == s[i]
    ensures forall j: nat :: j < |s| ==> key(s[i]) < key(s[j]) || (key(s[i]) == key(s[j]) && i <= j)
  {
    i := 0;
    if |s| > 1 {
      var k := SortHead(s[1..], key);
      if key(s[0]) > key(s[k + 1]) { i := k + 1; }
      forall j: nat | j < |s| ensures key(s[i]) < key(s[j]) || (key(s[i]) == key(s[j]) && i <= j) {
        if j > 0 { assert s[j] == s[1..][j - 1]; }
      }
    }
  }

  /** And the last of the largest elements last. */
  lemma {:induction false} SortLast<T>(s: seq<T>, key: T -> real) returns (i: nat)
    requires s != []
    ensures i < |s| && SortBy(s, key)[|s| - 1] == s[i]
    ensures forall j: nat :: j < |s| ==> key(s[j]) < key(s[i]) || (key(s[j]) == key(s[i]) && j <= i)
  {
    i := 0;
    if |s| > 1 {
      var rest := SortBy(s[1..], key);
      var k := SortLast(s[1..], key);
      SortBySorts(s[1..], key);
      InsertLast(s[0], rest, key);
      if key(s[0]) <= key(s[k + 1]) { i := k + 1; }
      forall j: nat | j < |s| ensures key(s[j]) < key(s[i]) || (key(s[j]) == key(s[i]) && j <= i) {
        if j > 0 { assert s[j] == s[1..][j - 1]; }
      }
    }
  }

  lemma {:induction false} InsertLast<T>(x: T, s: seq<T>, key: T -> real)
    requires s != [] && Ascending(s, key)
    ensures Insert(x, s, key)[|s|] == if key(x) <= key(s[|s| - 1]) then s[|s| - 1] else x
  {
    if |s| > 1 && key(x) > key(s[0]) {
      InsertLast(x, s[1..], key);
    } else if |s| > 1 {
      assert key(s[0]) <= key(s[|s| - 1]);
    }
  }

  /** `np.sort` on numbers. */
  function Sort(s: seq<real>): seq<real> { SortBy(s, (x: real) => x) }

  lemma SortAscends(s: seq<real>)
    ensures forall i, j :: 0 <= i <= j < |s| ==> Sort(s)[i] <= Sort(s)[j]
  {
    var key := (x: real) => x;
    SortBySorts(s, key);
    forall i, j | 0 <= i <= j < |s| ensures Sort(s)[i] <= Sort(s)[j] {
      if i < j { assert key(Sort(s)[i]) <= key(Sort(s)[j]); }
    }
  }

  /** Sorting forgets the order of its input. */
  lemma SortPermuted(s: seq<real>, t: seq<real>)
    requires multiset(s) == multiset(t)
    ensures Sort(s) == Sort(t)
  {
    SortBySorts(s, (x: real) => x);
    SortBySorts(t, (x: real) => x);
    SortAscends(s);
    SortAscends(t);
    SortedIsUnique(Sort(s), Sort(t));
  }

  predicate IsSorted(s: seq<real>) { forall i, j :: 0 <= i <= j < |s| ==> s[i] <= s[j] }

  lemma {:induction false} SortedIsUnique(s: seq<real>, t: seq<real>)
    requires multiset(s) == multiset(t) && IsSorted(s) && IsSorted(t)
    ensures s == t
  {
    assert |multiset(s)| == |s| && |multiset(t)| == |t|;
    if s != [] {
      SmallestFirst(s, t);
      SmallestFirst(t, s);
      WithoutFirst(s);
      WithoutFirst(t);
      SortedIsUnique(s[1..], t[1..]);
      assert s == [s[0]] + s[1..] && t == [t[0]] + t[1..];
    }
  }

  lemma SmallestFirst(s: seq<real>, t: seq<real>)
    requires s != [] && t != [] && multiset(s) == multiset(t) && IsSorted(s)
    ensures s[0] <= t[0]
  {
    assert t[0] in multiset(t);
    var k :| 0 <= k < |s| && s[k] == t[0];
  }

  lemma WithoutFirst(s: seq<real>)
    requires s != []
    ensures multiset(s[1..]) == multiset(s) - multiset{s[0]}
    ensures IsSorted(s) ==> IsSorted(s[1..])
  {
    assert s == [s[0]] + s[1..];
  }

  function CountUpTo(s: seq<real>, bound: real): nat
  {
    if s == [] then 0 else (if s[0] <= bound then 1 else 0) + CountUpTo(s[1..], bound)
  }

  lemma {:induction false} SortKeepsCount(s: seq<real>, bound: real)
    ensures CountUpTo(Sort(s), bound) == CountUpTo(s, bound)
  {
    if s != [] {
      SortKeepsCount(s[1..], bound);
      InsertCounts(s[0], Sort(s[1..]), bound);
    }
  }

  lemma {:induction false} InsertCounts(x: real, s: seq<real>, bound: real)
    ensures CountUpTo(Insert(x, s, (y: real) => y), bound) == CountUpTo(s, bound) + (if x <= bound then 1 else 0)
  {
    var key := (y: real) => y;
    if s == [] || x <= s[0] {
      assert ([x] + s)[1..] == s;
    } else {
      InsertCounts(x, s[1..], bound);
      assert ([s[0]] + Insert(x, s[1..], key))[1..] == Insert(x, s[1..], key);
    }
  }

  /** An ascending sequence has at least k + 1 elements up to any bound its k-th element meets. */
  lemma {:induction false} CountPrefix(s: seq<real>, k: nat, bound: real)
    requires Ascending(s, (x: real) => x) && k < |s| && s[k] <= bound
    ensures CountUpTo(s, bound) >= k + 1
  {
    if k > 0 {
      var key := (x: real) => x;
      assert key(s[0]) <= key(s[k]);
      CountPrefix(s[1..], k - 1, bound);
    }
  }
}
