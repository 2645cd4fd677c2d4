/** Stable sorting by a key, as Python's `sorted(key=...)` and JavaScript's `sort` do it. */
module Sorting {

  ghost predicate TotalOrder<K(!new)>(le: (K, K) -> bool) {
    && (forall a, b :: le(a, b) || le(b, a))
    && (forall a, b :: le(a, b) && le(b, a) ==> a == b)
    && (forall a, b, c :: le(a, b) && le(b, c) ==> le(a, c))
  }

  ghost predicate SortedBy<T(!new), K(!new)>(s: seq<T>, key: T -> K, le: (K, K) -> bool) {
    forall i, j :: 0 <= i < j < |s| ==> le(key(s[i]), key(s[j]))
  }

  ghost predicate DistinctBy<T(!new), K(!new)>(s: seq<T>, key: T -> K) {
    forall i, j :: 0 <= i < j < |s| ==> key(s[i]) != key(s[j])
  }

  function Insert<T(!new), K(!new)>(x: T, s: seq<T>, key: T -> K, le: (K, K) -> bool): (r: seq<T>)
    ensures multiset(r) == multiset(s) + multiset{x}
  {
    if s == [] || le(key(x), key(s[0])) then
      [x] + s
    else
      assert s == [s[0]] + s[1..];
      [s[0]] + Insert(x, s[1..], key, le)
  }

  function Sort<T(!new), K(!new)>(s: seq<T>, key: T -> K, le: (K, K) -> bool): (r: seq<T>)
    ensures multiset(r) == multiset(s)
    ensures |r| == |s|
  {
    if s == [] then
      []
    else
      assert s == [s[0]] + s[1..];
      var r := Insert(s[0], Sort(s[1..], key, le), key, le);
      assert |multiset(r)| == |multiset(s)|;
      r
  }

  lemma {:induction false} InsertSorted<T(!new), K(!new)>(x: T, s: seq<T>, key: T -> K, le: (K, K) -> bool)
    requires TotalOrder(le) && SortedBy(s, key, le)
    ensures SortedBy(Insert(x, s, key, le), key, le)
  {
    if s != [] && !le(key(x), key(s[0])) {
      InsertSorted(x, s[1..], key, le);
      var r := Insert(x, s[1..], key, le);
      forall j | 0 <= j < |r| ensures le(key(s[0]), key(r[j])) {
        assert r[j] in multiset(r);
      }
    }
  }

  lemma {:induction false} SortSorts<T(!new), K(!new)>(s: seq<T>, key: T -> K, le: (K, K) -> bool)
    requires TotalOrder(le)
    ensures SortedBy(Sort(s, key, le), key, le)
  {
    if s == [] {
    } else {
      SortSorts(s[1..], key, le);
      InsertSorted(s[0], Sort(s[1..], key, le), key, le);
    }
  }

  lemma {:induction false} SameElements<T(!new)>(a: seq<T>, b: seq<T>)
    requires multiset(a) == multiset(b)
    ensures forall x :: x in a <==> x in b
  {
    forall x ensures x in a <==> x in b {
      assert x in a <==> x in multiset(a);
      assert x in b <==> x in multiset(b);
    }
  }

  /** A permutation of a sequence with distinct keys has distinct keys. */
  lemma {:induction false} PermutationDistinct<T(!new), K(!new)>(a: seq<T>, b: seq<T>, key: T -> K)
    requires multiset(a) == multiset(b) && DistinctBy(a, key)
    ensures DistinctBy(b, key)
  {
    SameElements(a, b);
    forall i, j | 0 <= i < j < |b| ensures key(b[i]) != key(b[j]) {
      assert b[i] in a && b[j] in a;
      if b[i] == b[j] {
        CountOne(a, b[i]);
        CountTwo(b, i, j);
        assert false;
      }
    }
  }

  lemma {:induction false} CountTwo<T(!new)>(b: seq<T>, i: nat, j: nat)
    requires i < j < |b| && b[i] == b[j]
    ensures multiset(b)[b[i]] >= 2
  {
    assert b == b[..j] + b[j..];
    assert multiset(b) == multiset(b[..j]) + multiset(b[j..]);
    assert b[..j][i] == b[i] && b[j..][0] == b[i];
    assert b[i] in b[..j] && b[i] in b[j..];
  }

  /** With distinct keys there is only one way to sort. */
  lemma {:induction false} SortedUnique<T(!new), K(!new)>(a: seq<T>, b: seq<T>, key: T -> K, le: (K, K) -> bool)
    requires TotalOrder(le) && SortedBy(a, key, le) && SortedBy(b, key, le)
    requires DistinctBy(a, key) && multiset(a) == multiset(b)
    ensures a == b
  {
    assert |multiset(a)| == |multiset(b)|;
    if a == [] {
    } else {
      HeadIsLeast(a, b, key, le);
      HeadIsLeast(b, a, key, le);
      SameElements(a, b);
      assert b[0] in a;
      assert a[0] == b[0];
      TailElements(a);
      TailElements(b);
      SortedUnique(a[1..], b[1..], key, le);
    }
  }

  lemma {:induction false} TailElements<T(!new)>(a: seq<T>)
    requires a != []
    ensures a == [a[0]] + a[1..] && multiset(a[1..]) == multiset(a) - multiset{a[0]}
  {
    assert a == [a[0]] + a[1..];
  }

  lemma {:induction false} HeadIsLeast<T(!new), K(!new)>(a: seq<T>, b: seq<T>, key: T -> K, le: (K, K) -> bool)
    requires TotalOrder(le) && SortedBy(a, key, le)
    requires a != [] && b != [] && multiset(a) == multiset(b)
    ensures le(key(a[0]), key(b[0]))
  {
    SameElements(a, b);
    assert b[0] in a;
    var i :| 0 <= i < |a| && a[i] == b[0];
  }

  /** Sorting forgets the order it was given. */
  lemma {:induction false} SortOfPermutation<T(!new), K(!new)>(a: seq<T>, b: seq<T>, key: T -> K, le: (K, K) -> bool)
    requires TotalOrder(le) && DistinctBy(a, key) && multiset(a) == multiset(b)
    ensures Sort(a, key, le) == Sort(b, key, le)
  {
    SortSorts(a, key, le);
    SortSorts(b, key, le);
    PermutationDistinct(a, Sort(a, key, le), key);
    SortedUnique(Sort(a, key, le), Sort(b, key, le), key, le);
  }

  /** Sorting a sorted sequence changes nothing. */
  lemma {:induction false} SortOfSorted<T(!new), K(!new)>(a: seq<T>, key: T -> K, le: (K, K) -> bool)
    requires TotalOrder(le) && DistinctBy(a, key) && SortedBy(a, key, le)
    ensures Sort(a, key, le) == a
  {
    SortSorts(a, key, le);
    PermutationDistinct(a, Sort(a, key, le), key);
    SortedUnique(Sort(a, key, le), a, key, le);
  }

  /** Two sequences of one length, each without repetition, the first contained in the second. */
  lemma {:induction false} ContainedIsPermutation<T(!new)>(a: seq<T>, b: seq<T>)
    requires |a| == |b|
    requires forall i, j :: 0 <= i < j < |a| ==> a[i] != a[j]
    requires forall i, j :: 0 <= i < j < |b| ==> b[i] != b[j]
    requires forall x :: x in a ==> x in b
    ensures multiset(a) == multiset(b)
  {
    var sa, sb := set x | x in a, set x | x in b;
    SetSize(a);
    SetSize(b);
    assert sa <= sb;
    assert sb == sa + (sb - sa);
    assert |sb| == |sa| + |sb - sa|;
    assert sa == sb;
    forall x ensures multiset(a)[x] == multiset(b)[x] {
      CountOne(a, x);
      CountOne(b, x);
      assert x in a <==> x in sa;
      assert x in b <==> x in sb;
    }
  }

  lemma {:induction false} SetSize<T(!new)>(a: seq<T>)
    requires forall i, j :: 0 <= i < j < |a| ==> a[i] != a[j]
    ensures |set x | x in a| == |a|
  {
    if a == [] {
    } else {
      SetSize(a[1..]);
      assert (set x | x in a) == {a[0]} + (set x | x in a[1..]);
    }
  }

  lemma {:induction false} CountOne<T(!new)>(a: seq<T>, x: T)
    requires forall i, j :: 0 <= i < j < |a| ==> a[i] != a[j]
    ensures multiset(a)[x] == if x in a then 1 else 0
  {
    if a == [] {
    } else {
      CountOne(a[1..], x);
      assert a == [a[0]] + a[1..];
      assert multiset(a) == multiset{a[0]} + multiset(a[1..]);
    }
  }

  function MapSeq<T(!new), U(!new)>(f: T -> U, s: seq<T>): (r: seq<U>)
    ensures |r| == |s|
    ensures forall i :: 0 <= i < |s| ==> r[i] == f(s[i])
  {
    if s == [] then [] else [f(s[0])] + MapSeq(f, s[1..])
  }

  /** A change to the elements that leaves their keys alone can be made before or after sorting. */
  lemma {:induction false} SortOfMapped<T(!new), U(!new), K(!new)>(
      s: seq<T>, f: T -> U, key: T -> K, key': U -> K, le: (K, K) -> bool)
    requires forall x :: x in s ==> key'(f(x)) == key(x)
    ensures Sort(MapSeq(f, s), key', le) == MapSeq(f, Sort(s, key, le))
  {
    if s == [] {
    } else {
      forall x | x in s[1..] ensures x in s {}
      SortOfMapped(s[1..], f, key, key', le);
      var t := Sort(s[1..], key, le);
      assert MapSeq(f, s)[1..] == MapSeq(f, s[1..]);
      SameElements(t, s[1..]);
      InsertMapped(s[0], t, f, key, key', le);
    }
  }

  lemma {:induction false} InsertMapped<T(!new), U(!new), K(!new)>(
      x: T, s: seq<T>, f: T -> U, key: T -> K, key': U -> K, le: (K, K) -> bool)
    requires key'(f(x)) == key(x) && forall y :: y in s ==> key'(f(y)) == key(y)
    ensures Insert(f(x), MapSeq(f, s), key', le) == MapSeq(f, Insert(x, s, key, le))
  {
    if s == [] {
    } else if le(key(x), key(s[0])) {
      assert s[0] in s;
      assert ([x] + s)[1..] == s;
    } else {
      assert s[0] in s;
      InsertMapped(x, s[1..], f, key, key', le);
      assert MapSeq(f, s)[1..] == MapSeq(f, s[1..]);
      var r := Insert(x, s[1..], key, le);
      assert ([s[0]] + r)[1..] == r;
    }
  }
}
