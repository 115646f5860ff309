/** The `orderBy` clauses of the store queries and the client-side orderings,
    modelled as an insertion sort on a key. Ties between equal keys are left in
    an order the model fixes but the source does not promise. */
module Sorting {

  import Seqs

  predicate SortedBy<T>(s: seq<T>, key: T -> int)
  {
    forall i, j :: 0 <= i < j < |s| ==> key(s[i]) <= key(s[j])
  }

  predicate SortedDescBy<T>(s: seq<T>, key: T -> int)
  {
    forall i, j :: 0 <= i < j < |s| ==> key(s[i]) >= key(s[j])
  }

  function Insert<T>(x: T, s: seq<T>, key: T -> int): (r: seq<T>)
    ensures multiset(r) == multiset(s) + multiset{x}
    ensures |r| == |s| + 1
    decreases |s|
  {
    if |s| == 0 then [x]
    else if key(x) <= key(s[0]) then [x] + s
    else
      assert s == [s[0]] + s[1..];
      [s[0]] + Insert(x, s[1..], key)
  }

  lemma {:induction false} InsertSorted<T>(x: T, s: seq<T>, key: T -> int)
    requires SortedBy(s, key)
    ensures SortedBy(Insert(x, s, key), key)
    decreases |s|
  {
    if |s| > 0 && key(x) > key(s[0]) {
      var rest := Insert(x, s[1..], key);
      InsertSorted(x, s[1..], key);
      InsertAbove(x, s[1..], key, key(s[0]));
      assert Insert(x, s, key) == [s[0]] + rest;
    }
  }

  /** Inserting above a lower bound of `s` keeps every key above it. */
  lemma {:induction false} InsertAbove<T>(x: T, s: seq<T>, key: T -> int, lo: int)
    requires key(x) >= lo && forall i :: 0 <= i < |s| ==> key(s[i]) >= lo
    ensures forall i :: 0 <= i < |Insert(x, s, key)| ==> key(Insert(x, s, key)[i]) >= lo
    decreases |s|
  {
    if |s| > 0 && key(x) > key(s[0]) {
      InsertAbove(x, s[1..], key, lo);
      assert Insert(x, s, key) == [s[0]] + Insert(x, s[1..], key);
    }
  }

  /** `orderBy: { key: 'asc' }`. */
  function SortBy<T>(s: seq<T>, key: T -> int): (r: seq<T>)
    ensures SortedBy(r, key)
    ensures multiset(r) == multiset(s)
    ensures |r| == |s|
    decreases |s|
  {
    if |s| == 0 then []
    else
      assert s == [s[0]] + s[1..];
      var rest := SortBy(s[1..], key);
      InsertSorted(s[0], rest, key);
      Insert(s[0], rest, key)
  }

  /** `orderBy: { key: 'desc' }`. */
  function SortDescBy<T>(s: seq<T>, key: T -> int): (r: seq<T>)
    ensures SortedDescBy(r, key)
    ensures multiset(r) == multiset(s)
    ensures |r| == |s|
  {
    var neg := (x: T) => -key(x);
    var r := SortBy(s, neg);
    assert forall i :: 0 <= i < |r| ==> neg(r[i]) == -key(r[i]);
    r
  }

  /** Sorting keeps exactly the elements it was given. */
  lemma SortedElements<T>(s: seq<T>, r: seq<T>)
    requires multiset(r) == multiset(s)
    ensures forall x :: x in r <==> x in s
  {
    forall x
      ensures x in r <==> x in s
    {
      assert x in r <==> x in multiset(r);
      assert x in s <==> x in multiset(s);
    }
  }

  /** Sorting on a key and then mapping gives the images of the elements,
      in the order of any key of the images that follows the first. */
  lemma SortedImage<T, U>(s: seq<T>, key: T -> int, f: T -> U, imageKey: U -> int)
    requires forall x :: imageKey(f(x)) == key(x)
    ensures SortedDescBy(Seqs.Map(SortDescBy(s, key), f), imageKey)
    ensures forall y :: y in Seqs.Map(SortDescBy(s, key), f) <==> exists x :: x in s && y == f(x)
  {
    var sorted := SortDescBy(s, key);
    var m := Seqs.Map(sorted, f);
    assert forall i :: 0 <= i < |m| ==> imageKey(m[i]) == key(sorted[i]);
    SortedElements(s, sorted);
    Seqs.MapElements(sorted, f);
    forall y
      ensures y in m <==> exists x :: x in s && y == f(x)
    {
      if y in m {
        var x :| x in sorted && y == f(x);
        assert x in s;
      }
    }
  }

  /** Reordering does not change a sum. */
  lemma {:induction false} SumPermutation<T>(a: seq<T>, b: seq<T>, f: T -> int)
    requires multiset(a) == multiset(b)
    ensures Seqs.Sum(a, f) == Seqs.Sum(b, f)
    decreases |a|
  {
    if |a| == 0 {
      assert |b| == |multiset(b)| == 0;
    } else {
      assert a[0] in multiset(b);
      var k :| 0 <= k < |b| && b[k] == a[0];
      var b' := b[..k] + b[k + 1..];
      RemoveAt(b, k);
      assert a == [a[0]] + a[1..];
      assert multiset(a[1..]) == multiset(b');
      SumPermutation(a[1..], b', f);
      SumRemoveAt(b, k, f);
    }
  }

  /** Taking out the element at `k` takes one copy of it out of the
      multiset. */
  lemma RemoveAt<T>(b: seq<T>, k: nat)
    requires k < |b|
    ensures multiset(b[..k] + b[k + 1..]) == multiset(b) - multiset{b[k]}
  {
    assert b == b[..k] + ([b[k]] + b[k + 1..]);
  }

  /** Taking out the element at `k` takes its term out of the sum. */
  lemma {:induction false} SumRemoveAt<T>(b: seq<T>, k: nat, f: T -> int)
    requires k < |b|
    ensures Seqs.Sum(b, f) == f(b[k]) + Seqs.Sum(b[..k] + b[k + 1..], f)
    decreases k
  {
    var rest := b[..k] + b[k + 1..];
    if k == 0 {
      assert rest == b[1..];
    } else {
      SumRemoveAt(b[1..], k - 1, f);
      assert rest[0] == b[0];
      assert rest[1..] == b[1..][..k - 1] + b[1..][k..];
    }
  }

  predicate NoDuplicates<T(==)>(s: seq<T>)
  {
    forall i, j :: 0 <= i < j < |s| ==> s[i] != s[j]
  }

  lemma {:induction false} NoDuplicatesCount<T>(s: seq<T>, x: T)
    requires NoDuplicates(s)
    ensures multiset(s)[x] <= 1
    decreases |s|
  {
    if |s| > 0 {
      assert s == [s[0]] + s[1..];
      NoDuplicatesCount(s[1..], x);
      if s[0] == x {
        assert x !in s[1..];
      }
    }
  }

  /** Reordering keeps a sequence free of duplicates. */
  lemma NoDuplicatesPermutation<T>(a: seq<T>, b: seq<T>)
    requires multiset(a) == multiset(b)
    requires NoDuplicates(a)
    ensures NoDuplicates(b)
  {
    forall i, j | 0 <= i < j < |b|
      ensures b[i] != b[j]
    {
      NoDuplicatesCount(a, b[i]);
      assert b == b[..j] + [b[j]] + b[j + 1..];
      assert b[i] in b[..j];
    }
  }
}
