/** Sequence helpers shared by the model: the JavaScript array methods the
    source calls (`filter`, `find`, `indexOf`, `sort`, `slice`). */
module Seqs {
  import opened Wrappers

  /** No element occurs twice. */
  predicate NoDups<T(==)>(s: seq<T>) {
    forall i, j :: 0 <= i < j < |s| ==> s[i] != s[j]
  }

  /** `s.filter(p)`: the elements satisfying `p`, in their original order. */
  function Filter<T(!new)>(s: seq<T>, p: T -> bool): (r: seq<T>)
    ensures |r| <= |s|
    ensures forall x :: x in r <==> x in s && p(x)
  {
    if |s| == 0 then [] else (if p(s[0]) then [s[0]] else []) + Filter(s[1..], p)
  }

  /** Filtering distributes over concatenation, so `Filter` keeps the relative order
      of the elements it keeps. */
  lemma {:induction false} FilterAppend<T(!new)>(a: seq<T>, b: seq<T>, p: T -> bool)
    ensures Filter(a + b, p) == Filter(a, p) + Filter(b, p)
  {
    if |a| == 0 {
      assert a + b == b;
    } else {
      assert (a + b)[1..] == a[1..] + b;
      FilterAppend(a[1..], b, p);
    }
  }

  /** A test that nothing passes filters everything out. */
  lemma {:induction false} FilterNone<T(!new)>(s: seq<T>, p: T -> bool)
    requires forall x :: x in s ==> !p(x)
    ensures Filter(s, p) == []
  {
    if |s| > 0 {
      assert s[0] in s;
      FilterNone(s[1..], p);
    }
  }

  lemma {:induction false} FilterNoDups<T(!new)>(s: seq<T>, p: T -> bool)
    ensures NoDups(s) ==> NoDups(Filter(s, p))
  {
    if |s| > 0 && NoDups(s) {
      FilterNoDups(s[1..], p);
      assert s[0] !in s[1..];
    }
  }

  lemma {:induction false} FilterAll<T(!new)>(s: seq<T>, p: T -> bool)
    requires forall x :: x in s ==> p(x)
    ensures Filter(s, p) == s
  {
    if |s| > 0 {
      FilterAll(s[1..], p);
      assert s == [s[0]] + s[1..];
    }
  }

  /** The index of the first element satisfying `p`, or `|s|` when none does. */
  function FirstIndex<T>(s: seq<T>, p: T -> bool): (i: nat)
    ensures i <= |s|
    ensures i < |s| ==> p(s[i])
    ensures forall j :: 0 <= j < i ==> !p(s[j])
  {
    if |s| == 0 then 0 else if p(s[0]) then 0 else 1 + FirstIndex(s[1..], p)
  }

  /** `s.find(p)`: the first element satisfying `p`, if any. */
  function Find<T>(s: seq<T>, p: T -> bool): (r: Option<T>)
    ensures r.None? <==> forall x :: x in s ==> !p(x)
    ensures r.Some? ==> r.value in s && p(r.value)
    ensures forall i :: 0 <= i < |s| && p(s[i]) && (forall j :: 0 <= j < i ==> !p(s[j])) ==> r == Some(s[i])
  {
    var i := FirstIndex(s, p);
    if i < |s| then Some(s[i]) else None
  }

  /** `s.indexOf(x)`, with `|s|` in place of JavaScript's -1. */
  function IndexOf<T(==)>(s: seq<T>, x: T): (i: nat)
    ensures i <= |s|
    ensures i < |s| <==> x in s
    ensures i < |s| ==> s[i] == x
    ensures forall j :: 0 <= j < i ==> s[j] != x
  {
    FirstIndex(s, y => y == x)
  }

  /** The elements `s[j]`, `j >= i`, that are first occurrences in `s`:
      `s.filter((x, j) => s.indexOf(x) === j)` restricted to positions from `i` on. */
  function KeepFirst<T(==,!new)>(s: seq<T>, i: nat): (r: seq<T>)
    requires i <= |s|
    ensures forall y :: y in r <==> y in s && IndexOf(s, y) >= i
    ensures NoDups(r)
    decreases |s| - i
  {
    if i == |s| then []
    else
      var rest := KeepFirst(s, i + 1);
      if IndexOf(s, s[i]) == i then
        assert s[i] !in rest;
        [s[i]] + rest
      else rest
  }

  /** Duplicate-free copy of `s` keeping each element's first occurrence, in order. */
  function Dedup<T(==,!new)>(s: seq<T>): (r: seq<T>)
    ensures NoDups(r)
    ensures forall y :: y in r <==> y in s
  {
    KeepFirst(s, 0)
  }

  /** The predicate "does not occur in `a`". */
  function NotIn<T(==)>(a: seq<T>): T -> bool {
    x => x !in a
  }

  lemma IndexOfPrefix<T>(a: seq<T>, b: seq<T>, x: T)
    requires x in a
    ensures IndexOf(a + b, x) == IndexOf(a, x)
  {
    var i := IndexOf(a, x);
    assert (a + b)[i] == x;
  }

  lemma IndexOfSuffix<T>(a: seq<T>, b: seq<T>, x: T)
    requires x !in a && x in b
    ensures IndexOf(a + b, x) == |a| + IndexOf(b, x)
  {
    var i := IndexOf(b, x);
    assert (a + b)[|a| + i] == x;
    forall j | 0 <= j < |a| + i
      ensures (a + b)[j] != x
    {
      if j >= |a| {
        assert (a + b)[j] == b[j - |a|];
      }
    }
  }

  lemma {:induction false} KeepFirstSuffix<T(!new)>(a: seq<T>, b: seq<T>, i: nat)
    requires NoDups(b)
    requires |a| <= i <= |a| + |b|
    ensures KeepFirst(a + b, i) == Filter(b[i - |a|..], NotIn(a))
    decreases |a| + |b| - i
  {
    var s := a + b;
    if i < |s| {
      KeepFirstSuffix(a, b, i + 1);
      var x := s[i];
      var bs := b[i - |a|..];
      var rest := KeepFirst(s, i + 1);
      assert bs[0] == x == b[i - |a|];
      assert bs[1..] == b[i + 1 - |a|..];
      assert Filter(bs, NotIn(a)) == (if NotIn(a)(x) then [x] else []) + Filter(bs[1..], NotIn(a));
      assert KeepFirst(s, i) == if IndexOf(s, x) == i then [x] + rest else rest;
      if x in a {
        IndexOfPrefix(a, b, x);
        assert KeepFirst(s, i) == rest;
        assert Filter(bs, NotIn(a)) == Filter(bs[1..], NotIn(a));
      } else {
        IndexOfSuffix(a, b, x);
        assert IndexOf(b, x) == i - |a|;
        assert KeepFirst(s, i) == [x] + rest;
        assert Filter(bs, NotIn(a)) == [x] + Filter(bs[1..], NotIn(a));
      }
    } else {
      assert b[i - |a|..] == [];
      assert KeepFirst(s, i) == [];
    }
  }

  lemma {:induction false} KeepFirstPrefix<T(!new)>(a: seq<T>, b: seq<T>, i: nat)
    requires NoDups(a) && NoDups(b)
    requires i <= |a|
    ensures KeepFirst(a + b, i) == a[i..] + Filter(b, NotIn(a))
    decreases |a| - i
  {
    if i == |a| {
      KeepFirstSuffix(a, b, i);
      assert b[i - |a|..] == b;
      assert a[i..] == [];
    } else {
      var s := a + b;
      var f := Filter(b, NotIn(a));
      KeepFirstPrefix(a, b, i + 1);
      assert s[i] == a[i];
      IndexOfPrefix(a, b, a[i]);
      KeepFirstKeeps(s, i);
      SliceCons(a, i, f);
    }
  }

  lemma SliceCons<T>(a: seq<T>, i: nat, f: seq<T>)
    requires i < |a|
    ensures a[i..] + f == [a[i]] + (a[i + 1..] + f)
  {
    assert a[i..] == [a[i]] + a[i + 1..];
  }

  lemma KeepFirstKeeps<T(!new)>(s: seq<T>, i: nat)
    requires i < |s| && IndexOf(s, s[i]) == i
    ensures KeepFirst(s, i) == [s[i]] + KeepFirst(s, i + 1)
  {
  }

  /** De-duplicating two individually duplicate-free lists keeps all of the first,
      then the elements of the second that the first lacks, both in order. */
  lemma DedupAppend<T(!new)>(a: seq<T>, b: seq<T>)
    requires NoDups(a) && NoDups(b)
    ensures Dedup(a + b) == a + Filter(b, NotIn(a))
  {
    KeepFirstPrefix(a, b, 0);
    assert a[0..] == a;
  }

  lemma DedupOfDistinct<T(!new)>(s: seq<T>)
    requires NoDups(s)
    ensures Dedup(s) == s
  {
    DedupAppend(s, []);
    assert s + [] == s;
  }

  /** `s.slice(0, n)` for an integer `n`: a negative end counts back from the end. */
  function SliceTo<T>(s: seq<T>, n: int): (r: seq<T>)
    ensures n >= 0 ==> |r| == if n < |s| then n else |s|
    ensures n < 0 ==> |r| == if |s| + n > 0 then |s| + n else 0
    ensures r == s[..|r|]
  {
    if n >= |s| then s
    else if n >= 0 then s[..n]
    else if |s| + n > 0 then s[..|s| + n]
    else []
  }

  /** Newest first: keys never increase along the sequence. */
  predicate SortedDesc<T>(s: seq<T>, key: T -> int) {
    forall i, j :: 0 <= i < j < |s| ==> key(s[i]) >= key(s[j])
  }

  /** Inserts `x` before the first element whose key is not larger than `x`'s. */
  function Insert<T>(x: T, s: seq<T>, key: T -> int): (r: seq<T>)
    requires SortedDesc(s, key)
    ensures SortedDesc(r, key)
    ensures multiset(r) == multiset(s) + multiset{x}
    ensures |r| == |s| + 1
    ensures forall k :: 0 <= k < |r| ==> r[k] == x || r[k] in s
  {
    if |s| == 0 then [x]
    else if key(s[0]) <= key(x) then [x] + s
    else
      var t := Insert(x, s[1..], key);
      InsertBehind(x, s, key, t);
      [s[0]] + t
  }

  /** The recursive case of `Insert`: `x` goes behind a head with a larger key. */
  lemma InsertBehind<T>(x: T, s: seq<T>, key: T -> int, t: seq<T>)
    requires |s| > 0 && SortedDesc(s, key) && key(s[0]) > key(x)
    requires SortedDesc(t, key) && multiset(t) == multiset(s[1..]) + multiset{x}
    requires forall k :: 0 <= k < |t| ==> t[k] == x || t[k] in s[1..]
    ensures SortedDesc([s[0]] + t, key)
    ensures multiset([s[0]] + t) == multiset(s) + multiset{x}
    ensures forall k :: 0 <= k < |t| + 1 ==> ([s[0]] + t)[k] == x || ([s[0]] + t)[k] in s
  {
    assert s == [s[0]] + s[1..];
    forall k | 0 <= k < |t|
      ensures key(s[0]) >= key(t[k])
    {
      if t[k] != x {
        var j :| 0 <= j < |s[1..]| && s[1..][j] == t[k];
        assert s[j + 1] == t[k];
      }
    }
    InsertHead(s[0], t, key);
  }

  lemma InsertHead<T>(h: T, t: seq<T>, key: T -> int)
    requires SortedDesc(t, key)
    requires forall k :: 0 <= k < |t| ==> key(h) >= key(t[k])
    ensures SortedDesc([h] + t, key)
  {
    var r := [h] + t;
    forall i, j | 0 <= i < j < |r|
      ensures key(r[i]) >= key(r[j])
    {
      assert r[j] == t[j - 1];
      if i > 0 {
        assert r[i] == t[i - 1];
      }
    }
  }

  /** `s.sort((a, b) => key(b) - key(a))`: the same elements, largest key first. */
  function SortDesc<T>(s: seq<T>, key: T -> int): (r: seq<T>)
    ensures SortedDesc(r, key)
    ensures multiset(r) == multiset(s)
    ensures |r| == |s|
  {
    if |s| == 0 then []
    else
      assert s == [s[0]] + s[1..];
      Insert(s[0], SortDesc(s[1..], key), key)
  }

  /** `s.sort(newest first).slice(0, n)`: a sorted selection from `s` that leaves
      out nothing newer than what it keeps. */
  function Newest<T(==,!new)>(s: seq<T>, key: T -> int, n: int): (r: seq<T>)
    ensures SortedDesc(r, key)
    ensures multiset(r) <= multiset(s)
    ensures n >= 0 ==> |r| == if n < |s| then n else |s|
    ensures forall x :: multiset(r)[x] < multiset(s)[x] ==> forall y :: y in r ==> key(y) >= key(x)
  {
    var sorted := SortDesc(s, key);
    var r := SliceTo(sorted, n);
    PrefixOfSorted(sorted, |r|, key);
    r
  }

  lemma PrefixOfSorted<T>(sorted: seq<T>, k: nat, key: T -> int)
    requires SortedDesc(sorted, key) && k <= |sorted|
    ensures SortedDesc(sorted[..k], key)
    ensures multiset(sorted[..k]) <= multiset(sorted)
    ensures forall x :: multiset(sorted[..k])[x] < multiset(sorted)[x] ==>
      forall y :: y in sorted[..k] ==> key(y) >= key(x)
  {
    var r := sorted[..k];
    var rest := sorted[k..];
    assert sorted == r + rest;
    assert multiset(sorted) == multiset(r) + multiset(rest);
    forall x | multiset(r)[x] < multiset(sorted)[x]
      ensures forall y :: y in r ==> key(y) >= key(x)
    {
      assert x in multiset(rest);
      var j :| 0 <= j < |rest| && rest[j] == x;
      assert sorted[k + j] == x;
      forall y | y in r
        ensures key(y) >= key(x)
      {
        var i :| 0 <= i < |r| && r[i] == y;
        assert sorted[i] == y;
      }
    }
  }

  /** Sum of a sequence of reals, left to right. */
  function SumReals(s: seq<real>): real {
    if |s| == 0 then 0.0 else s[0] + SumReals(s[1..])
  }

  lemma {:induction false} SumRealsAppend(a: seq<real>, b: seq<real>)
    ensures SumReals(a + b) == SumReals(a) + SumReals(b)
  {
    if |a| == 0 {
      assert a + b == b;
    } else {
      assert (a + b)[1..] == a[1..] + b;
      SumRealsAppend(a[1..], b);
    }
  }
}
