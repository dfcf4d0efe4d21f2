/** Generic table operations the store queries are built from: first match
    (`findUnique`/`findFirst`), filtering (`where`), ordering (`orderBy`),
    extreme elements (`findFirst` with `orderBy`) and offset pagination
    (`skip`/`take`).
 */
module Seqs {
  import opened Wrappers

  /** Index of the first element satisfying `p`, if any. */
  function FindFirst<T>(s: seq<T>, p: T -> bool): (r: Option<nat>)
    ensures r.Some? ==> r.value < |s| && p(s[r.value])
    ensures r.Some? ==> forall j :: 0 <= j < r.value ==> !p(s[j])
    ensures r.None? <==> forall j :: 0 <= j < |s| ==> !p(s[j])
  {
    if |s| == 0 then None
    else if p(s[0]) then Some(0)
    else match FindFirst(s[1..], p)
      case None => None
      case Some(i) => Some(i + 1)
  }

  /** Two tables whose rows agree on `p` position by position have the same first match. */
  lemma {:induction false} FindFirstSameMatches<T>(a: seq<T>, b: seq<T>, p: T -> bool)
    requires |a| == |b|
    requires forall j :: 0 <= j < |a| ==> p(a[j]) == p(b[j])
    ensures FindFirst(a, p) == FindFirst(b, p)
  {
    if |a| > 0 {
      FindFirstSameMatches(a[1..], b[1..], p);
    }
  }

  /** The elements satisfying `p`, each kept as often as it occurs. */
  function Filter<T>(s: seq<T>, p: T -> bool): (r: seq<T>)
    ensures |r| <= |s|
    ensures forall i :: 0 <= i < |r| ==> p(r[i])
  {
    if |s| == 0 then [] else (if p(s[0]) then [s[0]] else []) + Filter(s[1..], p)
  }

  /** `Filter` keeps every occurrence of a matching element and nothing else. */
  lemma {:induction false} FilterMultiset<T>(s: seq<T>, p: T -> bool, x: T)
    ensures multiset(Filter(s, p))[x] == if p(x) then multiset(s)[x] else 0
  {
    if |s| > 0 {
      FilterMultiset(s[1..], p, x);
      assert s == [s[0]] + s[1..];
    }
  }

  /** `s` is ordered by `key`, largest first. */
  ghost predicate SortedDesc<T>(s: seq<T>, key: T -> int) {
    forall i, j :: 0 <= i < j < |s| ==> key(s[i]) >= key(s[j])
  }

  function InsertDesc<T>(x: T, s: seq<T>, key: T -> int): (r: seq<T>)
    requires SortedDesc(s, key)
    ensures SortedDesc(r, key)
    ensures multiset(r) == multiset(s) + multiset{x}
  {
    if |s| == 0 then [x]
    else if key(x) >= key(s[0]) then [x] + s
    else
      var rest := InsertDesc(x, s[1..], key);
      assert s == [s[0]] + s[1..];
      assert forall k :: 0 <= k < |rest| ==> key(rest[k]) <= key(s[0]) by {
        forall k | 0 <= k < |rest|
          ensures key(rest[k]) <= key(s[0])
        {
          assert rest[k] in multiset(rest);
          assert rest[k] == x || rest[k] in multiset(s[1..]);
        }
      }
      [s[0]] + rest
  }

  /** `orderBy: { <key>: 'desc' }`: a permutation of `s`, largest key first. */
  function SortDesc<T>(s: seq<T>, key: T -> int): (r: seq<T>)
    ensures SortedDesc(r, key)
    ensures multiset(r) == multiset(s)
    ensures |r| == |s|
  {
    if |s| == 0 then []
    else
      assert s == [s[0]] + s[1..];
      InsertDesc(s[0], SortDesc(s[1..], key), key)
  }

  /** No two different elements of `s` share a key. */
  ghost predicate KeysDistinct<T>(s: seq<T>, key: T -> int) {
    forall x, y :: x in s && y in s && key(x) == key(y) ==> x == y
  }

  /** Removing the head removes one copy of it from the multiset. */
  lemma MultisetTail<T>(s: seq<T>)
    requires |s| > 0
    ensures multiset(s[1..]) == multiset(s) - multiset{s[0]}
  {
    assert s == [s[0]] + s[1..];
  }

  /** Two largest-first orders of the same elements with distinct keys
      start with the same element. */
  lemma SortedDescSameHead<T>(a: seq<T>, b: seq<T>, key: T -> int)
    requires SortedDesc(a, key) && SortedDesc(b, key)
    requires multiset(a) == multiset(b)
    requires KeysDistinct(a, key)
    requires |a| > 0 && |b| > 0
    ensures a[0] == b[0]
  {
    assert a[0] in multiset(b) && b[0] in multiset(a);
    var j :| 0 <= j < |b| && b[j] == a[0];
    var i :| 0 <= i < |a| && a[i] == b[0];
    assert key(a[0]) >= key(a[i]) && key(b[0]) >= key(b[j]);
  }

  lemma SortedDescTail<T>(a: seq<T>, key: T -> int)
    requires SortedDesc(a, key) && |a| > 0
    ensures SortedDesc(a[1..], key)
  {
  }

  lemma KeysDistinctTail<T>(a: seq<T>, key: T -> int)
    requires KeysDistinct(a, key) && |a| > 0
    ensures KeysDistinct(a[1..], key)
  {
    assert forall x :: x in a[1..] ==> x in a;
  }

  /** Equal multisets have equal lengths, and after dropping equal heads
      the tails have equal multisets. */
  lemma SameTails<T>(a: seq<T>, b: seq<T>)
    requires multiset(a) == multiset(b)
    ensures |a| == |b|
    ensures |a| > 0 && a[0] == b[0] ==> multiset(a[1..]) == multiset(b[1..])
  {
    assert |a| == |multiset(a)| == |multiset(b)| == |b|;
    if |a| > 0 && a[0] == b[0] {
      MultisetTail(a);
      MultisetTail(b);
    }
  }

  /** When keys are distinct there is only one largest-first order of a
      given collection of elements. */
  lemma {:induction false} SortedDescUnique<T>(a: seq<T>, b: seq<T>, key: T -> int)
    requires SortedDesc(a, key) && SortedDesc(b, key)
    requires multiset(a) == multiset(b)
    requires KeysDistinct(a, key)
    ensures a == b
  {
    SameTails(a, b);
    if |a| > 0 {
      SortedDescSameHead(a, b, key);
      SameTails(a, b);
      SortedDescTail(a, key);
      SortedDescTail(b, key);
      KeysDistinctTail(a, key);
      SortedDescUnique(a[1..], b[1..], key);
      assert a == [a[0]] + a[1..] && b == [b[0]] + b[1..];
    }
  }

  /** Index of an element satisfying `p` with the largest `key`; on ties the
      earliest one. `None` exactly when nothing satisfies `p`. */
  function IndexOfMax<T>(s: seq<T>, p: T -> bool, key: T -> int): (r: Option<nat>)
    ensures r.None? <==> forall j :: 0 <= j < |s| ==> !p(s[j])
    ensures r.Some? ==> r.value < |s| && p(s[r.value])
    ensures r.Some? ==> forall j :: 0 <= j < |s| && p(s[j]) ==> key(s[j]) <= key(s[r.value])
  {
    if |s| == 0 then None
    else
      var rest := IndexOfMax(s[1..], p, key);
      if p(s[0]) && (rest.None? || key(s[rest.value + 1]) <= key(s[0])) then Some(0)
      else if rest.None? then None
      else Some(rest.value + 1)
  }

  /** `Math.ceil(a / b)` for a positive divisor. */
  function CeilDiv(a: nat, b: nat): (r: nat)
    requires b >= 1
    ensures r * b >= a
    ensures r == 0 || (r - 1) * b < a
  {
    if a == 0 then 0 else 1 + CeilDiv(if a >= b then a - b else 0, b)
  }

  /** `skip: skip, take: size` over the ordered rows. */
  function Paginate<T>(s: seq<T>, skip: nat, size: nat): (r: seq<T>)
    ensures |r| <= size
    ensures forall i :: 0 <= i < |r| ==> skip + i < |s| && r[i] == s[skip + i]
    ensures skip < |s| ==> |r| == if |s| - skip < size then |s| - skip else size
    ensures skip >= |s| ==> r == []
  {
    if skip >= |s| then []
    else s[skip..if skip + size <= |s| then skip + size else |s|]
  }

  /** Pages 1 .. n one after the other. */
  function Pages<T>(s: seq<T>, size: int, n: nat): seq<T>
    requires size >= 1
  {
    if n == 0 then [] else Pages(s, size, n - 1) + Paginate(s, (n - 1) * size, size)
  }

  /** The prefix up to `k` followed by the page at `k` is the prefix up to
      `k + size`. */
  lemma PageExtendsPrefix<T>(s: seq<T>, k: nat, size: nat)
    ensures s[..if k <= |s| then k else |s|] + Paginate(s, k, size)
         == s[..if k + size <= |s| then k + size else |s|]
  {
    if k < |s| {
      var cur := if k + size <= |s| then k + size else |s|;
      assert s[..k] + s[k..cur] == s[..cur];
    }
  }

  lemma MulStep(n: nat, size: int)
    requires n > 0
    ensures n * size == (n - 1) * size + size
  {
  }

  lemma {:induction false} PagesArePrefix<T>(s: seq<T>, size: int, n: nat)
    requires size >= 1
    ensures Pages(s, size, n) == s[..if n * size <= |s| then n * size else |s|]
  {
    if n > 0 {
      PagesArePrefix(s, size, n - 1);
      MulStep(n, size);
      PageExtendsPrefix(s, (n - 1) * size, size);
    }
  }

  /** Walking pages 1 .. ceil(|s| / size) visits every row exactly once, in order. */
  lemma PagesCoverAll<T>(s: seq<T>, size: int)
    requires size >= 1
    ensures Pages(s, size, CeilDiv(|s|, size)) == s
  {
    PagesArePrefix(s, size, CeilDiv(|s|, size));
  }
}
