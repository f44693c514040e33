/** `Array.prototype.filter` and `Array.prototype.sort` with a comparator,
    as the rankers use them. The engine's sorting algorithm is not fixed by
    the language; the model sorts by stable insertion, inserting each later
    element after every earlier one the comparator does not place it before. */
module Sorting {

  /** The elements of `s` that satisfy `p`, in order. */
  function Keep<T>(s: seq<T>, p: T -> bool): (r: seq<T>)
    ensures |r| <= |s|
    ensures forall k :: 0 <= k < |r| ==> p(r[k])
    decreases |s|
  {
    if |s| == 0 then []
    else Keep(s[..|s| - 1], p) + (if p(s[|s| - 1]) then [s[|s| - 1]] else [])
  }

  /** The kept elements are exactly the elements of `s` that satisfy `p`. */
  lemma {:induction false} KeepMembers<T>(s: seq<T>, p: T -> bool)
    ensures forall x :: x in Keep(s, p) <==> x in s && p(x)
    decreases |s|
  {
    if |s| > 0 {
      var init := s[..|s| - 1];
      KeepMembers(init, p);
      assert s == init + [s[|s| - 1]];
    }
  }

  /** Mapping the kept elements: every kept element's image is there, and
      everything there is the image of a kept element. */
  lemma MapKeepMembers<A, B>(s: seq<A>, p: A -> bool, f: A -> B)
    ensures forall x :: x in s && p(x) ==> f(x) in Map(Keep(s, p), f)
    ensures forall y :: y in Map(Keep(s, p), f) ==> exists x :: x in s && p(x) && y == f(x)
  {
    var kept := Keep(s, p);
    KeepMembers(s, p);
    var m := Map(kept, f);
    forall x | x in s && p(x) ensures f(x) in m {
      var k :| 0 <= k < |kept| && kept[k] == x;
      assert m[k] == f(x);
    }
    forall y | y in m ensures exists x :: x in s && p(x) && y == f(x) {
      var k :| 0 <= k < |m| && m[k] == y;
      assert kept[k] in kept;
    }
  }

  /** The elements of `s` that do not satisfy `p`, in order. */
  function Drop<T>(s: seq<T>, p: T -> bool): (r: seq<T>)
    ensures |r| <= |s|
    ensures forall k :: 0 <= k < |r| ==> !p(r[k])
    decreases |s|
  {
    if |s| == 0 then []
    else Drop(s[..|s| - 1], p) + (if p(s[|s| - 1]) then [] else [s[|s| - 1]])
  }

  /** A filter that every element passes keeps the whole sequence. */
  lemma {:induction false} KeepEvery<T>(s: seq<T>, p: T -> bool)
    requires forall k :: 0 <= k < |s| ==> p(s[k])
    ensures Keep(s, p) == s
    decreases |s|
  {
    if |s| > 0 {
      KeepEvery(s[..|s| - 1], p);
    }
  }

  /** The images under `f` of the elements passing `ok`. */
  function Image<T(==), U>(s: seq<T>, f: T -> U, ok: T -> bool): set<U> {
    set x | x in s && ok(x) :: f(x)
  }

  /** The image of the elements passing `ok`, one element at a time. */
  lemma ImageSnoc<T, U>(s: seq<T>, f: T -> U, ok: T -> bool)
    requires |s| > 0
    ensures Image(s, f, ok) == Image(s[..|s| - 1], f, ok) + (if ok(s[|s| - 1]) then {f(s[|s| - 1])} else {})
  {
    var init := s[..|s| - 1];
    var all := set x | x in s && ok(x) :: f(x);
    var before := set x | x in init && ok(x) :: f(x);
    var extra := if ok(s[|s| - 1]) then {f(s[|s| - 1])} else {};
    forall u | u in all ensures u in before + extra {
      var x :| x in s && ok(x) && f(x) == u;
      var i :| 0 <= i < |s| && s[i] == x;
      if i < |s| - 1 {
        assert init[i] == x;
      }
    }
    forall u | u in before ensures u in all {
      var x :| x in init && ok(x) && f(x) == u;
      var i :| 0 <= i < |init| && init[i] == x;
      assert s[i] == x;
    }
  }

  /** Splitting on a predicate and concatenating the two halves loses and
      duplicates nothing. */
  lemma {:induction false} KeepDropMultiset<T>(s: seq<T>, p: T -> bool)
    ensures multiset(Keep(s, p)) + multiset(Drop(s, p)) == multiset(s)
    decreases |s|
  {
    if |s| > 0 {
      KeepDropMultiset(s[..|s| - 1], p);
      assert s == s[..|s| - 1] + [s[|s| - 1]];
    }
  }

  /** The two halves of a split together are as long as the input. */
  lemma {:induction false} KeepDropLength<T>(s: seq<T>, p: T -> bool)
    ensures |Keep(s, p)| + |Drop(s, p)| == |s|
    decreases |s|
  {
    if |s| > 0 {
      KeepDropLength(s[..|s| - 1], p);
    }
  }

  function Insert<T>(x: T, s: seq<T>, cmp: (T, T) -> real): (r: seq<T>)
    ensures |r| == |s| + 1
    ensures multiset(r) == multiset(s) + multiset{x}
    decreases |s|
  {
    if |s| == 0 then [x]
    else if cmp(x, s[0]) < 0.0 then [x] + s
    else
      var rest := Insert(x, s[1..], cmp);
      assert s == [s[0]] + s[1..];
      [s[0]] + rest
  }

  /** `array.sort(cmp)`: a permutation of its input. */
  function SortBy<T>(s: seq<T>, cmp: (T, T) -> real): (r: seq<T>)
    ensures |r| == |s|
    ensures multiset(r) == multiset(s)
    decreases |s|
  {
    if |s| == 0 then []
    else
      var r := Insert(s[|s| - 1], SortBy(s[..|s| - 1], cmp), cmp);
      assert s == s[..|s| - 1] + [s[|s| - 1]];
      r
  }

  /** No element compares strictly below an element before it. */
  predicate Sorted<T>(s: seq<T>, cmp: (T, T) -> real) {
    forall i, j :: 0 <= i < j < |s| ==> cmp(s[j], s[i]) >= 0.0
  }

  /** The "strictly below" part of `cmp` is irreflexive and transitive. */
  ghost predicate StrictOrder<T(!new)>(cmp: (T, T) -> real) {
    && (forall a :: cmp(a, a) >= 0.0)
    && (forall a, b, c :: cmp(a, b) < 0.0 && cmp(b, c) < 0.0 ==> cmp(a, c) < 0.0)
  }

  lemma {:induction false} InsertSorted<T(!new)>(x: T, s: seq<T>, cmp: (T, T) -> real)
    requires StrictOrder(cmp) && Sorted(s, cmp)
    ensures Sorted(Insert(x, s, cmp), cmp)
    decreases |s|
  {
    if |s| > 0 {
      if cmp(x, s[0]) < 0.0 {
        forall b | 0 <= b < |s| ensures cmp(s[b], x) >= 0.0 {
          if cmp(s[b], x) < 0.0 {
            assert false;
          }
        }
        ConsSorted(x, s, cmp);
      } else {
        var rest := Insert(x, s[1..], cmp);
        InsertSorted(x, s[1..], cmp);
        InsertAbove(x, s, cmp);
        ConsSorted(s[0], rest, cmp);
      }
    }
  }

  /** Inserting an element that does not come before the head of a sorted
      list into its tail gives elements none of which comes before that
      head. */
  lemma InsertAbove<T>(x: T, s: seq<T>, cmp: (T, T) -> real)
    requires |s| > 0 && Sorted(s, cmp) && cmp(x, s[0]) >= 0.0
    ensures forall j :: 0 <= j < |Insert(x, s[1..], cmp)| ==> cmp(Insert(x, s[1..], cmp)[j], s[0]) >= 0.0
  {
    var rest := Insert(x, s[1..], cmp);
    forall j | 0 <= j < |rest| ensures cmp(rest[j], s[0]) >= 0.0 {
      assert rest[j] in multiset(rest);
      assert rest[j] in multiset(s[1..]) || rest[j] == x;
      if rest[j] != x {
        var m :| 1 <= m < |s| && s[m] == rest[j];
      }
    }
  }

  /** A sorted list behind a head that no element comes before is sorted. */
  lemma ConsSorted<T>(h: T, t: seq<T>, cmp: (T, T) -> real)
    requires Sorted(t, cmp)
    requires forall j :: 0 <= j < |t| ==> cmp(t[j], h) >= 0.0
    ensures Sorted([h] + t, cmp)
  {
    var r := [h] + t;
    forall i, j | 0 <= i < j < |r| ensures cmp(r[j], r[i]) >= 0.0 {
      assert r[j] == t[j - 1];
      if i > 0 {
        assert r[i] == t[i - 1];
      }
    }
  }

  /** With a strict order, the insertion sort leaves its result sorted. */
  lemma {:induction false} SortBySorted<T(!new)>(s: seq<T>, cmp: (T, T) -> real)
    requires StrictOrder(cmp)
    ensures Sorted(SortBy(s, cmp), cmp)
    decreases |s|
  {
    if |s| > 0 {
      SortBySorted(s[..|s| - 1], cmp);
      InsertSorted(s[|s| - 1], SortBy(s[..|s| - 1], cmp), cmp);
    }
  }

  /** No element occurs twice. */
  predicate Distinct<T(==)>(s: seq<T>) {
    forall i, j :: 0 <= i < j < |s| ==> s[i] != s[j]
  }

  lemma {:induction false} DistinctAtMostOnce<T>(s: seq<T>, x: T)
    requires Distinct(s)
    ensures multiset(s)[x] <= 1
    decreases |s|
  {
    if |s| > 0 {
      assert s == [s[0]] + s[1..];
      DistinctAtMostOnce(s[1..], x);
      if x == s[0] {
        assert x !in s[1..];
      }
    }
  }

  /** A permutation of a sequence without repeats has no repeats. */
  lemma PermutationDistinct<T>(s: seq<T>, t: seq<T>)
    requires multiset(s) == multiset(t) && Distinct(t)
    ensures Distinct(s)
  {
    forall i, j | 0 <= i < j < |s| ensures s[i] != s[j] {
      if s[i] == s[j] {
        assert s == s[..j] + s[j..];
        assert s[i] in s[..j] && s[j] in s[j..];
        assert multiset(s[..j])[s[i]] >= 1 && multiset(s[j..])[s[i]] >= 1;
        DistinctAtMostOnce(t, s[i]);
        assert false;
      }
    }
  }

  /** Every element marked `late` comes after every element not marked. */
  predicate LateLast<T>(s: seq<T>, late: T -> bool) {
    forall i, j :: 0 <= i < j < |s| && late(s[i]) ==> late(s[j])
  }

  /** A permutation of a list whose elements all agree on `p` agrees on
      `p` too. */
  lemma PermutationAgrees<T>(s: seq<T>, t: seq<T>, p: T -> bool, want: bool)
    requires multiset(s) == multiset(t)
    requires forall k :: 0 <= k < |t| ==> p(t[k]) == want
    ensures forall k :: 0 <= k < |s| ==> p(s[k]) == want
  {
    forall k | 0 <= k < |s| ensures p(s[k]) == want {
      assert s[k] in multiset(t);
    }
  }

  /** Unmarked elements followed by marked ones leave the marked ones last. */
  lemma ConcatLateLast<T>(a: seq<T>, b: seq<T>, late: T -> bool)
    requires forall k :: 0 <= k < |a| ==> !late(a[k])
    requires forall k :: 0 <= k < |b| ==> late(b[k])
    ensures LateLast(a + b, late)
  {
    var r := a + b;
    forall i, j | 0 <= i < j < |r| && late(r[i]) ensures late(r[j]) {
      assert i >= |a|;
      assert r[j] == b[j - |a|];
    }
  }

  /** A comparator whose first criterion puts `late` elements after the
      others. */
  ghost predicate PutsLateLast<T(!new)>(cmp: (T, T) -> real, late: T -> bool) {
    forall a, b :: late(a) && !late(b) ==> cmp(a, b) > 0.0 && cmp(b, a) < 0.0
  }

  lemma {:induction false} InsertKeepsLateLast<T(!new)>(x: T, s: seq<T>, cmp: (T, T) -> real, late: T -> bool)
    requires PutsLateLast(cmp, late) && LateLast(s, late)
    ensures LateLast(Insert(x, s, cmp), late)
    decreases |s|
  {
    if |s| > 0 && cmp(x, s[0]) >= 0.0 {
      var rest := Insert(x, s[1..], cmp);
      InsertKeepsLateLast(x, s[1..], cmp, late);
      var r := [s[0]] + rest;
      if late(s[0]) {
        // every element of s is late; so is x, or it would have gone first
        assert forall k :: 0 <= k < |s| ==> late(s[k]);
        assert late(x);
        assert forall y :: y in multiset(rest) ==> late(y) by {
          forall y | y in multiset(rest) ensures late(y) {
            assert y in multiset(s[1..]) + multiset{x};
            if y in multiset(s[1..]) {
              var k :| 0 <= k < |s[1..]| && s[1..][k] == y;
              assert s[k + 1] == y;
            }
          }
        }
        forall i, j | 0 <= i < j < |r| && late(r[i]) ensures late(r[j]) {
          assert r[j] == rest[j - 1];
          assert rest[j - 1] in multiset(rest);
        }
      }
    }
  }

  /** Sorting with a comparator that puts `late` elements after the others
      leaves every `late` element after every other one. */
  lemma {:induction false} SortKeepsLateLast<T(!new)>(s: seq<T>, cmp: (T, T) -> real, late: T -> bool)
    requires PutsLateLast(cmp, late)
    ensures LateLast(SortBy(s, cmp), late)
    decreases |s|
  {
    if |s| > 0 {
      SortKeepsLateLast(s[..|s| - 1], cmp, late);
      InsertKeepsLateLast(s[|s| - 1], SortBy(s[..|s| - 1], cmp), cmp, late);
    }
  }

  /** `array.map(f)`. */
  function Map<A, B>(s: seq<A>, f: A -> B): (r: seq<B>)
    ensures |r| == |s| && forall i :: 0 <= i < |s| ==> r[i] == f(s[i])
  {
    seq(|s|, i requires 0 <= i < |s| => f(s[i]))
  }

  lemma MapAppend<A, B>(a: seq<A>, b: seq<A>, f: A -> B)
    ensures Map(a + b, f) == Map(a, f) + Map(b, f)
  {
  }

  /** Removing the element at `j` removes one copy of it from the multiset. */
  lemma RemoveAt<A>(ys: seq<A>, j: nat)
    requires j < |ys|
    ensures multiset(ys[..j] + ys[j + 1..]) + multiset{ys[j]} == multiset(ys)
  {
    assert ys == ys[..j] + [ys[j]] + ys[j + 1..];
  }

  lemma CancelOne<A>(a: multiset<A>, b: multiset<A>, x: A)
    requires a + multiset{x} == b + multiset{x}
    ensures a == b
  {
    forall z ensures a[z] == b[z] {
      assert (a + multiset{x})[z] == (b + multiset{x})[z];
    }
  }

  lemma MapRemoveAt<A, B>(ys: seq<A>, j: nat, f: A -> B)
    requires j < |ys|
    ensures multiset(Map(ys[..j] + ys[j + 1..], f)) + multiset{f(ys[j])} == multiset(Map(ys, f))
  {
    var m := Map(ys, f);
    RemoveAt(m, j);
    assert m[..j] + m[j + 1..] == Map(ys[..j] + ys[j + 1..], f);
  }

  lemma RemoveFirstMatching<A>(xs: seq<A>, ys: seq<A>, j: nat)
    requires |xs| > 0 && j < |ys| && ys[j] == xs[0] && multiset(xs) == multiset(ys)
    ensures multiset(xs[1..]) == multiset(ys[..j] + ys[j + 1..])
  {
    RemoveAt(ys, j);
    RemoveAt(xs, 0);
    assert xs[..0] + xs[1..] == xs[1..];
    CancelOne(multiset(xs[1..]), multiset(ys[..j] + ys[j + 1..]), xs[0]);
  }

  lemma MapRemoveFirstMatching<A, B>(xs: seq<A>, ys: seq<A>, j: nat, f: A -> B)
    requires |xs| > 0 && j < |ys| && ys[j] == xs[0]
    requires multiset(Map(xs[1..], f)) == multiset(Map(ys[..j] + ys[j + 1..], f))
    ensures multiset(Map(xs, f)) == multiset(Map(ys, f))
  {
    MapRemoveAt(ys, j, f);
    MapFirst(xs, f);
  }

  lemma MapFirst<A, B>(xs: seq<A>, f: A -> B)
    requires |xs| > 0
    ensures multiset(Map(xs, f)) == multiset{f(xs[0])} + multiset(Map(xs[1..], f))
  {
    assert Map(xs, f) == [f(xs[0])] + Map(xs[1..], f);
  }

  lemma IndexOf<A>(ys: seq<A>, x: A) returns (j: nat)
    requires x in multiset(ys)
    ensures j < |ys| && ys[j] == x
  {
    assert x in ys;
    j :| 0 <= j < |ys| && ys[j] == x;
  }

  /** Mapping two permutations of each other gives two permutations of
      each other. */
  lemma {:induction false} MapPermutation<A, B>(xs: seq<A>, ys: seq<A>, f: A -> B)
    requires multiset(xs) == multiset(ys)
    ensures multiset(Map(xs, f)) == multiset(Map(ys, f))
    decreases |xs|
  {
    if |xs| == 0 {
      assert |ys| == 0;
    } else {
      var j := IndexOf(ys, xs[0]);
      RemoveFirstMatching(xs, ys, j);
      MapPermutation(xs[1..], ys[..j] + ys[j + 1..], f);
      MapRemoveFirstMatching(xs, ys, j, f);
    }
  }

  /** `array.slice(0, n)`. */
  function Take<T>(s: seq<T>, n: nat): (r: seq<T>)
    ensures |r| == if n < |s| then n else |s|
    ensures r == s[..|r|]
  {
    if n < |s| then s[..n] else s
  }

  /** A prefix of a list keeps its marked elements last. */
  lemma TakeKeepsLateLast<T>(s: seq<T>, n: nat, late: T -> bool)
    requires LateLast(s, late)
    ensures LateLast(Take(s, n), late)
  {
  }

  /** Highest key first. */
  predicate Descending<T>(s: seq<T>, key: T -> int) {
    forall i, j :: 0 <= i < j < |s| ==> key(s[i]) >= key(s[j])
  }

  /** A comparator that orders by decreasing key, as `(a, b) => key(b) -
      key(a)` does. */
  ghost predicate ByDecreasingKey<T(!new)>(cmp: (T, T) -> real, key: T -> int) {
    forall a, b :: cmp(a, b) < 0.0 <==> key(a) > key(b)
  }

  /** A head no smaller than every element keeps a descending tail
      descending. */
  lemma ConsDescending<T>(h: T, t: seq<T>, key: T -> int)
    requires Descending(t, key)
    requires forall i :: 0 <= i < |t| ==> key(h) >= key(t[i])
    ensures Descending([h] + t, key)
  {
    var r := [h] + t;
    forall i, j | 0 <= i < j < |r| ensures key(r[i]) >= key(r[j]) {
      assert r[j] == t[j - 1];
      if i > 0 {
        assert r[i] == t[i - 1];
      }
    }
  }

  lemma {:induction false} InsertKeepsDescending<T(!new)>(x: T, s: seq<T>, cmp: (T, T) -> real, key: T -> int)
    requires ByDecreasingKey(cmp, key) && Descending(s, key)
    ensures Descending(Insert(x, s, cmp), key)
    decreases |s|
  {
    if |s| == 0 {
      assert Insert(x, s, cmp) == [x];
    } else if cmp(x, s[0]) < 0.0 {
      assert key(x) > key(s[0]);
      forall i | 0 <= i < |s| ensures key(x) >= key(s[i]) {
        if i > 0 {
          assert key(s[0]) >= key(s[i]);
        }
      }
      ConsDescending(x, s, key);
    } else {
      var tail := s[1..];
      var rest := Insert(x, tail, cmp);
      assert Descending(tail, key) by {
        forall i, j | 0 <= i < j < |tail| ensures key(tail[i]) >= key(tail[j]) {
          assert tail[i] == s[i + 1] && tail[j] == s[j + 1];
        }
      }
      InsertKeepsDescending(x, tail, cmp, key);
      assert key(s[0]) >= key(x);
      forall i | 0 <= i < |rest| ensures key(s[0]) >= key(rest[i]) {
        var y := rest[i];
        assert y in multiset(rest);
        assert y in multiset(tail) + multiset{x};
        if y != x {
          assert y in multiset(tail);
          var k :| 0 <= k < |tail| && tail[k] == y;
          assert s[k + 1] == y;
        }
      }
      ConsDescending(s[0], rest, key);
    }
  }

  /** Sorting by decreasing key leaves the list in decreasing key order. */
  lemma {:induction false} SortKeepsDescending<T(!new)>(s: seq<T>, cmp: (T, T) -> real, key: T -> int)
    requires ByDecreasingKey(cmp, key)
    ensures Descending(SortBy(s, cmp), key)
    decreases |s|
  {
    if |s| > 0 {
      SortKeepsDescending(s[..|s| - 1], cmp, key);
      InsertKeepsDescending(s[|s| - 1], SortBy(s[..|s| - 1], cmp), cmp, key);
    }
  }
}
