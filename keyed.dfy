/** A JavaScript `Map` keyed by string and filled by repeated `set` calls:
    keys keep the position of their first insertion, values are the last
    ones written. The content script's node merge and the route manager's
    MERGE import both build one from a list and read back `values()`. */
module Keyed {
  import opened Sorting

  /** The keys in insertion order and the value stored under each. */
  datatype Table<T> = Table(order: seq<string>, entries: map<string, T>)

  /** Every listed key has a value. */
  predicate Covers<T>(t: Table<T>) {
    forall i :: 0 <= i < |t.order| ==> t.order[i] in t.entries
  }

  /** The order lists each stored key once, and every stored value carries
      its key. */
  ghost predicate WellFormed<T>(t: Table<T>, key: T -> string) {
    && Distinct(t.order)
    && (forall k :: k in t.entries <==> k in t.order)
    && (forall k :: k in t.entries ==> key(t.entries[k]) == k)
  }

  /** `map.set(k, x)`: a new key goes to the end, a known key keeps its
      place and gets the new value. */
  function Put<T>(t: Table<T>, k: string, x: T): Table<T> {
    Table(if k in t.entries then t.order else t.order + [k], t.entries[k := x])
  }

  /** The map after `set(key(f(a)), f(a))` for every `a` of `items`, in
      order, starting from an empty map. */
  function FoldBy<A, T>(items: seq<A>, f: A -> T, key: T -> string): Table<T>
    decreases |items|
  {
    if |items| == 0 then Table([], map[])
    else
      var x := f(items[|items| - 1]);
      Put(FoldBy(items[..|items| - 1], f, key), key(x), x)
  }

  /** `Array.from(map.values())`. */
  function Values<T>(t: Table<T>): (vs: seq<T>)
    requires Covers(t)
    ensures |vs| == |t.order| && forall i :: 0 <= i < |vs| ==> vs[i] == t.entries[t.order[i]]
  {
    seq(|t.order|, i requires 0 <= i < |t.order| => t.entries[t.order[i]])
  }

  lemma PutWellFormed<T>(t: Table<T>, x: T, key: T -> string)
    requires WellFormed(t, key)
    ensures WellFormed(Put(t, key(x), x), key)
  {
    if key(x) !in t.entries {
      assert forall i :: 0 <= i < |t.order| ==> t.order[i] != key(x);
    }
  }

  lemma {:induction false} FoldWellFormed<A, T>(items: seq<A>, f: A -> T, key: T -> string)
    ensures WellFormed(FoldBy(items, f, key), key) && Covers(FoldBy(items, f, key))
    decreases |items|
  {
    if |items| > 0 {
      FoldWellFormed(items[..|items| - 1], f, key);
      PutWellFormed(FoldBy(items[..|items| - 1], f, key), f(items[|items| - 1]), key);
    }
  }

  /** No later item has the same key as `items[i]`. */
  ghost predicate LastOf<A, T>(items: seq<A>, f: A -> T, key: T -> string, i: int)
    requires 0 <= i < |items|
  {
    forall j :: i < j < |items| ==> key(f(items[j])) != key(f(items[i]))
  }

  /** The map holds exactly the keys of the items. */
  lemma {:induction false} FoldKeys<A, T>(items: seq<A>, f: A -> T, key: T -> string)
    ensures forall k :: k in FoldBy(items, f, key).entries <==>
      exists i :: 0 <= i < |items| && key(f(items[i])) == k
    decreases |items|
  {
    if |items| > 0 {
      var n := |items|;
      var init := items[..n - 1];
      FoldKeys(init, f, key);
      forall k ensures k in FoldBy(items, f, key).entries <==> exists i :: 0 <= i < n && key(f(items[i])) == k {
        if k in FoldBy(init, f, key).entries {
          var i :| 0 <= i < n - 1 && key(f(init[i])) == k;
          assert items[i] == init[i];
        }
        if exists i :: 0 <= i < n && key(f(items[i])) == k {
          var i :| 0 <= i < n && key(f(items[i])) == k;
          if i < n - 1 {
            assert init[i] == items[i];
          }
        }
      }
    }
  }

  /** No earlier item has the same key as `items[i]`. */
  ghost predicate FirstOf<A, T>(items: seq<A>, f: A -> T, key: T -> string, i: int)
    requires 0 <= i < |items|
  {
    forall j :: 0 <= j < i ==> key(f(items[j])) != key(f(items[i]))
  }

  /** Of two keys in `order`, the earlier one's first item comes first. */
  ghost predicate FirstOrdered<A, T>(items: seq<A>, f: A -> T, key: T -> string, order: seq<string>) {
    forall p, q, i, j :: OrderedPair(items, f, key, order, p, q, i, j)
  }

  /** If the keys at `p < q` of `order` have their first items at `i` and
      `j`, then `i < j`. */
  ghost predicate OrderedPair<A, T>(items: seq<A>, f: A -> T, key: T -> string, order: seq<string>,
                                    p: int, q: int, i: int, j: int) {
    (0 <= p < q < |order| && 0 <= i < |items| && 0 <= j < |items|
     && FirstOf(items, f, key, i) && FirstOf(items, f, key, j)
     && key(f(items[i])) == order[p] && key(f(items[j])) == order[q]) ==> i < j
  }

  /** Keys are listed in the order in which their first items come. */
  lemma {:induction false} FoldOrder<A, T>(items: seq<A>, f: A -> T, key: T -> string)
    ensures FirstOrdered(items, f, key, FoldBy(items, f, key).order)
    decreases |items|
  {
    if |items| > 0 {
      FoldOrder(items[..|items| - 1], f, key);
      forall p, q, i, j ensures OrderedPair(items, f, key, FoldBy(items, f, key).order, p, q, i, j) {
        if 0 <= p < q < |FoldBy(items, f, key).order| && 0 <= i < |items| && 0 <= j < |items|
          && FirstOf(items, f, key, i) && FirstOf(items, f, key, j)
          && key(f(items[i])) == FoldBy(items, f, key).order[p] && key(f(items[j])) == FoldBy(items, f, key).order[q]
        {
          FoldOrderStep(items, f, key, p, q, i, j);
        }
      }
    }
  }

  /** One appended item keeps the keys in order of their first items. */
  lemma FoldOrderStep<A, T>(items: seq<A>, f: A -> T, key: T -> string, p: int, q: int, i: int, j: int)
    requires |items| > 0
    requires FirstOrdered(items[..|items| - 1], f, key, FoldBy(items[..|items| - 1], f, key).order)
    requires 0 <= p < q < |FoldBy(items, f, key).order| && 0 <= i < |items| && 0 <= j < |items|
    requires FirstOf(items, f, key, i) && FirstOf(items, f, key, j)
    requires key(f(items[i])) == FoldBy(items, f, key).order[p] && key(f(items[j])) == FoldBy(items, f, key).order[q]
    ensures i < j
  {
    var n := |items|;
    var init := items[..n - 1];
    var t := FoldBy(init, f, key);
    var order := FoldBy(items, f, key).order;
    FoldWellFormed(init, f, key);
    assert order[p] == t.order[p];
    var ip := EarlierItem(items, f, key, order[p]);
    if q < |t.order| {
      assert order[q] == t.order[q];
      var jq := EarlierItem(items, f, key, order[q]);
      FirstOfPrefix(items, f, key, i);
      FirstOfPrefix(items, f, key, j);
      assert OrderedPair(init, f, key, t.order, p, q, i, j);
    } else {
      NewKeyLast(items, f, key, j);
    }
  }

  /** A key the map already held before the last item has an earlier item. */
  lemma EarlierItem<A, T>(items: seq<A>, f: A -> T, key: T -> string, k: string) returns (ip: int)
    requires |items| > 0
    requires k in FoldBy(items[..|items| - 1], f, key).entries
    ensures 0 <= ip < |items| - 1 && key(f(items[ip])) == k
  {
    var init := items[..|items| - 1];
    FoldKeys(init, f, key);
    ip :| 0 <= ip < |init| && key(f(init[ip])) == k;
    assert items[ip] == init[ip];
  }

  /** A first item before the last stays first in the shorter list. */
  lemma FirstOfPrefix<A, T>(items: seq<A>, f: A -> T, key: T -> string, i: int)
    requires 0 <= i < |items| - 1 && FirstOf(items, f, key, i)
    ensures FirstOf(items[..|items| - 1], f, key, i)
  {
    var init := items[..|items| - 1];
    assert forall k :: 0 <= k <= i ==> init[k] == items[k];
  }

  /** An item whose key the map did not hold before the last item is the
      last item. */
  lemma NewKeyLast<A, T>(items: seq<A>, f: A -> T, key: T -> string, j: int)
    requires 0 <= j < |items|
    requires key(f(items[j])) !in FoldBy(items[..|items| - 1], f, key).entries
    ensures j == |items| - 1
  {
    var init := items[..|items| - 1];
    FoldKeys(init, f, key);
  }

  /** Last write wins: each key holds the image of its last item. */
  lemma {:induction false} FoldLastWins<A, T>(items: seq<A>, f: A -> T, key: T -> string)
    ensures forall i :: 0 <= i < |items| && LastOf(items, f, key, i) ==>
      key(f(items[i])) in FoldBy(items, f, key).entries
      && FoldBy(items, f, key).entries[key(f(items[i]))] == f(items[i])
    decreases |items|
  {
    if |items| > 0 {
      var n := |items|;
      var init := items[..n - 1];
      FoldLastWins(init, f, key);
      forall i | 0 <= i < n && LastOf(items, f, key, i)
        ensures key(f(items[i])) in FoldBy(items, f, key).entries
          && FoldBy(items, f, key).entries[key(f(items[i]))] == f(items[i])
      {
        if i < n - 1 {
          assert init[i] == items[i];
          assert LastOf(init, f, key, i);
        }
      }
    }
  }

  /** The position of the last item with a given key. */
  lemma LastIndex<A, T>(items: seq<A>, f: A -> T, key: T -> string, k: string) returns (i: int)
    requires exists j :: 0 <= j < |items| && key(f(items[j])) == k
    ensures 0 <= i < |items| && key(f(items[i])) == k && LastOf(items, f, key, i)
  {
    i :| 0 <= i < |items| && key(f(items[i])) == k;
    while exists j :: i < j < |items| && key(f(items[j])) == k
      invariant 0 <= i < |items| && key(f(items[i])) == k
      decreases |items| - i
    {
      var later :| i < later < |items| && key(f(items[later])) == k;
      i := later;
    }
  }

  /** The values of the folded map are exactly the images of the last
      item of each key. */
  lemma FoldValues<A, T>(items: seq<A>, f: A -> T, key: T -> string)
    ensures Covers(FoldBy(items, f, key))
    ensures forall i :: 0 <= i < |items| && LastOf(items, f, key, i) ==> f(items[i]) in Values(FoldBy(items, f, key))
    ensures forall x :: x in Values(FoldBy(items, f, key)) ==>
      exists i :: 0 <= i < |items| && LastOf(items, f, key, i) && x == f(items[i])
    ensures forall p :: 0 <= p < |Values(FoldBy(items, f, key))| ==>
      exists i :: 0 <= i < |items| && LastOf(items, f, key, i)
        && key(f(items[i])) == FoldBy(items, f, key).order[p] && Values(FoldBy(items, f, key))[p] == f(items[i])
  {
    var t := FoldBy(items, f, key);
    FoldWellFormed(items, f, key);
    FoldKeys(items, f, key);
    FoldLastWins(items, f, key);
    var vs := Values(t);
    forall i | 0 <= i < |items| && LastOf(items, f, key, i) ensures f(items[i]) in vs {
      var p :| 0 <= p < |t.order| && t.order[p] == key(f(items[i]));
      assert vs[p] == f(items[i]);
    }
    forall x | x in vs ensures exists i :: 0 <= i < |items| && LastOf(items, f, key, i) && x == f(items[i]) {
      var p :| 0 <= p < |vs| && vs[p] == x;
      var i := LastIndex(items, f, key, t.order[p]);
    }
    forall p | 0 <= p < |vs|
      ensures exists i :: 0 <= i < |items| && LastOf(items, f, key, i) && key(f(items[i])) == t.order[p] && vs[p] == f(items[i])
    {
      var i := LastIndex(items, f, key, t.order[p]);
    }
  }

  /** No two values of a well-formed map share a key. */
  lemma ValuesKeysDistinct<T>(t: Table<T>, key: T -> string)
    requires WellFormed(t, key)
    ensures Covers(t)
    ensures forall i, j :: 0 <= i < j < |Values(t)| ==> key(Values(t)[i]) != key(Values(t)[j])
  {
    assert forall i :: 0 <= i < |Values(t)| ==> key(Values(t)[i]) == t.order[i];
  }

  /** Where a kept element sits in the unfiltered sequence. */
  lemma KeptIndex<T>(s: seq<T>, p: T -> bool, x: T) returns (k: int)
    requires x in Keep(s, p)
    ensures 0 <= k < |s| && s[k] == x
  {
    KeepMembers(s, p);
    k :| 0 <= k < |s| && s[k] == x;
  }

  /** Filtering keeps keys apart. */
  lemma {:induction false} KeepKeysDistinct<T>(s: seq<T>, p: T -> bool, key: T -> string)
    requires forall i, j :: 0 <= i < j < |s| ==> key(s[i]) != key(s[j])
    ensures forall i, j :: 0 <= i < j < |Keep(s, p)| ==> key(Keep(s, p)[i]) != key(Keep(s, p)[j])
    decreases |s|
  {
    if |s| > 0 {
      var init := s[..|s| - 1];
      var last := s[|s| - 1];
      KeepKeysDistinct(init, p, key);
      var r := Keep(s, p);
      var h := Keep(init, p);
      forall i, j | 0 <= i < j < |r| ensures key(r[i]) != key(r[j]) {
        if j >= |h| {
          assert r[j] == last;
          assert r[i] == h[i] && h[i] in Keep(init, p);
          var k := KeptIndex(init, p, h[i]);
          assert s[k] == h[i];
        } else {
          assert r[i] == h[i] && r[j] == h[j];
        }
      }
    }
  }
}
