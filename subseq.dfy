/** The greedy left-to-right walk both fuzzy matchers perform: scan the
    haystack once and advance through the needle whenever the current
    character is the next one wanted. */
module Subseq {

  /** The haystack positions the greedy walk matches, one per needle
      character matched so far. Defined on the last haystack character so
      that a loop over a growing prefix follows the definition step by step. */
  function Leftmost(h: string, n: string): (p: seq<nat>)
    ensures |p| <= |n|
    decreases |h|
  {
    if |h| == 0 then []
    else
      var q := Leftmost(h[..|h| - 1], n);
      if |q| < |n| && h[|h| - 1] == n[|q|] then q + [|h| - 1] else q
  }

  /** `p` places the characters of `n`, in order, at strictly increasing
      positions of `h`. */
  predicate Embeds(h: string, n: string, p: seq<nat>) {
    |p| == |n|
    && (forall k :: 0 <= k < |p| ==> p[k] < |h| && h[p[k]] == n[k])
    && (forall k :: 0 < k < |p| ==> p[k - 1] < p[k])
  }

  /** `n` is a (not necessarily contiguous) subsequence of `h`. */
  ghost predicate IsSubsequence(n: string, h: string) {
    exists p :: Embeds(h, n, p)
  }

  /** Number of jumps wider than two characters between consecutive matched
      positions: the `gapCount` of the fuzzy matcher. */
  function Gaps(p: seq<nat>): (g: nat)
    ensures g <= |p|
    decreases |p|
  {
    if |p| <= 1 then 0
    else Gaps(p[..|p| - 1]) + (if p[|p| - 1] as int - p[|p| - 2] as int > 2 then 1 else 0)
  }

  /** What the walk has matched so far is a genuine embedding of the matched
      prefix of the needle. */
  lemma {:induction false} LeftmostSound(h: string, n: string)
    ensures Embeds(h, n[..|Leftmost(h, n)|], Leftmost(h, n))
    decreases |h|
  {
    if |h| > 0 {
      var h' := h[..|h| - 1];
      LeftmostSound(h', n);
      var q := Leftmost(h', n);
      if |q| < |n| && h[|h| - 1] == n[|q|] {
        var p := q + [|h| - 1];
        assert forall k :: 0 <= k < |q| ==> h[q[k]] == h'[q[k]];
        assert n[..|p|] == n[..|q|] + [n[|q|]];
      } else {
        assert forall k :: 0 <= k < |q| ==> h[q[k]] == h'[q[k]];
      }
    }
  }

  /** The walk is complete: whenever some embedding of the first `j` needle
      characters exists, the walk matches at least `j` of them. */
  lemma {:induction false} LeftmostComplete(h: string, n: string, j: nat, e: seq<nat>)
    requires j <= |n| && Embeds(h, n[..j], e)
    ensures |Leftmost(h, n)| >= j
    decreases |h|
  {
    if j > 0 {
      assert e[0] < |h|;
      var h' := h[..|h| - 1];
      var q := Leftmost(h', n);
      if e[j - 1] < |h| - 1 {
        assert forall k :: 0 <= k < j ==> e[k] <= e[j - 1] by {
          forall k | 0 <= k < j ensures e[k] <= e[j - 1] {
            EmbedIncreasing(h, n[..j], e, k, j - 1);
          }
        }
        assert Embeds(h', n[..j], e);
        LeftmostComplete(h', n, j, e);
      } else {
        var e' := e[..j - 1];
        assert n[..j][..j - 1] == n[..j - 1];
        assert forall k :: 0 <= k < j - 1 ==> e'[k] < |h| - 1 by {
          forall k | 0 <= k < j - 1 ensures e'[k] < |h| - 1 {
            EmbedIncreasing(h, n[..j], e, k, j - 2);
          }
        }
        assert Embeds(h', n[..j - 1], e');
        LeftmostComplete(h', n, j - 1, e');
      }
    }
  }

  lemma {:induction false} EmbedIncreasing(h: string, n: string, e: seq<nat>, a: nat, b: nat)
    requires Embeds(h, n, e) && a <= b < |e|
    ensures e[a] <= e[b]
    decreases b - a
  {
    if a < b {
      EmbedIncreasing(h, n, e, a, b - 1);
    }
  }

  /** The walk matches the whole needle exactly when the needle is a
      subsequence of the haystack. */
  lemma LeftmostFullIffSubsequence(h: string, n: string)
    ensures |Leftmost(h, n)| == |n| <==> IsSubsequence(n, h)
  {
    LeftmostSound(h, n);
    assert n[..|n|] == n;
    if |Leftmost(h, n)| == |n| {
      assert Embeds(h, n, Leftmost(h, n));
    }
    if IsSubsequence(n, h) {
      var e :| Embeds(h, n, e);
      LeftmostComplete(h, n, |n|, e);
    }
  }

  /** Once the whole needle is matched, reading further haystack characters
      changes nothing: an early `return` inside the walk gives the same
      positions as the full walk. */
  lemma {:induction false} LeftmostStable(h: string, n: string, i: nat)
    requires i <= |h| && |Leftmost(h[..i], n)| == |n|
    ensures Leftmost(h, n) == Leftmost(h[..i], n)
    decreases |h| - i
  {
    if i < |h| {
      var h1 := h[..i + 1];
      assert h1[..i] == h[..i];
      assert Leftmost(h1, n) == Leftmost(h[..i], n);
      LeftmostStable(h, n, i + 1);
    } else {
      assert h[..i] == h;
    }
  }

  /** The walk over one more haystack character, as a loop takes it. */
  lemma LeftmostStep(h: string, n: string, i: nat)
    requires i < |h|
    ensures var q := Leftmost(h[..i], n);
      Leftmost(h[..i + 1], n)
        == if |q| < |n| && h[i] == n[|q|] then q + [i] else q
  {
    assert h[..i + 1][..i] == h[..i];
  }
}
