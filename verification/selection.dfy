/**
  The best-configuration selection of the score loop: a left fold over the
  per-ratio scores that keeps the lowest score seen so far and its position.

  The loop starts from `lowest = 0` and uses `lowest == 0` as its "nothing
  chosen yet" test, so a score of exactly zero, once adopted, is replaced
  by whatever score comes next (for non-negative scores a zero is always
  adopted). Otherwise a strict `<` keeps the earliest
  of equal minima. The lemmas below pin this down against an independent
  first-minimum predicate.
 */
module Selection {

  /** The two locals the loop carries: the lowest score so far and its index. */
  datatype Best = Best(lowest: real, index: nat)

  /** Their values before the first iteration. */
  const Unset := Best(0.0, 0)

  /** One iteration of the loop body, at position `i` with score `score`. */
  function Step(b: Best, i: nat, score: real): (r: Best)
    ensures r == b || r == Best(score, i)
    ensures b.lowest == 0.0 ==> r == Best(score, i)
    ensures b.lowest != 0.0 ==> r.lowest <= b.lowest && r.lowest <= score
    ensures b.lowest != 0.0 && score == b.lowest ==> r == b
  {
    if b.lowest == 0.0 || (0.0 != b.lowest && score < b.lowest) then Best(score, i) else b
  }

  /** The state the loop leaves behind after running over `scores`. */
  function Select(scores: seq<real>): (b: Best)
    ensures |scores| == 0 ==> b == Unset
    ensures |scores| > 0 ==> b.index < |scores| && b.lowest == scores[b.index]
  {
    if |scores| == 0 then Unset
    else
      var prefix := scores[..|scores| - 1];
      assert forall j :: 0 <= j < |prefix| ==> prefix[j] == scores[j];
      Step(Select(prefix), |scores| - 1, scores[|scores| - 1])
  }

  /** Reference definition: `k` is the first position of a minimum of
      `s[lo..hi]`. */
  ghost predicate IsFirstMinIn(s: seq<real>, lo: nat, hi: nat, k: nat) {
    && lo <= k < hi <= |s|
    && (forall j :: lo <= j < hi ==> s[k] <= s[j])
    && (forall j :: lo <= j < k ==> s[k] < s[j])
  }

  /** The first-minimum position of a range is unique. */
  lemma FirstMinUnique(s: seq<real>, lo: nat, hi: nat, k1: nat, k2: nat)
    requires IsFirstMinIn(s, lo, hi, k1) && IsFirstMinIn(s, lo, hi, k2)
    ensures k1 == k2
  {
    assert s[k1] <= s[k2] && s[k2] <= s[k1];
  }

  /** Unfolding `Select` on a prefix of `s`. */
  lemma SelectPrefixStep(s: seq<real>, m: nat)
    requires 0 < m <= |s|
    ensures Select(s[..m]) == Step(Select(s[..m - 1]), m - 1, s[m - 1])
  {
    assert s[..m][..m - 1] == s[..m - 1];
  }

  /** Running the loop over one more score performs one more step. */
  lemma SelectSnoc(s: seq<real>, score: real)
    ensures Select(s + [score]) == Step(Select(s), |s|, score)
  {
    SelectPrefixStep(s + [score], |s| + 1);
    assert (s + [score])[..|s|] == s;
    assert (s + [score])[..|s| + 1] == s + [score];
  }

  /** The first score is adopted unconditionally: after one iteration the
      loop holds that score and position 0. */
  lemma SelectAdoptsFirst(s: seq<real>)
    requires |s| > 0
    ensures Select(s[..1]) == Best(s[0], 0)
  {
    SelectPrefixStep(s, 1);
  }

  /** With no zero score the sentinel never fires, and the loop computes
      the first position of the minimum. */
  lemma {:induction false} SelectNonZero(s: seq<real>)
    requires |s| > 0
    requires forall j :: 0 <= j < |s| ==> s[j] != 0.0
    ensures IsFirstMinIn(s, 0, |s|, Select(s).index)
    ensures Select(s).lowest == s[Select(s).index]
  {
    var n := |s|;
    if n > 1 {
      var p := s[..n - 1];
      SelectNonZero(p);
      SelectPrefixStep(s, n);
      assert s[..n] == s;
      var b := Select(p);
      assert b.lowest == s[b.index] && b.lowest != 0.0;
      if s[n - 1] < b.lowest {
        assert Select(s) == Best(s[n - 1], n - 1);
      } else {
        assert Select(s) == b;
      }
    } else {
      SelectAdoptsFirst(s);
      assert s[..1] == s;
    }
  }

  /** A zero score that is not the last is never the final selection: the
      next score overwrites it whatever it is. */
  lemma SelectSkipsZero(s: seq<real>, z: nat)
    requires z + 1 < |s|
    requires s[z] == 0.0
    ensures Select(s).index != z
  {
  }

  /** For non-negative scores the chosen score is non-negative. */
  lemma SelectLowestNonNegative(s: seq<real>)
    requires forall j :: 0 <= j < |s| ==> 0.0 <= s[j]
    ensures 0.0 <= Select(s).lowest
  {
  }

  /** Exact selection for non-negative scores (mean absolute differences
      are never negative) that contain a zero: with `z` the position of the
      last zero, the loop chooses the first minimum of the scores after `z`,
      or `z` itself when the zero is the last score. */
  lemma {:induction false} SelectAfterLastZero(s: seq<real>, z: nat)
    requires forall j :: 0 <= j < |s| ==> 0.0 <= s[j]
    requires z < |s| && s[z] == 0.0
    requires forall j :: z < j < |s| ==> s[j] != 0.0
    ensures z + 1 == |s| ==> Select(s).index == z
    ensures z + 1 < |s| ==> IsFirstMinIn(s, z + 1, |s|, Select(s).index)
  {
    AfterLastZeroUpTo(s, z, |s|);
    assert s[..|s|] == s;
  }

  lemma {:induction false} AfterLastZeroUpTo(s: seq<real>, z: nat, m: nat)
    requires forall j :: 0 <= j < |s| ==> 0.0 <= s[j]
    requires z < m <= |s| && s[z] == 0.0
    requires forall j :: z < j < |s| ==> s[j] != 0.0
    ensures m == z + 1 ==> Select(s[..m]) == Best(0.0, z)
    ensures z + 1 < m ==> IsFirstMinIn(s, z + 1, m, Select(s[..m]).index)
    ensures z + 1 < m ==> 0.0 < Select(s[..m]).lowest
  {
    SelectPrefixStep(s, m);
    var b := Select(s[..m - 1]);
    if m == z + 1 {
      SelectLowestNonNegative(s[..m - 1]);
    } else {
      AfterLastZeroUpTo(s, z, m - 1);
      if m == z + 2 {
        assert Select(s[..m]) == Best(s[z + 1], z + 1);
      } else if s[m - 1] < b.lowest {
        assert Select(s[..m]) == Best(s[m - 1], m - 1);
      } else {
        assert Select(s[..m]) == b;
      }
    }
  }

  /** Where the loop departs from a plain minimum: a perfect score of zero
      followed by a worse one loses to it. */
  lemma ZeroLosesToNext()
    ensures Select([0.0, 0.5]) == Best(0.5, 1)
    ensures IsFirstMinIn([0.0, 0.5], 0, 2, 0)
  {
    SelectPrefixStep([0.0, 0.5], 2);
    SelectPrefixStep([0.0, 0.5], 1);
  }
}
