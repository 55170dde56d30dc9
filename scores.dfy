/**
 * Class-score selection for one detector output row: the class is the
 * first position of the largest score (numpy's argmax) and the confidence
 * is the score found there.
 */
module Scores {

  /** k is the first position of a maximum of s. */
  ghost predicate IsFirstMax(s: seq<real>, k: int)
  {
    && 0 <= k < |s|
    && (forall j :: 0 <= j < |s| ==> s[j] <= s[k])
    && (forall j :: 0 <= j < k ==> s[j] < s[k])
  }

  /**
   * numpy.argmax over a non-empty vector: scans left to right and only moves
   * to a later position when its score is strictly larger, so ties go to the
   * earliest position.
   */
  function ArgMax(s: seq<real>): (k: nat)
    requires |s| > 0
    decreases |s|
    ensures IsFirstMax(s, k)
  {
    if |s| == 1 then 0
    else
      var k := ArgMax(s[..|s| - 1]);
      if s[|s| - 1] > s[k] then |s| - 1 else k
  }

  /** ArgMax's contract pins down a single position: the first maximum is unique. */
  lemma ArgMaxUnique(s: seq<real>, k: int)
    requires |s| > 0
    ensures IsFirstMax(s, k) <==> k == ArgMax(s)
  {
  }

  /** The confidence of a row: the score at the argmax, which is the largest score. */
  function MaxScore(s: seq<real>): (m: real)
    requires |s| > 0
    ensures m in s
    ensures forall j :: 0 <= j < |s| ==> s[j] <= m
  {
    s[ArgMax(s)]
  }

  /** The largest score exceeds a threshold exactly when some score does. */
  lemma MaxScoreAbove(s: seq<real>, t: real)
    requires |s| > 0
    ensures MaxScore(s) > t <==> exists j :: 0 <= j < |s| && s[j] > t
  {
    if MaxScore(s) > t {
      assert s[ArgMax(s)] > t;
    }
  }
}
