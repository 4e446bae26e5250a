/**
 * The progress overview card: the overall figure is the rounded mean of the
 * subjects' progress values, and each subject's colour follows its
 * `completed` flag alone.
 */
module ProgressOverview {
  import opened Rounding

  datatype Subject = Subject(progress: int, completed: bool)

  /** `subjects.reduce((acc, s) => acc + s.progress, 0)`, folded from the left. */
  function Sum(subjects: seq<Subject>): int
  {
    if |subjects| == 0 then 0
    else Sum(subjects[..|subjects| - 1]) + subjects[|subjects| - 1].progress
  }

  /** The smallest progress value. */
  function MinProgress(subjects: seq<Subject>): (m: int)
    requires |subjects| > 0
    ensures forall i :: 0 <= i < |subjects| ==> m <= subjects[i].progress
    ensures exists i :: 0 <= i < |subjects| && m == subjects[i].progress
  {
    if |subjects| == 1 then subjects[0].progress
    else
      var m := MinProgress(subjects[1..]);
      assert forall i :: 1 <= i < |subjects| ==> subjects[i] == subjects[1..][i - 1];
      if subjects[0].progress <= m then subjects[0].progress else m
  }

  /** The largest progress value. */
  function MaxProgress(subjects: seq<Subject>): (m: int)
    requires |subjects| > 0
    ensures forall i :: 0 <= i < |subjects| ==> subjects[i].progress <= m
    ensures exists i :: 0 <= i < |subjects| && m == subjects[i].progress
  {
    if |subjects| == 1 then subjects[0].progress
    else
      var m := MaxProgress(subjects[1..]);
      assert forall i :: 1 <= i < |subjects| ==> subjects[i] == subjects[1..][i - 1];
      if subjects[0].progress >= m then subjects[0].progress else m
  }

  /** Every value lies between a lower and an upper bound, so the sum does too, `|subjects|` times over. */
  lemma {:induction false} SumBetween(subjects: seq<Subject>, lo: int, hi: int)
    requires forall i :: 0 <= i < |subjects| ==> lo <= subjects[i].progress <= hi
    ensures lo * |subjects| <= Sum(subjects) <= hi * |subjects|
  {
    if |subjects| > 0 {
      var init := subjects[..|subjects| - 1];
      assert forall i :: 0 <= i < |init| ==> init[i] == subjects[i];
      SumBetween(init, lo, hi);
    }
  }

  /**
   * `overallProgress`: `Math.round(sum / length)`. The length is not guarded,
   * so the list must be non-empty. The result lies between the smallest and
   * the largest progress value.
   */
  function OverallProgress(subjects: seq<Subject>): (r: int)
    requires |subjects| > 0
    ensures MinProgress(subjects) <= r <= MaxProgress(subjects)
    ensures |subjects| * (2 * r - 1) <= 2 * Sum(subjects) < |subjects| * (2 * r + 1)
  {
    SumBetween(subjects, MinProgress(subjects), MaxProgress(subjects));
    RoundDivBetween(Sum(subjects), |subjects|, MinProgress(subjects), MaxProgress(subjects));
    RoundDiv(Sum(subjects), |subjects|)
  }

  /** With every subject's progress in [0, 100], so is the overall figure. */
  lemma OverallProgressIsPercentage(subjects: seq<Subject>)
    requires |subjects| > 0
    requires forall i :: 0 <= i < |subjects| ==> 0 <= subjects[i].progress <= 100
    ensures 0 <= OverallProgress(subjects) <= 100
  {
    var lo, hi := MinProgress(subjects), MaxProgress(subjects);
    var a :| 0 <= a < |subjects| && lo == subjects[a].progress;
    var b :| 0 <= b < |subjects| && hi == subjects[b].progress;
  }

  /** Taking out the element at `k` lowers the sum by exactly its progress. */
  lemma {:induction false} SumRemove(subjects: seq<Subject>, k: int)
    requires 0 <= k < |subjects|
    ensures Sum(subjects) == subjects[k].progress + Sum(subjects[..k] + subjects[k + 1..])
  {
    var n := |subjects|;
    var init := subjects[..n - 1];
    if k < n - 1 {
      SumRemove(init, k);
      var rest := subjects[..k] + subjects[k + 1..];
      assert init[..k] + init[k + 1..] == rest[..|rest| - 1];
      assert rest[|rest| - 1] == subjects[n - 1];
    } else {
      assert subjects[..k] + subjects[k + 1..] == init;
    }
  }

  /** The sum depends only on which values occur, not on their order. */
  lemma {:induction false} SumPermutation(a: seq<Subject>, b: seq<Subject>)
    requires multiset(a) == multiset(b)
    ensures Sum(a) == Sum(b)
    decreases |a|
  {
    if |a| > 0 {
      var n := |a|;
      var x := a[n - 1];
      assert x in multiset(b);
      var k :| 0 <= k < |b| && b[k] == x;
      var a' := a[..n - 1];
      var b' := b[..k] + b[k + 1..];
      assert a == a' + [x];
      assert b == b[..k] + [x] + b[k + 1..];
      assert multiset(a') == multiset(b') by {
        assert multiset(a) == multiset(a') + multiset{x};
        assert multiset(b) == multiset(b[..k]) + multiset{x} + multiset(b[k + 1..]);
        assert multiset(b') == multiset(b[..k]) + multiset(b[k + 1..]);
        assert multiset(a') == multiset(a) - multiset{x};
        assert multiset(b') == multiset(b) - multiset{x};
      }
      SumPermutation(a', b');
      SumRemove(b, k);
    } else {
      assert |b| == |multiset(b)| == 0;
    }
  }

  /** Reordering the subjects does not change the overall figure. */
  lemma OverallProgressIgnoresOrder(a: seq<Subject>, b: seq<Subject>)
    requires |a| > 0 && multiset(a) == multiset(b)
    ensures |b| > 0 && OverallProgress(a) == OverallProgress(b)
  {
    assert |a| == |multiset(a)| == |multiset(b)| == |b|;
    SumPermutation(a, b);
  }

  /** The card's ten subjects give an overall 68% (679 / 10 = 67.9). */
  lemma OverallProgressOfCardData()
    ensures OverallProgress([
      Subject(85, true), Subject(72, true), Subject(68, false), Subject(91, true), Subject(45, false),
      Subject(78, true), Subject(63, false), Subject(40, false), Subject(55, false), Subject(82, true)]) == 68
  {
    var s := [
      Subject(85, true), Subject(72, true), Subject(68, false), Subject(91, true), Subject(45, false),
      Subject(78, true), Subject(63, false), Subject(40, false), Subject(55, false), Subject(82, true)];
    assert Sum(s[..1]) == 85;
    assert s[..2][..1] == s[..1];
    assert Sum(s[..2]) == 157;
    assert s[..3][..2] == s[..2];
    assert Sum(s[..3]) == 225;
    assert s[..4][..3] == s[..3];
    assert Sum(s[..4]) == 316;
    assert s[..5][..4] == s[..4];
    assert Sum(s[..5]) == 361;
    assert s[..6][..5] == s[..5];
    assert Sum(s[..6]) == 439;
    assert s[..7][..6] == s[..6];
    assert Sum(s[..7]) == 502;
    assert s[..8][..7] == s[..7];
    assert Sum(s[..8]) == 542;
    assert s[..9][..8] == s[..8];
    assert Sum(s[..9]) == 597;
    assert s[..10] == s;
    assert s[..9] == s[..|s| - 1];
    assert Sum(s) == 679;
    RoundDivUnique(679, 10, 68);
  }

  /** The colour of a subject's figure and bar. */
  datatype ProgressTone =
    | CompleteTone     // text-progress-complete / bg-progress-complete
    | IncompleteTone   // text-progress-incomplete / bg-progress-incomplete

  function SubjectTone(s: Subject): (r: ProgressTone)
    ensures r == CompleteTone <==> s.completed
  {
    if s.completed then CompleteTone else IncompleteTone
  }

  /** Two subjects with the same flag get the same colour whatever their progress, even 100% left incomplete. */
  lemma ToneIgnoresProgress(a: Subject, b: Subject)
    requires a.completed == b.completed
    ensures SubjectTone(a) == SubjectTone(b)
    ensures SubjectTone(Subject(100, false)) == IncompleteTone
    ensures SubjectTone(Subject(0, true)) == CompleteTone
  {
  }
}
