/**
 * The dashboard: the three summary figures over the signed-in user's resumes
 * (how many, their rounded average ATS score, whether there is any activity),
 * the three most recently modified resumes, the "modified ... ago" text and
 * the coloured score badge of each listed resume.
 */
module Dashboard {
  import opened Wrappers
  import opened Types
  import opened Strings
  import opened Seqs
  import opened ResumeStore

  // ---------------------------------------------------------------------------
  // Summary figures
  // ---------------------------------------------------------------------------

  /** `resume.atsScore || 0`: a resume never analysed counts as 0. */
  function ScoreOf(r: Resume): (s: int)
    ensures r.atsScore.Some? ==> s == r.atsScore.value
    ensures r.atsScore.None? ==> s == 0
  {
    r.atsScore.GetOr(0)
  }

  /** The `reduce` that adds up the scores. */
  function SumScores(rs: seq<Resume>): int {
    if rs == [] then 0 else ScoreOf(rs[0]) + SumScores(rs[1..])
  }

  /** The sum of a concatenation is the sum of the parts. */
  lemma {:induction false} SumScoresConcat(a: seq<Resume>, b: seq<Resume>)
    ensures SumScores(a + b) == SumScores(a) + SumScores(b)
  {
    if a != [] {
      assert (a + b)[1..] == a[1..] + b;
      SumScoresConcat(a[1..], b);
    } else {
      assert a + b == b;
    }
  }

  /** The sum does not depend on the order of the resumes. */
  lemma {:induction false} SumScoresPermutation(a: seq<Resume>, b: seq<Resume>)
    requires multiset(a) == multiset(b)
    ensures SumScores(a) == SumScores(b)
    decreases |a|
  {
    if a == [] {
      assert |b| == |multiset(b)| == 0;
    } else {
      var i := PermutationPosition(a, b);
      PermutationTail(a, b, i);
      SumScoresRemove(b, i);
      SumScoresPermutation(a[1..], RemoveAt(b, i));
    }
  }

  /** Taking one resume out of the list takes its score out of the sum. */
  lemma {:induction false} SumScoresRemove(b: seq<Resume>, i: nat)
    requires i < |b|
    ensures SumScores(b) == ScoreOf(b[i]) + SumScores(RemoveAt(b, i))
  {
    assert b == b[..i] + ([b[i]] + b[i + 1..]);
    SumScoresConcat(b[..i], [b[i]] + b[i + 1..]);
    SumScoresConcat([b[i]], b[i + 1..]);
    SumScoresConcat(b[..i], b[i + 1..]);
  }

  /** Every score of `rs` lies between `lo` and `hi`, so the sum lies between `|rs| * lo` and `|rs| * hi`. */
  lemma {:induction false} SumScoresBounds(rs: seq<Resume>, lo: int, hi: int)
    requires forall i :: 0 <= i < |rs| ==> lo <= ScoreOf(rs[i]) <= hi
    ensures |rs| * lo <= SumScores(rs) <= |rs| * hi
  {
    if rs != [] {
      SumScoresBounds(rs[1..], lo, hi);
      assert |rs| * lo == lo + (|rs| - 1) * lo;
      assert |rs| * hi == hi + (|rs| - 1) * hi;
    }
  }

  /** `avgAtsScore`: the mean score rounded to the nearest integer (halves up), 0 for no resumes. */
  function AverageScore(rs: seq<Resume>): (avg: int)
    ensures |rs| == 0 ==> avg == 0
    ensures |rs| > 0 ==> 2 * |rs| * avg - |rs| <= 2 * SumScores(rs) < 2 * |rs| * avg + |rs|
  {
    if |rs| > 0 then RoundHalfUp(SumScores(rs), |rs|) else 0
  }

  /** The average of scores that all lie between `lo` and `hi` lies between them too. */
  lemma AverageWithinScores(rs: seq<Resume>, lo: int, hi: int)
    requires |rs| > 0
    requires forall i :: 0 <= i < |rs| ==> lo <= ScoreOf(rs[i]) <= hi
    ensures lo <= AverageScore(rs) <= hi
  {
    var n, avg, sum := |rs|, AverageScore(rs), SumScores(rs);
    SumScoresBounds(rs, lo, hi);
    assert n * avg < n * (hi + 1) by {
      assert 2 * n * avg == 2 * (n * avg);
      assert n * (hi + 1) == n * hi + n;
    }
    MulCancelLess(n, avg, hi + 1);
    assert n * (lo - 1) < n * avg by {
      assert 2 * n * avg == 2 * (n * avg);
      assert n * (lo - 1) == n * lo - n;
    }
    MulCancelLess(n, lo - 1, avg);
  }

  /** Reordering the resumes, as the recency sort does, leaves the average as it was. */
  lemma AverageIgnoresOrder(a: seq<Resume>, b: seq<Resume>)
    requires multiset(a) == multiset(b)
    ensures AverageScore(a) == AverageScore(b)
  {
    assert |a| == |multiset(a)| == |multiset(b)| == |b|;
    SumScoresPermutation(a, b);
  }

  /** The "ATS Avg Score" figure: `N%` for a positive average, `N/A` otherwise. */
  function AverageStat(avg: int): (text: string)
    ensures avg > 0 ==> |text| >= 2 && text[|text| - 1] == '%' && text[..|text| - 1] == NatToString(avg)
    ensures avg > 0 ==> DecimalValue(text[..|text| - 1]) == avg
    ensures avg <= 0 ==> text == "N/A"
  {
    if avg > 0 then NatToStringValue(avg); NatToString(avg) + "%" else "N/A"
  }

  /** The figure reads `N/A` exactly when the average is not positive. */
  lemma AverageStatNA(avg: int)
    ensures AverageStat(avg) == "N/A" <==> avg <= 0
  {
    if avg > 0 {
      var text := AverageStat(avg);
      assert text[|text| - 1] == '%';
      assert "N/A"[2] == 'A';
    }
  }

  /** Once every listed resume has been analysed, the average is a real figure from 60 to 100. */
  lemma AnalysedResumesHaveAverage(rs: seq<Resume>)
    requires |rs| > 0
    requires forall i :: 0 <= i < |rs| ==> rs[i].atsScore.Some? && 60 <= rs[i].atsScore.value <= 100
    ensures 60 <= AverageScore(rs) <= 100
    ensures AverageStat(AverageScore(rs)) != "N/A"
  {
    AverageWithinScores(rs, 60, 100);
    AverageStatNA(AverageScore(rs));
  }

  /** The "Total Resumes" figure. */
  function TotalStat(rs: seq<Resume>): (text: string)
    ensures |text| >= 1 && forall i :: 0 <= i < |text| ==> '0' <= text[i] <= '9'
    ensures DecimalValue(text) == |rs|
  {
    NatToStringValue(|rs|);
    NatToString(|rs|)
  }

  /** The "Recent Activity" figure. */
  function ActivityStat(rs: seq<Resume>): (text: string)
    ensures text == "Active" <==> |rs| > 0
    ensures text == "None" <==> |rs| == 0
  {
    if |rs| > 0 then "Active" else "None"
  }

  // ---------------------------------------------------------------------------
  // Most recent resumes
  // ---------------------------------------------------------------------------

  /** Latest modification first. */
  predicate NewestFirst(s: seq<Resume>) {
    forall i, j :: 0 <= i < j < |s| ==> s[i].updatedAt >= s[j].updatedAt
  }

  /** The comparator sort: reorders `a` in place so that later modification times come first. */
  method SortByRecency(a: array<Resume>)
    modifies a
    ensures NewestFirst(a[..])
    ensures multiset(a[..]) == multiset(old(a[..]))
  {
    var i := 0;
    while i < a.Length
      invariant 0 <= i <= a.Length
      invariant forall p, q :: 0 <= p < q < i ==> a[p].updatedAt >= a[q].updatedAt
      invariant multiset(a[..]) == multiset(old(a[..]))
    {
      InsertNewest(a, i);
      i := i + 1;
    }
  }

  /** One insertion step: move `a[i]` left past every element modified earlier than it. */
  method InsertNewest(a: array<Resume>, i: nat)
    requires i < a.Length
    requires forall p, q :: 0 <= p < q < i ==> a[p].updatedAt >= a[q].updatedAt
    modifies a
    ensures forall p, q :: 0 <= p < q <= i ==> a[p].updatedAt >= a[q].updatedAt
    ensures multiset(a[..]) == multiset(old(a[..]))
  {
    var j := i;
    while j > 0 && a[j - 1].updatedAt < a[j].updatedAt
      invariant 0 <= j <= i
      invariant forall p, q :: 0 <= p < q <= i && p != j && q != j ==> a[p].updatedAt >= a[q].updatedAt
      invariant forall q :: j < q <= i ==> a[j].updatedAt > a[q].updatedAt
      invariant multiset(a[..]) == multiset(old(a[..]))
    {
      Swap(a, j - 1, j);
      j := j - 1;
    }
  }

  /** Exchange two entries; the entries as a whole stay the same. */
  method Swap(a: array<Resume>, i: nat, j: nat)
    requires i < a.Length && j < a.Length
    modifies a
    ensures a[..] == old(a[..])[i := old(a[j])][j := old(a[i])]
    ensures multiset(a[..]) == multiset(old(a[..]))
  {
    a[i], a[j] := a[j], a[i];
  }

  /**
   * `resumes.sort(...).slice(0, 3)`: the sort reorders the hook's own list
   * in place, newest first, and the first three of it are shown.
   */
  method RecentResumes(hook: ResumesHook) returns (recent: seq<Resume>)
    modifies hook`resumes
    ensures NewestFirst(hook.resumes)
    ensures multiset(hook.resumes) == multiset(old(hook.resumes))
    ensures recent == Take(hook.resumes, 3)
  {
    var s := hook.resumes;
    var a := new Resume[|s|](i requires 0 <= i < |s| => s[i]);
    assert a[..] == s;
    SortByRecency(a);
    hook.resumes := a[..];
    recent := Take(a[..], 3);
  }

  /** The first three of a newest-first list are the newest: none of the rest was modified later. */
  lemma RecentAreNewest(sorted: seq<Resume>)
    requires NewestFirst(sorted)
    ensures NewestFirst(Take(sorted, 3))
    ensures forall r, x :: r in Take(sorted, 3) && x in sorted[|Take(sorted, 3)|..] ==> r.updatedAt >= x.updatedAt
  {
    var t := Take(sorted, 3);
    forall r, x | r in t && x in sorted[|t|..]
      ensures r.updatedAt >= x.updatedAt
    {
      var p :| 0 <= p < |t| && t[p] == r;
      var rest := sorted[|t|..];
      var q :| 0 <= q < |rest| && rest[q] == x;
      assert sorted[p] == r && sorted[|t| + q] == x;
    }
  }

  // ---------------------------------------------------------------------------
  // "Modified ... ago"
  // ---------------------------------------------------------------------------

  const HourMs := 3600000
  const DayMs := 86400000

  /** `Math.floor((now - date) / 3600000)`: whole hours elapsed, rounded down (so negative for a future date). */
  function HoursSince(now: Instant, date: Instant): (h: int)
    ensures HourMs * h <= now - date < HourMs * (h + 1)
  {
    DivBounds(now - date, HourMs);
    (now - date) / HourMs
  }

  /** Counting whole days through whole hours gives the whole days elapsed. */
  lemma DaysFromHours(x: int)
    requires x >= 0
    ensures (x / HourMs) / 24 == x / DayMs
  {
    var h := x / HourMs;
    var d := h / 24;
    DivBounds(x, HourMs);
    DivBounds(h, 24);
    assert DayMs * d == HourMs * (24 * d);
    MulLeftMono(HourMs, 24 * d, h);
    MulLeftMono(HourMs, h + 1, 24 * d + 24);
    assert HourMs * (24 * d + 24) == DayMs * (d + 1);
    assert DayMs * d <= x < DayMs * (d + 1);
    DivUnique(x, DayMs, d);
  }

  /** The only `q` with `b * q <= a < b * (q + 1)` is `a / b`. */
  lemma DivUnique(a: int, b: int, q: int)
    requires b > 0 && b * q <= a < b * (q + 1)
    ensures a / b == q
  {
    DivBounds(a, b);
    var r := a / b;
    if r < q {
      MulLeftMono(b, r + 1, q);
      assert false;
    } else if r > q {
      MulLeftMono(b, q + 1, r);
      assert false;
    }
  }

  /** `formatDate`: how long ago `date` was, by elapsed milliseconds. */
  function RelativeTime(now: Instant, date: Instant): (text: string)
    ensures now - date < HourMs ==> text == "Just now"
    ensures HourMs <= now - date < 24 * HourMs ==>
      1 <= (now - date) / HourMs <= 23 && text == NatToString((now - date) / HourMs) + " hours ago"
    ensures 24 * HourMs <= now - date < 48 * HourMs ==> text == "1 day ago"
    ensures 48 * HourMs <= now - date ==>
      2 <= (now - date) / DayMs && text == NatToString((now - date) / DayMs) + " days ago"
  {
    var h := HoursSince(now, date);
    if h < 1 then "Just now"
    else if h < 24 then NatToString(h) + " hours ago"
    else if h < 48 then "1 day ago"
    else
      DaysFromHours(now - date);
      assert DayMs * 2 <= now - date;
      DivUnique(now - date, DayMs, (now - date) / DayMs);
      NatToString(h / 24) + " days ago"
  }

  // ---------------------------------------------------------------------------
  // Score badge
  // ---------------------------------------------------------------------------

  datatype BadgeColor = Green | Yellow | Red

  /** A score is shown only when it is set and not 0 (`resume.atsScore` is truthy). */
  predicate Analysed(score: Option<int>) {
    score.Some? && score.value != 0
  }

  /** The badge colour: green from 80, yellow from 60, red below 60 and for a resume without a score. */
  function BadgeColour(score: Option<int>): (c: BadgeColor)
    ensures c == Green <==> Analysed(score) && score.value >= 80
    ensures c == Yellow <==> Analysed(score) && 60 <= score.value < 80
    ensures c == Red <==> !Analysed(score) || score.value < 60
  {
    if Analysed(score) && score.value >= 80 then Green
    else if Analysed(score) && score.value >= 60 then Yellow
    else Red
  }

  /** The badge text: `N%` for an analysed resume, "Not analyzed" otherwise. */
  function BadgeText(score: Option<int>): (text: string)
    ensures Analysed(score) ==> |text| >= 2 && text[|text| - 1] == '%' && text[..|text| - 1] == IntToString(score.value)
    ensures !Analysed(score) ==> text == "Not analyzed"
  {
    if Analysed(score) then IntToString(score.value) + "%" else "Not analyzed"
  }

  /** A resume the analyser has scored always shows its score, never in red. */
  lemma AnalysedBadge(score: int)
    requires 60 <= score <= 100
    ensures BadgeColour(Some(score)) != Red
    ensures BadgeText(Some(score)) != "Not analyzed"
  {
    var text := BadgeText(Some(score));
    assert text[|text| - 1] == '%';
    assert "Not analyzed"[11] == 'd';
  }
}
