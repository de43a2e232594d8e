/** The learning statistics of the profile page, computed from the records
    the enrolled-courses route answers with. */
module ProfilePage {
  import opened Wrappers
  import opened Json
  import opened JsMath
  import opened Store
  import opened EnrolledCoursesApi

  /** The figures shown on the page. */
  datatype Stats = Stats(
    totalCourses: nat,
    completedCourses: nat,
    averageProgress: int,
    totalChapters: int,
    completedChapters: int)

  /** `reduce((acc, c) => acc + c.progress, 0)`. */
  function SumProgress(rs: seq<ProgressRecord>): int {
    if rs == [] then 0 else rs[0].progress + SumProgress(rs[1..])
  }

  function SumTotalChapters(rs: seq<ProgressRecord>): int {
    if rs == [] then 0 else rs[0].totalChapters + SumTotalChapters(rs[1..])
  }

  function SumCompletedCount(rs: seq<ProgressRecord>): int {
    if rs == [] then 0 else rs[0].completedCount + SumCompletedCount(rs[1..])
  }

  /** `filter(c => c.progress === 100).length`: no more than there are
      courses, all of them exactly when every course is at 100, and none
      exactly when no course is. */
  function CompletedCourses(rs: seq<ProgressRecord>): (n: nat)
    ensures n <= |rs|
    ensures n == |rs| <==> forall i :: 0 <= i < |rs| ==> rs[i].progress == 100
    ensures n == 0 <==> forall i :: 0 <= i < |rs| ==> rs[i].progress != 100
  {
    if rs == [] then 0
    else
      var rest := CompletedCourses(rs[1..]);
      assert forall i :: 1 <= i < |rs| ==> rs[i] == rs[1..][i - 1];
      (if rs[0].progress == 100 then 1 else 0) + rest
  }

  /** The page's statistics. */
  function ProfileStats(rs: seq<ProgressRecord>): (s: Stats)
    ensures s.totalCourses == |rs| && s.completedCourses <= s.totalCourses
    ensures |rs| == 0 ==> s == Stats(0, 0, 0, 0, 0)
    ensures |rs| > 0 ==> s.averageProgress == Round(SumProgress(rs), |rs|)
  {
    var n := |rs|;
    Stats(n, CompletedCourses(rs),
          if n > 0 then Round(SumProgress(rs), n) else 0,
          SumTotalChapters(rs), SumCompletedCount(rs))
  }

  /** The sum of percentages is at most 100 per course. */
  lemma {:induction false} SumBounds(rs: seq<ProgressRecord>)
    requires forall i :: 0 <= i < |rs| ==> 0 <= rs[i].progress <= 100
    ensures 0 <= SumProgress(rs) <= 100 * |rs|
  {
    if rs != [] {
      assert forall i :: 0 <= i < |rs| - 1 ==> rs[1..][i] == rs[i + 1];
      SumBounds(rs[1..]);
    }
  }

  /** The rounded mean of a total of at most 100 per item is a
      percentage. */
  lemma RoundedMeanInRange(total: int, n: int)
    requires n > 0 && 0 <= total <= 100 * n
    ensures 0 <= Round(total, n) <= 100
  {
    var q := Round(total, n);
    assert 2 * n * q <= 2 * total + n < 2 * n * q + 2 * n;
    if q < 0 {
      MulMono(2 * n, q, -1);
    }
    if q > 100 {
      MulMono(2 * n, 101, q);
    }
  }

  /** When every course's progress is a percentage, so is the average. */
  lemma AverageInRange(rs: seq<ProgressRecord>)
    requires forall i :: 0 <= i < |rs| ==> 0 <= rs[i].progress <= 100
    ensures 0 <= ProfileStats(rs).averageProgress <= 100
  {
    if rs != [] {
      SumBounds(rs);
      RoundedMeanInRange(SumProgress(rs), |rs|);
    }
  }

  /** The sums are additive: the statistics of two lists together are
      those of each added up. */
  lemma {:induction false} SumsAppend(a: seq<ProgressRecord>, b: seq<ProgressRecord>)
    ensures SumProgress(a + b) == SumProgress(a) + SumProgress(b)
    ensures SumTotalChapters(a + b) == SumTotalChapters(a) + SumTotalChapters(b)
    ensures SumCompletedCount(a + b) == SumCompletedCount(a) + SumCompletedCount(b)
    ensures CompletedCourses(a + b) == CompletedCourses(a) + CompletedCourses(b)
  {
    if a == [] {
      assert a + b == b;
    } else {
      assert (a + b)[1..] == a[1..] + b;
      SumsAppend(a[1..], b);
    }
  }

  /** A list of finished courses averages 100 and counts all as completed. */
  lemma {:induction false} AllFinished(rs: seq<ProgressRecord>)
    requires |rs| > 0 && forall i :: 0 <= i < |rs| ==> rs[i].progress == 100
    ensures ProfileStats(rs).completedCourses == |rs|
    ensures ProfileStats(rs).averageProgress == 100
  {
    SumAllHundred(rs);
    RoundWhole(|rs|);
  }

  lemma RoundWhole(n: int)
    requires n > 0
    ensures Round(100 * n, n) == 100
  {
    assert 2 * (100 * n) + n == 2 * n * 100 + n;
  }

  lemma {:induction false} SumAllHundred(rs: seq<ProgressRecord>)
    requires forall i :: 0 <= i < |rs| ==> rs[i].progress == 100
    ensures SumProgress(rs) == 100 * |rs|
  {
    if rs != [] {
      assert forall i :: 0 <= i < |rs| - 1 ==> rs[1..][i] == rs[i + 1];
      SumAllHundred(rs[1..]);
    }
  }

  /** A record's progress is capped at 100, and is not negative for a
      positive chapter count. */
  predicate Capped(r: ProgressRecord) {
    r.progress <= 100 && (r.totalChapters > 0 ==> r.progress >= 0)
  }

  lemma CappedAppend(a: seq<ProgressRecord>, b: seq<ProgressRecord>)
    requires forall i :: 0 <= i < |a| ==> Capped(a[i])
    requires forall i :: 0 <= i < |b| ==> Capped(b[i])
    ensures forall i :: 0 <= i < |a + b| ==> Capped((a + b)[i])
  {
  }

  /** Every record of the route is capped. */
  lemma {:induction false} JoinedProgress(es: seq<Enrolment>, courses: seq<Course>)
    ensures forall i :: 0 <= i < |LeftJoin(es, courses)| ==> Capped(LeftJoin(es, courses)[i])
  {
    if es != [] {
      JoinedProgress(es[1..], courses);
      var here := JoinedRows(es[0], courses);
      var rest := LeftJoin(es[1..], courses);
      CappedAppend(here, rest);
      assert LeftJoin(es, courses) == here + rest;
    }
  }

  /** On what the route answers, the average is a percentage whenever every
      listed course has a positive chapter count. */
  lemma ListedAverageInRange(enrolments: seq<Enrolment>, courses: seq<Course>, session: Session)
    requires GetResult(enrolments, courses, session).Listed?
    requires var rs := GetResult(enrolments, courses, session).records;
      forall i :: 0 <= i < |rs| ==> rs[i].totalChapters > 0
    ensures 0 <= ProfileStats(GetResult(enrolments, courses, session).records).averageProgress <= 100
  {
    var rs := GetResult(enrolments, courses, session).records;
    if session.email.Some? {
      JoinedProgress(EnrolmentsOfUser(enrolments, session.email.value), courses);
    }
    AverageInRange(rs);
  }
}
