/** The progress shown on each card of the enrolled-course list: the share
    of completed chapters, uncapped, and the completion label. */
module EnrolledCourseCardView {
  import opened Wrappers
  import opened Json
  import opened JsMath
  import opened EnrolledCoursesApi

  /** `course?.completedChapters ? Object.keys(...).length : 0`. */
  function Completed(course: Option<Json>): (n: nat)
    ensures !Present(GetOpt(course, "completedChapters")) ==> n == 0
    ensures GetOpt(course, "completedChapters").Some? && GetOpt(course, "completedChapters").value.Obj? ==>
      n == |GetOpt(course, "completedChapters").value.fields|
  {
    CompletedKeys(GetOpt(course, "completedChapters").GetOr(Null))
  }

  /** `course?.numberOfChapters || 1`. */
  function Total(course: Option<Json>): (t: int)
    ensures t != 0
    ensures !Present(GetOpt(course, "numberOfChapters")) ==> t == 1
  {
    TotalChapters(GetOpt(course, "numberOfChapters").GetOr(Null))
  }

  /** `calculateProgress`: `Math.round(completed / total * 100)`. */
  function Progress(course: Option<Json>): int {
    Round(100 * Completed(course), Total(course))
  }

  const CompletedLabel := "✅ Completed"
  const ContinueLabel := "Continue Course"

  /** The link text: the completion label exactly at 100. */
  function Label(progress: int): (s: string)
    ensures s == CompletedLabel <==> progress == 100
    ensures s != CompletedLabel ==> s == ContinueLabel
  {
    if progress == 100 then CompletedLabel else ContinueLabel
  }

  /** `/course/${course?.cid}`. */
  function Link(course: Option<Json>): string {
    "/course/" + TemplateStr(GetOpt(course, "cid"))
  }

  /** With no more completed keys than chapters the bar is a percentage,
      and full when every chapter is completed. */
  lemma ProgressInRange(course: Option<Json>)
    requires Total(course) > 0 && Completed(course) <= Total(course)
    ensures 0 <= Progress(course) <= 100
    ensures Completed(course) == Total(course) ==> Progress(course) == 100 && Label(Progress(course)) == CompletedLabel
  {
    PercentBounds(Completed(course), Total(course));
  }

  /** A card without a record, or without chapters, shows no progress. */
  lemma NothingCompleted(course: Option<Json>)
    requires !Present(GetOpt(course, "completedChapters"))
    ensures Progress(course) == 0 && Label(Progress(course)) == ContinueLabel
  {
  }

  /** The bar is not capped: more completed keys than chapters go past 100
      and lose the completion label. */
  lemma OverCompleted()
    ensures var c := Some(Obj(map["completedChapters" := Obj(map["1" := Bool(true), "2" := Bool(true), "3" := Bool(true)]),
                                  "numberOfChapters" := Num(2)]));
      Progress(c) == 150 && Label(Progress(c)) == ContinueLabel
  {
    var c := Some(Obj(map["completedChapters" := Obj(map["1" := Bool(true), "2" := Bool(true), "3" := Bool(true)]),
                          "numberOfChapters" := Num(2)]));
    assert |map["1" := Bool(true), "2" := Bool(true), "3" := Bool(true)]| == 3;
    assert Completed(c) == 3;
  }

  /** A joined row of the enrolment list nests its columns under the table
      names, so the card sees neither a record, a chapter count nor a cid. */
  lemma JoinedRowShowsNothing(key: string, courses: Json, enrolment: Json)
    requires key != "completedChapters" && key != "numberOfChapters" && key != "cid"
    ensures var row := Some(Obj(map["courses" := courses, key := enrolment]));
      Progress(row) == 0 && Label(Progress(row)) == ContinueLabel && Link(row) == "/course/undefined"
  {
    var row := Some(Obj(map["courses" := courses, key := enrolment]));
    assert GetOpt(row, "completedChapters").None? && GetOpt(row, "cid").None?;
  }

  /** The card as evidently intended for a joined row of the enrolment
      list: the record is read from the enrolment columns (under `key`) and
      the chapter count from the course columns. */
  function JoinedProgress(row: Option<Json>, key: string): int {
    Round(100 * Completed(GetOpt(row, key)), Total(GetOpt(row, "courses")))
  }

  /** The corrected link, to the joined course's cid. */
  function JoinedLink(row: Option<Json>): string {
    Link(GetOpt(row, "courses"))
  }

  /** Read through the table names, a joined row shows the route's capped
      percentage of its completed chapters, reaches the completion label
      when every chapter is completed, and links to its course. */
  lemma JoinedRowShowsProgress(key: string, course: map<string, Json>, enrolment: map<string, Json>,
                               done: map<string, Json>, n: int, cid: string)
    requires key != "courses"
    requires "completedChapters" in enrolment && enrolment["completedChapters"] == Obj(done)
    requires "numberOfChapters" in course && course["numberOfChapters"] == Num(n) && n > 0
    requires "cid" in course && course["cid"] == Str(cid)
    requires |done| <= n
    ensures var row := Some(Obj(map["courses" := Obj(course), key := Obj(enrolment)]));
      && JoinedProgress(row, key) == CappedPercent(|done|, n)
      && 0 <= JoinedProgress(row, key) <= 100
      && (|done| == n ==> Label(JoinedProgress(row, key)) == CompletedLabel)
      && JoinedLink(row) == "/course/" + cid
  {
    var row := Some(Obj(map["courses" := Obj(course), key := Obj(enrolment)]));
    assert GetOpt(row, key) == Some(Obj(enrolment));
    assert GetOpt(row, "courses") == Some(Obj(course));
    assert Completed(GetOpt(row, key)) == |done|;
    assert Total(GetOpt(row, "courses")) == n;
    AgreesWithRoute(|done|, n);
    PercentBounds(|done|, n);
  }

  /** Where the route's percentage and the card's can both be read, they
      agree as long as no more chapters are completed than there are. */
  lemma AgreesWithRoute(done: nat, total: int)
    requires 0 < total && done <= total
    ensures CappedPercent(done, total) == Round(100 * done, total)
  {
    PercentBounds(done, total);
    assert done * 100 == 100 * done;
  }
}
