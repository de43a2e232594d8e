/** `GET /api/user/enrolled-courses`: the caller's enrolments, each left
    joined with its course and decorated with progress figures. */
module EnrolledCoursesApi {
  import opened Wrappers
  import opened Json
  import opened JsMath
  import opened Store

  /** The course columns the query selects besides `cid` and
      `completedChapters`. */
  const DetailColumns: seq<string> :=
    ["name", "description", "level", "category", "numberOfChapters", "includeVideo", "bannerImageURL"]

  /** A column of the joined course; every column is `null` when no course
      matched. */
  function Column(c: Option<Course>, k: string): Json {
    if c.Some? && k in c.value.cols then c.value.cols[k] else Null
  }

  function Details(c: Option<Course>): (m: map<string, Json>)
    ensures forall k :: k in m <==> k in DetailColumns
    ensures forall k :: k in m ==> m[k] == Column(c, k)
  {
    map k | k in DetailColumns :: Column(c, k)
  }

  /** One element of the answer. */
  datatype ProgressRecord = ProgressRecord(
    cid: string,
    details: map<string, Json>,
    completedChapters: Json,
    progress: int,
    estimatedTime: string,
    nextChapter: Option<string>,
    completedCount: nat,
    totalChapters: int)

  /** `Object.keys(completedChapters).length` when truthy, else 0. */
  function CompletedKeys(completed: Json): (r: nat)
    ensures !Truthy(completed) ==> r == 0
    ensures completed.Obj? ==> r == |completed.fields|
  {
    if Truthy(completed) then KeyCount(completed) else 0
  }

  /** `numberOfChapters || 1`; the column is an integer. */
  function TotalChapters(v: Json): (r: int)
    ensures r != 0
    ensures v.Num? && v.n != 0 ==> r == v.n
    ensures !(v.Num? && v.n != 0) ==> r == 1
  {
    if v.Num? && v.n != 0 then v.n else 1
  }

  /** `Math.min(Math.round(100 * done / total), 100)`: never above 100,
      and a percentage that reaches 100 from 199.5 per mille for a positive
      total. */
  function CappedPercent(done: nat, total: int): (p: int)
    requires total != 0
    ensures p <= 100
    ensures total > 0 ==> 0 <= p && (p == 100 <==> 200 * done >= 199 * total)
  {
    var q := Round(done * 100, total);
    if total > 0 then
      ReachesHundred(done, total);
      if q < 100 then q else 100
    else if q < 100 then q else 100
  }

  /** The figures the route adds to one joined row. */
  function Record(e: Enrolment, c: Option<Course>): (r: ProgressRecord)
    ensures r.cid == e.cid && r.completedChapters == e.completedChapters
    ensures r.progress <= 100 && (r.totalChapters > 0 ==> r.progress >= 0)
  {
    var done := CompletedKeys(e.completedChapters);
    var total := TotalChapters(Column(c, "numberOfChapters"));
    var progress := CappedPercent(done, total);
    ProgressRecord(
      e.cid, Details(c), e.completedChapters,
      progress,
      IntStr(total * 15) + " min",
      if progress < 100 then Some("Chapter " + NatStr(done + 1)) else None,
      done, total)
  }

  /** The joined rows of one enrolment: one per course of its cid, or a
      single row of nulls when there is none. */
  function RecordsOf(e: Enrolment, matches: seq<Course>): (r: seq<ProgressRecord>)
    ensures |r| == |matches|
    ensures forall i :: 0 <= i < |matches| ==> r[i] == Record(e, Some(matches[i]))
  {
    if matches == [] then [] else [Record(e, Some(matches[0]))] + RecordsOf(e, matches[1..])
  }

  /** The joined rows of one enrolment. */
  function JoinedRows(e: Enrolment, courses: seq<Course>): seq<ProgressRecord> {
    var matches := WithCid(courses, e.cid);
    if matches == [] then [Record(e, None)] else RecordsOf(e, matches)
  }

  function LeftJoin(es: seq<Enrolment>, courses: seq<Course>): seq<ProgressRecord> {
    if es == [] then [] else JoinedRows(es[0], courses) + LeftJoin(es[1..], courses)
  }

  /** An enrolment whose cid matches at most one course gives one row,
      carrying its cid and completed chapters. */
  lemma OneRow(e: Enrolment, courses: seq<Course>)
    requires |WithCid(courses, e.cid)| <= 1
    ensures |JoinedRows(e, courses)| == 1
    ensures JoinedRows(e, courses)[0].cid == e.cid
    ensures JoinedRows(e, courses)[0].completedChapters == e.completedChapters
  {
  }

  datatype Answer = Failed(status: nat) | Listed(records: seq<ProgressRecord>)

  /** The route: 401 when signed out; otherwise the records of the
      caller's enrolments.  Without an email no enrolment matches. */
  function GetResult(enrolments: seq<Enrolment>, courses: seq<Course>, session: Session): (r: Answer)
    ensures session.SignedOut? <==> r.Failed?
    ensures r.Failed? ==> r.status == 401
    ensures session.SignedIn? && session.email.None? ==> r == Listed([])
  {
    if session.SignedOut? then Failed(401)
    else if session.email.None? then Listed([])
    else Listed(LeftJoin(EnrolmentsOfUser(enrolments, session.email.value), courses))
  }

  /** The completed count is the number of keys, whatever their values. */
  lemma CompletedCountIgnoresValues(e: Enrolment, c: Option<Course>, k: string, v: Json)
    requires e.completedChapters.Obj? && k in e.completedChapters.fields
    ensures Record(e.(completedChapters := Obj(e.completedChapters.fields[k := v])), c).completedCount
         == Record(e, c).completedCount
  {
    assert e.completedChapters.fields[k := v].Keys == e.completedChapters.fields.Keys;
  }

  /** `Math.round(100 * done / total) >= 100` exactly when
      200 * done >= 199 * total, for a positive total. */
  lemma ReachesHundred(done: nat, total: int)
    requires total > 0
    ensures Round(done * 100, total) >= 100 <==> 200 * done >= 199 * total
    ensures Round(done * 100, total) >= 0
  {
    var q := Round(done * 100, total);
    assert 2 * total * q <= 200 * done + total < 2 * total * q + 2 * total;
    if q >= 100 {
      MulMono(2 * total, 100, q);
    } else {
      MulMono(2 * total, q, 99);
    }
    if q < 0 {
      MulMono(2 * total, q, -1);
    }
  }

  /** For a positive chapter count the reported progress is a percentage,
      a next chapter is named exactly when it is below 100, and the next
      chapter follows the completed ones. */
  lemma RecordProgress(e: Enrolment, c: Option<Course>)
    requires Record(e, c).totalChapters > 0
    ensures var r := Record(e, c);
      && 0 <= r.progress <= 100
      && (r.nextChapter.None? <==> r.progress == 100)
      && (r.progress == 100 <==> 200 * r.completedCount >= 199 * r.totalChapters)
      && (r.nextChapter.Some? ==> r.nextChapter.value == "Chapter " + NatStr(r.completedCount + 1))
      && r.estimatedTime == NatStr(r.totalChapters * 15) + " min"
  {
    var r := Record(e, c);
    ReachesHundred(r.completedCount, r.totalChapters);
  }

  /** A negative chapter count (the column only says integer) gives a
      negative progress. */
  lemma NegativeTotal()
    ensures Record(Enrolment(0, "c", "u", Obj(map["1" := Bool(true)])),
                   Some(Course(0, "c", map["numberOfChapters" := Num(-1)]))).progress == -100
  {
  }

  /** A missing course counts as one chapter. */
  lemma MissingCourse(e: Enrolment)
    ensures Record(e, None).totalChapters == 1
    ensures forall k :: k in Record(e, None).details ==> Record(e, None).details[k] == Null
  {
  }

  /** Every enrolment appears: once when its cid matches at most one
      course, in the order of the table, carrying its own cid and
      completed chapters. */
  lemma {:induction false} OneRecordPerEnrolment(es: seq<Enrolment>, courses: seq<Course>)
    requires forall e :: e in es ==> |WithCid(courses, e.cid)| <= 1
    ensures |LeftJoin(es, courses)| == |es|
    ensures forall i :: 0 <= i < |es| ==>
      LeftJoin(es, courses)[i].cid == es[i].cid && LeftJoin(es, courses)[i].completedChapters == es[i].completedChapters
  {
    if es != [] {
      OneRecordPerEnrolment(es[1..], courses);
      OneRow(es[0], courses);
      var here := JoinedRows(es[0], courses);
      var rest := LeftJoin(es[1..], courses);
      var r := LeftJoin(es, courses);
      assert r == here + rest;
      forall i | 0 <= i < |es| ensures r[i].cid == es[i].cid && r[i].completedChapters == es[i].completedChapters {
        if i > 0 {
          assert r[i] == rest[i - 1] && es[i] == es[1..][i - 1];
        }
      }
    }
  }

  /** An enrolment whose cid names several courses is listed once per
      course, each time with its own figures. */
  lemma SeveralMatches(e: Enrolment, courses: seq<Course>)
    requires |WithCid(courses, e.cid)| >= 2
    ensures var r := LeftJoin([e], courses);
      && |r| == |WithCid(courses, e.cid)|
      && forall i :: 0 <= i < |r| ==> r[i] == Record(e, Some(WithCid(courses, e.cid)[i]))
  {
    assert LeftJoin([e], courses) == RecordsOf(e, WithCid(courses, e.cid)) + LeftJoin([], courses);
  }
}
