/** `/api/enroll-course`: enrol the caller in a course once, list the
    caller's enrolments newest first, and record completed chapters. */
module EnrollCourseApi {
  import opened Wrappers
  import opened Json
  import opened Store

  /** The answer of `POST`: an error status, a new enrolment, or the one
      that already existed. */
  datatype EnrollAnswer = Failed(status: nat) | Enrolled(row: Enrolment) | AlreadyEnrolled(row: Enrolment)

  /** The caller's email when it is there and non-empty. */
  function EmailOf(session: Session): Option<string> {
    if session.SignedIn? && session.email.Some? && session.email.value != "" then session.email else None
  }

  /** The cid a request names; a value that is not a string matches no
      row. */
  function CidOf(v: Option<Json>): Option<string> {
    if v.Some? && v.value.Str? then Some(v.value.s) else None
  }

  /** `POST /api/enroll-course` on the tables, as a value: the answer, the
      new enrolment table and the next enrolment id. */
  function EnrollResult(courses: seq<Course>, enrolments: seq<Enrolment>, nextId: nat,
                        body: Option<Json>, session: Session): (seq<Enrolment>, nat, EnrollAnswer)
  {
    if body.None? || body.value == Null then (enrolments, nextId, Failed(500))
    else
      var courseId := Get(body.value, "courseId");
      if !Present(courseId) then (enrolments, nextId, Failed(400))
      else if session.SignedOut? then (enrolments, nextId, Failed(401))
      else if EmailOf(session).None? then (enrolments, nextId, Failed(400))
      else
        var cid := CidOf(courseId);
        if cid.None? || WithCid(courses, cid.value) == [] then (enrolments, nextId, Failed(404))
        else
          var email := EmailOf(session).value;
          var existing := EnrolmentsOf(enrolments, email, cid.value);
          if existing != [] then (enrolments, nextId, AlreadyEnrolled(existing[0]))
          else
            var row := Enrolment(nextId, cid.value, email, Obj(map[]));
            (enrolments + [row], nextId + 1, Enrolled(row))
  }

  /** `POST /api/enroll-course`. */
  method Post(db: Db, body: Option<Json>, session: Session) returns (answer: EnrollAnswer)
    requires db.Valid()
    modifies db
    ensures db.Valid()
    ensures (db.enrolments, db.nextEnrolmentId, answer)
         == EnrollResult(old(db.courses), old(db.enrolments), old(db.nextEnrolmentId), body, session)
    ensures db.courses == old(db.courses) && db.users == old(db.users) && db.nextUserId == old(db.nextUserId)
  {
    if body.None? || body.value == Null {
      return Failed(500);
    }
    var courseId := Get(body.value, "courseId");
    if !Present(courseId) {
      return Failed(400);
    }
    if session.SignedOut? {
      return Failed(401);
    }
    var email := EmailOf(session);
    if email.None? {
      return Failed(400);
    }
    var cid := CidOf(courseId);
    if cid.None? || WithCid(db.courses, cid.value) == [] {
      return Failed(404);
    }
    var existing := EnrolmentsOf(db.enrolments, email.value, cid.value);
    if existing != [] {
      return AlreadyEnrolled(existing[0]);
    }
    var row := db.InsertEnrolment(cid.value, email.value, Obj(map[]));
    answer := Enrolled(row);
  }

  /** The checks come in order: a missing course id before the session,
      the session before the email, the email before the course lookup. */
  lemma CheckOrder(courses: seq<Course>, enrolments: seq<Enrolment>, nextId: nat, body: Json, session: Session)
    requires body != Null
    ensures !Present(Get(body, "courseId")) ==> EnrollResult(courses, enrolments, nextId, Some(body), session).2 == Failed(400)
    ensures Present(Get(body, "courseId")) && session.SignedOut? ==>
      EnrollResult(courses, enrolments, nextId, Some(body), session).2 == Failed(401)
    ensures Present(Get(body, "courseId")) && session.SignedIn? && EmailOf(session).None? ==>
      EnrollResult(courses, enrolments, nextId, Some(body), session).2 == Failed(400)
    ensures (&& Present(Get(body, "courseId")) && EmailOf(session).Some?
             && (CidOf(Get(body, "courseId")).None? || WithCid(courses, CidOf(Get(body, "courseId")).value) == [])) ==>
      EnrollResult(courses, enrolments, nextId, Some(body), session).2 == Failed(404)
    ensures EnrollResult(courses, enrolments, nextId, Some(body), session).2.Failed? ==>
      EnrollResult(courses, enrolments, nextId, Some(body), session).0 == enrolments
  {
  }

  /** Enrol-once: an existing enrolment is returned and nothing is
      inserted; otherwise exactly one row with no completed chapters is
      added. */
  lemma EnrolOnce(courses: seq<Course>, enrolments: seq<Enrolment>, nextId: nat, body: Json, session: Session)
    requires body != Null
    ensures var (after, next, answer) := EnrollResult(courses, enrolments, nextId, Some(body), session);
      && (answer.AlreadyEnrolled? ==>
            after == enrolments && next == nextId && answer.row in enrolments
            && answer.row.userEmail == EmailOf(session).value && answer.row.cid == CidOf(Get(body, "courseId")).value)
      && (answer.Enrolled? ==>
            && after == enrolments + [answer.row] && next == nextId + 1
            && answer.row == Enrolment(nextId, CidOf(Get(body, "courseId")).value, EmailOf(session).value, Obj(map[]))
            && EnrolmentsOf(enrolments, EmailOf(session).value, CidOf(Get(body, "courseId")).value) == [])
  {
  }

  /** Repeating the same request changes nothing more and answers with the
      same enrolment; the pair then has exactly one row when it had at most
      one before. */
  lemma RepeatedEnrolment(courses: seq<Course>, enrolments: seq<Enrolment>, nextId: nat, body: Json, session: Session)
    requires body != Null
    ensures var (e1, n1, a1) := EnrollResult(courses, enrolments, nextId, Some(body), session);
      var (e2, n2, a2) := EnrollResult(courses, e1, n1, Some(body), session);
      && e2 == e1 && n2 == n1
      && (a1.Failed? ==> a2 == a1)
      && (!a1.Failed? ==> a2 == AlreadyEnrolled(a1.row))
      && (!a1.Failed? && |EnrolmentsOf(enrolments, a1.row.userEmail, a1.row.cid)| <= 1 ==>
            |EnrolmentsOf(e1, a1.row.userEmail, a1.row.cid)| == 1)
  {
    var (e1, n1, a1) := EnrollResult(courses, enrolments, nextId, Some(body), session);
    if a1.Enrolled? {
      EnrolmentsOfAppend(enrolments, a1.row, a1.row.userEmail, a1.row.cid);
      assert EnrolmentsOf(e1, a1.row.userEmail, a1.row.cid) == [a1.row];
    } else if a1.AlreadyEnrolled? {
      var existing := EnrolmentsOf(enrolments, a1.row.userEmail, a1.row.cid);
      assert existing != [];
    }
  }

  // ---------------------------------------------------------------------
  // GET

  /** One enrolment paired with each course of its cid, in table order. */
  function JoinOne(e: Enrolment, courses: seq<Course>): (r: seq<(Enrolment, Course)>)
    ensures forall p :: p in r <==> p.0 == e && p.1 in courses && p.1.cid == e.cid
    ensures forall k :: 0 <= k < |r| ==> r[k].0 == e
  {
    if courses == [] then []
    else (if courses[0].cid == e.cid then [(e, courses[0])] else []) + JoinOne(e, courses[1..])
  }

  /** The inner join of some enrolments with the courses of the same cid,
      in the order of the enrolments. */
  function Join(es: seq<Enrolment>, courses: seq<Course>): (r: seq<(Enrolment, Course)>)
    ensures forall p :: p in r <==> p.0 in es && p.1 in courses && p.1.cid == p.0.cid
  {
    if es == [] then [] else JoinOne(es[0], courses) + Join(es[1..], courses)
  }

  function Reverse<T>(s: seq<T>): (r: seq<T>)
    ensures |r| == |s|
    ensures forall i :: 0 <= i < |s| ==> r[i] == s[|s| - 1 - i]
  {
    if s == [] then [] else Reverse(s[1..]) + [s[0]]
  }

  datatype ListAnswer = ListFailed(status: nat) | Listed(rows: seq<(Enrolment, Course)>)

  /** `GET /api/enroll-course`: the caller's enrolments joined with their
      courses, newest enrolment first.  Without an email no row matches. */
  function ListResult(enrolments: seq<Enrolment>, courses: seq<Course>, session: Session): (r: ListAnswer)
    ensures session.SignedOut? <==> r == ListFailed(401)
    ensures r.Listed? && session.email.Some? ==> forall p :: p in r.rows <==>
      p.0 in enrolments && p.0.userEmail == session.email.value && p.1 in courses && p.1.cid == p.0.cid
    ensures r.Listed? && session.email.None? ==> r.rows == []
  {
    if session.SignedOut? then ListFailed(401)
    else if session.email.None? then Listed([])
    else
      var mine := EnrolmentsOfUser(enrolments, session.email.value);
      assert forall e :: e in Reverse(mine) <==> e in mine by {
        forall e | e in mine ensures e in Reverse(mine) {
          var i :| 0 <= i < |mine| && mine[i] == e;
          assert Reverse(mine)[|mine| - 1 - i] == e;
        }
      }
      Listed(Join(Reverse(mine), courses))
  }

  predicate NewestFirst(es: seq<Enrolment>) {
    forall i, j :: 0 <= i < j < |es| ==> es[i].id >= es[j].id
  }

  predicate PairsNewestFirst(r: seq<(Enrolment, Course)>) {
    forall i, j :: 0 <= i < j < |r| ==> r[i].0.id >= r[j].0.id
  }

  /** With increasing ids in the table, the listing is newest first. */
  lemma ListNewestFirst(enrolments: seq<Enrolment>, courses: seq<Course>, email: string)
    requires IncreasingEnrolmentIds(enrolments)
    ensures PairsNewestFirst(ListResult(enrolments, courses, SignedIn(Some(email))).rows)
  {
    var mine := EnrolmentsOfUser(enrolments, email);
    UserRowsIncreasing(enrolments, email);
    ReverseNewestFirst(mine);
    JoinOrdered(Reverse(mine), courses);
  }

  lemma ReverseNewestFirst(es: seq<Enrolment>)
    requires IncreasingEnrolmentIds(es)
    ensures NewestFirst(Reverse(es))
  {
    var rev := Reverse(es);
    forall i, j | 0 <= i < j < |rev| ensures rev[i].id >= rev[j].id {
      assert rev[i] == es[|es| - 1 - i] && rev[j] == es[|es| - 1 - j];
    }
  }

  lemma {:induction false} UserRowsAbove(rows: seq<Enrolment>, email: string, b: int)
    requires forall k :: 0 <= k < |rows| ==> rows[k].id > b
    ensures var r := EnrolmentsOfUser(rows, email); forall k :: 0 <= k < |r| ==> r[k].id > b
  {
    if rows != [] {
      UserRowsAbove(rows[1..], email, b);
      var here := if rows[0].userEmail == email then [rows[0]] else [];
      var tail := EnrolmentsOfUser(rows[1..], email);
      var r := EnrolmentsOfUser(rows, email);
      assert r == here + tail;
      forall k | 0 <= k < |r| ensures r[k].id > b {
        if k >= |here| {
          assert r[k] == tail[k - |here|];
        }
      }
    }
  }

  lemma {:induction false} UserRowsIncreasing(rows: seq<Enrolment>, email: string)
    requires IncreasingEnrolmentIds(rows)
    ensures IncreasingEnrolmentIds(EnrolmentsOfUser(rows, email))
  {
    if rows != [] {
      assert IncreasingEnrolmentIds(rows[1..]) by {
        forall i, j | 0 <= i < j < |rows[1..]| ensures rows[1..][i].id < rows[1..][j].id {
          assert rows[1..][i] == rows[i + 1] && rows[1..][j] == rows[j + 1];
        }
      }
      UserRowsIncreasing(rows[1..], email);
      assert forall k :: 0 <= k < |rows[1..]| ==> rows[1..][k].id > rows[0].id by {
        forall k | 0 <= k < |rows[1..]| ensures rows[1..][k].id > rows[0].id {
          assert rows[1..][k] == rows[k + 1];
        }
      }
      UserRowsAbove(rows[1..], email, rows[0].id);
      var tail := EnrolmentsOfUser(rows[1..], email);
      var r := EnrolmentsOfUser(rows, email);
      if rows[0].userEmail == email {
        assert r == [rows[0]] + tail;
        forall i, j | 0 <= i < j < |r| ensures r[i].id < r[j].id {
          assert r[j] == tail[j - 1];
          if i > 0 {
            assert r[i] == tail[i - 1];
          }
        }
      } else {
        assert r == tail;
      }
    }
  }

  lemma {:induction false} JoinAtMost(es: seq<Enrolment>, courses: seq<Course>, b: int)
    requires forall k :: 0 <= k < |es| ==> es[k].id <= b
    ensures var r := Join(es, courses); forall k :: 0 <= k < |r| ==> r[k].0.id <= b
  {
    if es != [] {
      assert es[1..][0..] == es[1..];
      JoinAtMost(es[1..], courses, b);
      var here := JoinOne(es[0], courses);
      var rest := Join(es[1..], courses);
      var r := Join(es, courses);
      assert r == here + rest;
      forall k | 0 <= k < |r| ensures r[k].0.id <= b {
        if k >= |here| {
          assert r[k] == rest[k - |here|];
        }
      }
    }
  }

  /** Joining keeps a non-increasing id order. */
  lemma {:induction false} JoinOrdered(es: seq<Enrolment>, courses: seq<Course>)
    requires NewestFirst(es)
    ensures PairsNewestFirst(Join(es, courses))
  {
    if es != [] {
      NewestFirstTail(es);
      JoinOrdered(es[1..], courses);
      JoinAtMost(es[1..], courses, es[0].id);
      assert Join(es, courses) == JoinOne(es[0], courses) + Join(es[1..], courses);
      PairsAppend(JoinOne(es[0], courses), Join(es[1..], courses), es[0].id);
    }
  }

  /** The enrolments after the newest are newest first and no newer. */
  lemma NewestFirstTail(es: seq<Enrolment>)
    requires es != [] && NewestFirst(es)
    ensures NewestFirst(es[1..])
    ensures forall k :: 0 <= k < |es[1..]| ==> es[1..][k].id <= es[0].id
  {
    forall i, j | 0 <= i < j < |es[1..]| ensures es[1..][i].id >= es[1..][j].id {
      assert es[1..][i] == es[i + 1] && es[1..][j] == es[j + 1];
    }
    forall k | 0 <= k < |es[1..]| ensures es[1..][k].id <= es[0].id {
      assert es[1..][k] == es[k + 1];
    }
  }

  /** Pairs of one enrolment `b` followed by ordered pairs no newer. */
  lemma PairsAppend(here: seq<(Enrolment, Course)>, rest: seq<(Enrolment, Course)>, b: int)
    requires forall k :: 0 <= k < |here| ==> here[k].0.id == b
    requires forall k :: 0 <= k < |rest| ==> rest[k].0.id <= b
    requires PairsNewestFirst(rest)
    ensures PairsNewestFirst(here + rest)
  {
    var r := here + rest;
    forall i, j | 0 <= i < j < |r| ensures r[i].0.id >= r[j].0.id {
      if j >= |here| {
        assert r[j] == rest[j - |here|];
        if i >= |here| {
          assert r[i] == rest[i - |here|];
        }
      } else {
        assert r[i] == here[i] && r[j] == here[j];
      }
    }
  }

  // ---------------------------------------------------------------------
  // PATCH

  datatype PatchAnswer = PatchFailed(status: nat) | Patched(rows: seq<Enrolment>)

  /** `PATCH /api/enroll-course`: set `completedChapters` on the caller's
      rows for the course.  No value to set makes the query builder throw. */
  function PatchResult(enrolments: seq<Enrolment>, body: Option<Json>, session: Session): (r: (seq<Enrolment>, PatchAnswer))
    ensures r.1.PatchFailed? ==> r.0 == enrolments
  {
    if body.None? || body.value == Null then (enrolments, PatchFailed(500))
    else if session.SignedOut? then (enrolments, PatchFailed(401))
    else
      var completed := Get(body.value, "completedChapters");
      if completed.None? then (enrolments, PatchFailed(500))
      else
        var cid := CidOf(Get(body.value, "courseId"));
        if cid.None? || session.email.None? then (enrolments, Patched([]))
        else
          var after := SetCompleted(enrolments, cid.value, session.email.value, completed.value);
          (after, Patched(EnrolmentsOf(after, session.email.value, cid.value)))
  }

  /** Only `completedChapters` of the caller's rows for the course change;
      the request succeeds even when no row matches. */
  lemma PatchFrame(enrolments: seq<Enrolment>, body: Json, email: string)
    requires body != Null && Get(body, "completedChapters").Some?
    ensures var (after, answer) := PatchResult(enrolments, Some(body), SignedIn(Some(email)));
      && answer.Patched?
      && |after| == |enrolments|
      && forall i :: 0 <= i < |enrolments| ==>
           && after[i].id == enrolments[i].id && after[i].cid == enrolments[i].cid
           && after[i].userEmail == enrolments[i].userEmail
           && after[i].completedChapters ==
                if Some(enrolments[i].cid) == CidOf(Get(body, "courseId")) && enrolments[i].userEmail == email
                then Get(body, "completedChapters").value else enrolments[i].completedChapters
  {
  }

  /** `PATCH /api/enroll-course`. */
  method Patch(db: Db, body: Option<Json>, session: Session) returns (answer: PatchAnswer)
    requires db.Valid()
    modifies db
    ensures db.Valid()
    ensures (db.enrolments, answer) == PatchResult(old(db.enrolments), body, session)
    ensures db.courses == old(db.courses) && db.users == old(db.users)
    ensures db.nextEnrolmentId == old(db.nextEnrolmentId) && db.nextUserId == old(db.nextUserId)
  {
    if body.None? || body.value == Null {
      return PatchFailed(500);
    }
    if session.SignedOut? {
      return PatchFailed(401);
    }
    var completed := Get(body.value, "completedChapters");
    if completed.None? {
      return PatchFailed(500);
    }
    var cid := CidOf(Get(body.value, "courseId"));
    if cid.None? || session.email.None? {
      return Patched([]);
    }
    var rows := db.UpdateEnrolments(cid.value, session.email.value, completed.value);
    answer := Patched(rows);
  }
}
