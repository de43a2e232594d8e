/** The three tables the routes read and write: courses, enrolments and
    users.  A course row keeps its columns other than `id` and `cid` in a
    map, because every write the routes make is a partial update that sets
    some columns and must leave the others alone. */
module Store {
  import opened Wrappers
  import opened Json

  datatype Course = Course(id: nat, cid: string, cols: map<string, Json>)

  datatype Enrolment = Enrolment(id: nat, cid: string, userEmail: string, completedChapters: Json)

  datatype User = User(id: nat, name: Json, email: Json)

  /** The caller of a request: signed out, or signed in with an optional
      primary email address. */
  datatype Session = SignedOut | SignedIn(email: Option<string>)

  /** `UPDATE courses SET <updates> WHERE cid = <cid>` on one row. */
  function SetColumns(row: Course, cid: string, updates: map<string, Json>): (r: Course)
    ensures r.id == row.id && r.cid == row.cid
    ensures row.cid != cid ==> r == row
    ensures row.cid == cid ==> r.cols.Keys == row.cols.Keys + updates.Keys
    ensures row.cid == cid ==> forall k :: k in updates ==> r.cols[k] == updates[k]
    ensures row.cid == cid ==> forall k :: k in row.cols && k !in updates ==> r.cols[k] == row.cols[k]
  {
    if row.cid == cid then row.(cols := row.cols + updates) else row
  }

  /** `UPDATE courses SET <updates> WHERE cid = <cid>` on the table. */
  function UpdateWhereCid(rows: seq<Course>, cid: string, updates: map<string, Json>): (r: seq<Course>)
    ensures |r| == |rows|
    ensures forall i :: 0 <= i < |rows| ==> r[i] == SetColumns(rows[i], cid, updates)
  {
    seq(|rows|, i requires 0 <= i < |rows| => SetColumns(rows[i], cid, updates))
  }

  /** The rows that `... RETURNING` reports: those whose cid matched. */
  function WithCid(rows: seq<Course>, cid: string): (r: seq<Course>)
    ensures |r| <= |rows|
    ensures forall c :: c in r <==> c in rows && c.cid == cid
  {
    if rows == [] then []
    else (if rows[0].cid == cid then [rows[0]] else []) + WithCid(rows[1..], cid)
  }

  /** Setting the same columns twice is the same as once. */
  lemma UpdateIdempotent(rows: seq<Course>, cid: string, updates: map<string, Json>)
    ensures UpdateWhereCid(UpdateWhereCid(rows, cid, updates), cid, updates) == UpdateWhereCid(rows, cid, updates)
  {
    var once := UpdateWhereCid(rows, cid, updates);
    forall i | 0 <= i < |rows|
      ensures SetColumns(once[i], cid, updates) == once[i]
    {
      if rows[i].cid == cid {
        assert once[i].cols + updates == once[i].cols;
      }
    }
  }

  /** Updates of disjoint column sets commute: the layout route's and the
      content route's writes do not overwrite each other. */
  lemma DisjointUpdatesCommute(rows: seq<Course>, cid: string, a: map<string, Json>, b: map<string, Json>)
    requires a.Keys !! b.Keys
    ensures UpdateWhereCid(UpdateWhereCid(rows, cid, a), cid, b)
         == UpdateWhereCid(UpdateWhereCid(rows, cid, b), cid, a)
  {
    var ab := UpdateWhereCid(UpdateWhereCid(rows, cid, a), cid, b);
    var ba := UpdateWhereCid(UpdateWhereCid(rows, cid, b), cid, a);
    forall i | 0 <= i < |rows|
      ensures ab[i] == ba[i]
    {
      SetColumnsCommute(rows[i], cid, a, b);
    }
  }

  lemma SetColumnsCommute(row: Course, cid: string, a: map<string, Json>, b: map<string, Json>)
    requires a.Keys !! b.Keys
    ensures SetColumns(SetColumns(row, cid, a), cid, b) == SetColumns(SetColumns(row, cid, b), cid, a)
  {
    if row.cid == cid {
      var ab := row.cols + a + b;
      var ba := row.cols + b + a;
      assert ab.Keys == ba.Keys;
      assert forall k :: k in ab ==> ab[k] == ba[k];
      assert ab == ba;
    }
  }

  predicate IncreasingEnrolmentIds(rows: seq<Enrolment>) {
    forall i, j :: 0 <= i < j < |rows| ==> rows[i].id < rows[j].id
  }

  predicate IncreasingUserIds(rows: seq<User>) {
    forall i, j :: 0 <= i < j < |rows| ==> rows[i].id < rows[j].id
  }

  /** The rows of an enrolment table for one (user, course) pair. */
  function EnrolmentsOf(rows: seq<Enrolment>, email: string, cid: string): (r: seq<Enrolment>)
    ensures |r| <= |rows|
    ensures forall e :: e in r <==> e in rows && e.userEmail == email && e.cid == cid
  {
    if rows == [] then []
    else
      var here := if rows[0].userEmail == email && rows[0].cid == cid then [rows[0]] else [];
      here + EnrolmentsOf(rows[1..], email, cid)
  }

  /** The enrolments of one user, in table order. */
  function EnrolmentsOfUser(rows: seq<Enrolment>, email: string): (r: seq<Enrolment>)
    ensures |r| <= |rows|
    ensures forall e :: e in r <==> e in rows && e.userEmail == email
  {
    if rows == [] then []
    else (if rows[0].userEmail == email then [rows[0]] else []) + EnrolmentsOfUser(rows[1..], email)
  }

  /** Selecting keeps table order: the enrolments of a user in two tables
      placed one after the other are those of the first, then those of the
      second. */
  lemma {:induction false} EnrolmentsOfUserConcat(a: seq<Enrolment>, b: seq<Enrolment>, email: string)
    ensures EnrolmentsOfUser(a + b, email) == EnrolmentsOfUser(a, email) + EnrolmentsOfUser(b, email)
  {
    if a == [] {
      assert a + b == b;
    } else {
      assert (a + b)[0] == a[0];
      assert (a + b)[1..] == a[1..] + b;
      EnrolmentsOfUserConcat(a[1..], b, email);
    }
  }

  /** Appending a row adds it to the matching rows exactly when it matches. */
  lemma {:induction false} EnrolmentsOfAppend(rows: seq<Enrolment>, e: Enrolment, email: string, cid: string)
    ensures EnrolmentsOf(rows + [e], email, cid)
         == EnrolmentsOf(rows, email, cid) + (if e.userEmail == email && e.cid == cid then [e] else [])
  {
    if rows == [] {
      assert [] + [e] == [e];
    } else {
      assert (rows + [e])[1..] == rows[1..] + [e];
      EnrolmentsOfAppend(rows[1..], e, email, cid);
    }
  }

  /** The users whose email is `email`. */
  function UsersWithEmail(rows: seq<User>, email: Json): (r: seq<User>)
    ensures |r| <= |rows|
    ensures forall u :: u in r <==> u in rows && u.email == email
  {
    if rows == [] then []
    else (if rows[0].email == email then [rows[0]] else []) + UsersWithEmail(rows[1..], email)
  }

  lemma {:induction false} UsersWithEmailAppend(rows: seq<User>, u: User, email: Json)
    ensures UsersWithEmail(rows + [u], email) == UsersWithEmail(rows, email) + (if u.email == email then [u] else [])
  {
    if rows == [] {
      assert [] + [u] == [u];
    } else {
      var h := if rows[0].email == email then [rows[0]] else [];
      var t := if u.email == email then [u] else [];
      assert (rows + [u])[0] == rows[0] && (rows + [u])[1..] == rows[1..] + [u];
      UsersWithEmailAppend(rows[1..], u, email);
      var x := UsersWithEmail(rows[1..], email);
      assert UsersWithEmail(rows + [u], email) == h + (x + t);
      assert h + (x + t) == (h + x) + t;
    }
  }

  /** The database.  Identity columns hand out increasing ids, so the
      table order is the id order. */
  class Db {
    var courses: seq<Course>
    var enrolments: seq<Enrolment>
    var nextEnrolmentId: nat
    var users: seq<User>
    var nextUserId: nat

    ghost predicate Valid()
      reads this
    {
      IncreasingEnrolmentIds(enrolments)
      && (forall e :: e in enrolments ==> e.id < nextEnrolmentId)
      && IncreasingUserIds(users)
      && (forall u :: u in users ==> u.id < nextUserId)
    }

    constructor (courses: seq<Course>)
      ensures Valid()
      ensures this.courses == courses && enrolments == [] && users == []
    {
      this.courses := courses;
      enrolments := [];
      nextEnrolmentId := 1;
      users := [];
      nextUserId := 1;
    }

    /** `db.update(coursesTable).set(updates).where(eq(cid, cid)).returning()`. */
    method UpdateCourses(cid: string, updates: map<string, Json>) returns (updated: seq<Course>)
      modifies this
      ensures courses == UpdateWhereCid(old(courses), cid, updates)
      ensures updated == WithCid(courses, cid)
      ensures enrolments == old(enrolments) && nextEnrolmentId == old(nextEnrolmentId)
      ensures users == old(users) && nextUserId == old(nextUserId)
    {
      courses := UpdateWhereCid(courses, cid, updates);
      updated := WithCid(courses, cid);
    }

    /** `db.insert(enrollCourseTable).values(...).returning()`. */
    method InsertEnrolment(cid: string, email: string, completed: Json) returns (row: Enrolment)
      requires Valid()
      modifies this
      ensures Valid()
      ensures row == Enrolment(old(nextEnrolmentId), cid, email, completed)
      ensures enrolments == old(enrolments) + [row]
      ensures nextEnrolmentId == old(nextEnrolmentId) + 1
      ensures courses == old(courses) && users == old(users) && nextUserId == old(nextUserId)
    {
      row := Enrolment(nextEnrolmentId, cid, email, completed);
      enrolments := enrolments + [row];
      nextEnrolmentId := nextEnrolmentId + 1;
    }

    /** `db.update(enrollCourseTable).set({completedChapters}).where(cid and
        email).returning()`. */
    method UpdateEnrolments(cid: string, email: string, completed: Json) returns (updated: seq<Enrolment>)
      requires Valid()
      modifies this
      ensures Valid()
      ensures enrolments == SetCompleted(old(enrolments), cid, email, completed)
      ensures updated == EnrolmentsOf(enrolments, email, cid)
      ensures nextEnrolmentId == old(nextEnrolmentId)
      ensures courses == old(courses) && users == old(users) && nextUserId == old(nextUserId)
    {
      enrolments := SetCompleted(enrolments, cid, email, completed);
      updated := EnrolmentsOf(enrolments, email, cid);
    }

    /** `db.insert(usersTable).values({name, email}).returning()`. */
    method InsertUser(name: Json, email: Json) returns (row: User)
      requires Valid()
      modifies this
      ensures Valid()
      ensures row == User(old(nextUserId), name, email)
      ensures users == old(users) + [row]
      ensures nextUserId == old(nextUserId) + 1
      ensures courses == old(courses) && enrolments == old(enrolments)
      ensures nextEnrolmentId == old(nextEnrolmentId)
    {
      row := User(nextUserId, name, email);
      users := users + [row];
      nextUserId := nextUserId + 1;
    }
  }

  /** Replacing `completedChapters` on the rows of one (course, user) pair. */
  function SetCompleted(rows: seq<Enrolment>, cid: string, email: string, completed: Json): (r: seq<Enrolment>)
    ensures |r| == |rows|
    ensures forall i :: 0 <= i < |rows| ==>
      r[i].id == rows[i].id && r[i].cid == rows[i].cid && r[i].userEmail == rows[i].userEmail
    ensures forall i :: 0 <= i < |rows| ==>
      r[i].completedChapters == if rows[i].cid == cid && rows[i].userEmail == email then completed
                                else rows[i].completedChapters
  {
    seq(|rows|, i requires 0 <= i < |rows| =>
      if rows[i].cid == cid && rows[i].userEmail == email then rows[i].(completedChapters := completed)
      else rows[i])
  }
}
