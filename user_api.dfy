/** `POST /api/user`: find the user with the given email or create one. */
module UserApi {
  import opened Wrappers
  import opened Json
  import opened Store

  datatype UserAnswer = Failed(status: nat) | Found(user: User) | Created(user: User)

  /** `name || null`. */
  function NameOf(v: Option<Json>): (r: Json)
    ensures Present(v) ==> r == v.value
    ensures !Present(v) ==> r == Null
  {
    if Present(v) then v.value else Null
  }

  /** The route on the users table, as a value: the answer, the new table
      and the next user id. The `name` column is `NOT NULL`, so inserting
      `name || null` for a falsy name throws, and the route answers 500. */
  function UserResult(users: seq<User>, nextId: nat, body: Option<Json>): (seq<User>, nat, UserAnswer) {
    if body.None? || body.value == Null then (users, nextId, Failed(500))
    else
      var email := Get(body.value, "email");
      if !Present(email) then (users, nextId, Failed(400))
      else
        var existing := UsersWithEmail(users, email.value);
        if existing != [] then (users, nextId, Found(existing[0]))
        else
          var name := NameOf(Get(body.value, "name"));
          if name == Null then (users, nextId, Failed(500))
          else
            var row := User(nextId, name, email.value);
            (users + [row], nextId + 1, Created(row))
  }

  /** `POST /api/user`. */
  method Post(db: Db, body: Option<Json>) returns (answer: UserAnswer)
    requires db.Valid()
    modifies db
    ensures db.Valid()
    ensures (db.users, db.nextUserId, answer) == UserResult(old(db.users), old(db.nextUserId), body)
    ensures db.courses == old(db.courses) && db.enrolments == old(db.enrolments)
    ensures db.nextEnrolmentId == old(db.nextEnrolmentId)
  {
    if body.None? || body.value == Null {
      return Failed(500);
    }
    var email := Get(body.value, "email");
    if !Present(email) {
      return Failed(400);
    }
    var existing := UsersWithEmail(db.users, email.value);
    if existing != [] {
      return Found(existing[0]);
    }
    var name := NameOf(Get(body.value, "name"));
    if name == Null {
      return Failed(500);
    }
    var row := db.InsertUser(name, email.value);
    answer := Created(row);
  }

  /** A falsy email is refused and nothing changes; a known email returns
      the first user with it and nothing changes; an unknown one with a
      truthy name adds exactly one user with that email and name, and an
      unknown one with a falsy name fails with 500 and adds nothing. */
  lemma UserResultCases(users: seq<User>, nextId: nat, body: Json)
    requires body != Null
    ensures var (after, next, answer) := UserResult(users, nextId, Some(body));
      && (!Present(Get(body, "email")) <==> answer == Failed(400))
      && (answer == Failed(500) <==>
            Present(Get(body, "email")) && UsersWithEmail(users, Get(body, "email").value) == []
            && !Present(Get(body, "name")))
      && (answer.Failed? || answer.Found? ==> after == users && next == nextId)
      && (answer.Found? ==> answer.user in users && answer.user.email == Get(body, "email").value)
      && (answer.Created? ==>
            && after == users + [answer.user] && next == nextId + 1
            && Present(Get(body, "name"))
            && answer.user == User(nextId, Get(body, "name").value, Get(body, "email").value)
            && UsersWithEmail(users, Get(body, "email").value) == [])
  {
  }

  /** Calling twice with the same body creates at most one user: the
      second call finds the first call's user and changes nothing, and an
      email with at most one user before has exactly one after. */
  lemma Idempotent(users: seq<User>, nextId: nat, body: Json)
    requires body != Null
    ensures var (u1, n1, a1) := UserResult(users, nextId, Some(body));
      var (u2, n2, a2) := UserResult(u1, n1, Some(body));
      && u2 == u1 && n2 == n1
      && (a1.Failed? ==> a2 == a1)
      && (!a1.Failed? ==> a2 == Found(a1.user))
      && (!a1.Failed? && |UsersWithEmail(users, a1.user.email)| <= 1 ==> |UsersWithEmail(u1, a1.user.email)| == 1)
  {
    var (u1, n1, a1) := UserResult(users, nextId, Some(body));
    if a1.Created? {
      UsersWithEmailAppend(users, a1.user, a1.user.email);
      assert UsersWithEmail(u1, a1.user.email) == [a1.user];
    } else if a1.Found? {
      assert UsersWithEmail(users, a1.user.email) != [];
    }
  }
}
