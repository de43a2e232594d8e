/** The repair script that only fills in missing links: every chapter with
    a falsy `videoUrl` gets the watch URL of the first search result for
    its name.

    As in the other script, a property set on a string or number chapter
    is silently ignored (and still counts as an update), one set on an
    array is lost when the layout is serialised, and reading a property of
    a `null` chapter ends the script. */
module CheckVideosFixed {
  import opened Wrappers
  import opened Json
  import opened YouTubeId
  import opened Store
  import opened VideoSearch

  /** The query: `chapterName`, or the course name when that is falsy. */
  function Query(ch: Json, courseName: Json): (q: string)
    ensures Present(Get(ch, "chapterName")) ==> q == JsString(Get(ch, "chapterName").value)
    ensures !Present(Get(ch, "chapterName")) ==> q == JsString(courseName)
  {
    var name := Get(ch, "chapterName");
    if Present(name) then JsString(name.value) else JsString(courseName)
  }

  /** One chapter: its new value and whether it counts as updated. */
  function FillChapter(ch: Json, courseName: Json, hasKey: bool, search: string -> Option<Json>): (r: Result<(Json, bool)>)
    ensures r.Err? <==> ch == Null
    ensures r.Ok? && Present(Get(ch, "videoUrl")) ==> r.value == (ch, false)
    ensures r.Ok? && !r.value.1 ==> r.value.0 == ch
    ensures r.Ok? ==> forall k :: k != "videoUrl" ==> Get(r.value.0, k) == Get(ch, k)
  {
    if ch == Null then Err("TypeError")
    else if Present(Get(ch, "videoUrl")) then Ok((ch, false))
    else
      match FindVideo(hasKey, search(Query(ch, courseName)))
      case None => Ok((ch, false))
      case Some(url) => Ok((if ch.Obj? then Set(ch, "videoUrl", Str(url)) else ch, true))
  }

  /** A chapter without a link gets the watch URL of the first result, in
      watch form (not embed form). */
  lemma FilledWithWatchUrl(ch: Json, v: string, rest: seq<Json>, courseName: Json, search: string -> Option<Json>)
    requires ch.Obj? && !Present(Get(ch, "videoUrl"))
    requires IsVideoId(v) && search(Query(ch, courseName)) == Some(SearchAnswer(Str(v), rest))
    ensures FillChapter(ch, courseName, true, search) == Ok((Set(ch, "videoUrl", Str(WatchUrl(v))), true))
    ensures YouTubeId.Extract(Get(FillChapter(ch, courseName, true, search).value.0, "videoUrl").value.s) == Some(v)
  {
    FindVideoRoundTrip(v, rest);
  }

  /** Without a key nothing is filled. */
  lemma NoKeyNoFill(ch: Json, courseName: Json, search: string -> Option<Json>)
    requires ch != Null
    ensures FillChapter(ch, courseName, false, search) == Ok((ch, false))
  {
  }

  /** The per-chapter results of the loop over `chs`. */
  function Steps(chs: seq<Json>, courseName: Json, hasKey: bool, search: string -> Option<Json>): (r: seq<Result<(Json, bool)>>)
    ensures |r| == |chs|
    ensures forall i :: 0 <= i < |chs| ==> r[i] == FillChapter(chs[i], courseName, hasKey, search)
  {
    seq(|chs|, i requires 0 <= i < |chs| => FillChapter(chs[i], courseName, hasKey, search))
  }

  /** What the script does with one row. */
  function Outcome(row: Row, parse: string -> Option<Json>, hasKey: bool, search: string -> Option<Json>): RowOutcome
  {
    match ReadLayout(row, parse)
    case None => Skip
    case Some((layout, chs)) =>
      match Collect(Steps(chs, row.name, hasKey, search), |chs|)
      case Err(_) => Abort
      case Ok((fixed, updated)) => if updated then Store(Set(layout, "chapters", Arr(fixed))) else Skip
  }

  /** A stored layout is the read one with the same number of chapters in
      the same order; a chapter that had a link is kept as it was, and the
      others can only gain a `videoUrl`.  The row is written only when some
      chapter received a URL. */
  lemma OutcomeStore(row: Row, parse: string -> Option<Json>, hasKey: bool, search: string -> Option<Json>)
    requires Outcome(row, parse, hasKey, search).Store?
    ensures ReadLayout(row, parse).Some?
    ensures var (layout, chs) := ReadLayout(row, parse).value;
      var stored := Outcome(row, parse, hasKey, search).layout;
      && stored.Obj?
      && (forall k :: k != "chapters" ==> Get(stored, k) == Get(layout, k))
      && Get(stored, "chapters").Some? && Get(stored, "chapters").value.Arr?
      && |Get(stored, "chapters").value.items| == |chs|
      && (forall i :: 0 <= i < |chs| ==>
            var c := Get(stored, "chapters").value.items[i];
            && (Present(Get(chs[i], "videoUrl")) ==> c == chs[i])
            && (forall k :: k != "videoUrl" ==> Get(c, k) == Get(chs[i], k)))
      && (exists i :: 0 <= i < |chs| && chs[i] != Null && !Present(Get(chs[i], "videoUrl"))
                      && FillChapter(chs[i], row.name, hasKey, search).value.1)
  {
    var (layout, chs) := ReadLayout(row, parse).value;
    var steps := Steps(chs, row.name, hasKey, search);
    CollectOk(steps, |chs|);
    CollectValues(steps, |chs|);
  }

  /** Conversely, a readable row without `null` chapters, one of whose
      chapters received a URL, is written. */
  lemma FilledIsStored(row: Row, parse: string -> Option<Json>, hasKey: bool, search: string -> Option<Json>, j: nat)
    requires ReadLayout(row, parse).Some?
    requires var chs := ReadLayout(row, parse).value.1;
      && (forall i :: 0 <= i < |chs| ==> chs[i] != Null)
      && j < |chs| && FillChapter(chs[j], row.name, hasKey, search).value.1
    ensures Outcome(row, parse, hasKey, search).Store?
  {
    var (layout, chs) := ReadLayout(row, parse).value;
    var steps := Steps(chs, row.name, hasKey, search);
    CollectValues(steps, |chs|);
    assert steps[j].value.1;
  }

  /** A row without a parsable layout or a `chapters` array is skipped, and
      so is a row none of whose chapters was filled. */
  lemma SkippedRows(row: Row, parse: string -> Option<Json>, hasKey: bool, search: string -> Option<Json>)
    requires ReadLayout(row, parse).None? ||
      var chs := ReadLayout(row, parse).value.1;
      forall i :: 0 <= i < |chs| ==> chs[i] != Null && Present(Get(chs[i], "videoUrl"))
    ensures Outcome(row, parse, hasKey, search) == Skip
  {
    if ReadLayout(row, parse).Some? {
      var chs := ReadLayout(row, parse).value.1;
      var steps := Steps(chs, row.name, hasKey, search);
      CollectValues(steps, |chs|);
    }
  }

  /** The outcomes of all rows. */
  function Outcomes(rows: seq<Row>, parse: string -> Option<Json>, hasKey: bool, search: string -> Option<Json>): (outs: seq<RowOutcome>)
    ensures |outs| == |rows|
    ensures forall i :: 0 <= i < |rows| ==> outs[i] == Outcome(rows[i], parse, hasKey, search)
  {
    seq(|rows|, i requires 0 <= i < |rows| => Outcome(rows[i], parse, hasKey, search))
  }

  /** The chapter loop of one row, updating the chapters in place. */
  method FillChapters(chs: seq<Json>, courseName: Json, hasKey: bool, search: string -> Option<Json>)
    returns (ok: bool, fixed: seq<Json>, updated: bool)
    ensures var r := Collect(Steps(chs, courseName, hasKey, search), |chs|);
      ok == r.Ok? && (ok ==> (fixed, updated) == r.value)
  {
    ghost var steps := Steps(chs, courseName, hasKey, search);
    fixed := chs;
    updated := false;
    var i := 0;
    while i < |chs|
      invariant 0 <= i <= |chs| && |fixed| == |chs|
      invariant Collect(steps, i) == Ok((fixed[..i], updated))
      invariant fixed[i..] == chs[i..]
    {
      var r := FillChapter(fixed[i], courseName, hasKey, search);
      assert r == steps[i];
      if r.Err? {
        CollectErr(steps, i + 1, |chs|);
        return false, fixed, updated;
      }
      CollectStep(steps, i, fixed, updated);
      fixed := fixed[i := r.value.0];
      updated := updated || r.value.1;
      i := i + 1;
    }
    assert fixed[..i] == fixed;
    ok := true;
  }

  /** One row of the script's loop. */
  method ProcessRow(row: Row, parse: string -> Option<Json>, hasKey: bool, search: string -> Option<Json>) returns (o: RowOutcome)
    ensures o == Outcome(row, parse, hasKey, search)
  {
    var read := ReadLayout(row, parse);
    if read.None? {
      return Skip;
    }
    var (layout, chs) := read.value;
    var ok, fixed, updated := FillChapters(chs, row.name, hasKey, search);
    if !ok {
      return Abort;
    }
    o := if updated then Store(Set(layout, "chapters", Arr(fixed))) else Skip;
  }

  /** The script over the selected rows. */
  method Run(db: Db, rows: seq<Row>, parse: string -> Option<Json>, hasKey: bool, search: string -> Option<Json>)
    returns (stopped: bool)
    modifies db
    ensures (db.courses, stopped) == ApplyBelow(old(db.courses), rows, Outcomes(rows, parse, hasKey, search), |rows|)
    ensures db.enrolments == old(db.enrolments) && db.users == old(db.users)
    ensures db.nextEnrolmentId == old(db.nextEnrolmentId) && db.nextUserId == old(db.nextUserId)
  {
    ghost var outs := Outcomes(rows, parse, hasKey, search);
    stopped := false;
    var i := 0;
    while i < |rows| && !stopped
      invariant 0 <= i <= |rows|
      invariant stopped ==> ApplyBelow(old(db.courses), rows, outs, |rows|) == (db.courses, true)
      invariant !stopped ==> ApplyBelow(old(db.courses), rows, outs, i) == (db.courses, false)
      invariant db.enrolments == old(db.enrolments) && db.users == old(db.users)
      invariant db.nextEnrolmentId == old(db.nextEnrolmentId) && db.nextUserId == old(db.nextUserId)
    {
      var o := ProcessRow(rows[i], parse, hasKey, search);
      match o {
        case Abort =>
          stopped := true;
          StoppedStays(old(db.courses), rows, outs, i + 1, |rows|);
        case Skip =>
        case Store(layout) =>
          var _ := db.UpdateCourses(rows[i].cid, map["courseJson" := layout]);
      }
      i := i + 1;
    }
  }
}
