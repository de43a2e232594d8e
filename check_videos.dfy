/** The repair script that checks every chapter's `videoWatchUrl` against
    the YouTube status service and searches a new video for the chapters
    with none or an unavailable one.

    The script is not in strict mode: setting a property on a string or
    number chapter is silently ignored (and still counts as an update),
    and a property set on an array is lost when the layout is serialised.
    Reading a property of a `null` chapter, or calling `.match` on a truthy
    link that is not a string, throws out of the loop and ends the script. */
module CheckVideos {
  import opened Wrappers
  import opened Json
  import opened YouTubeId
  import opened Store
  import opened VideoSearch

  /** `isYouTubeVideoAvailable(id)`; `data` is the status answer for `id`,
      `None` when the request fails.  `status.embeddable` is used for its
      truthiness, since the result is only ever negated. */
  predicate Available(hasKey: bool, data: Option<Json>) {
    hasKey && data.Some? &&
    match Get(data.value, "items")
    case Some(Arr(items)) =>
      |items| > 0 && items[0].Obj? && !Nullish(Get(items[0], "status"))
      && Get(Get(items[0], "status").value, "privacyStatus") == Some(Str("public"))
      && Present(Get(Get(items[0], "status").value, "embeddable"))
    case _ => false
  }

  /** A status answer for one public video. */
  function StatusAnswer(privacy: Json, embeddable: Json): Json {
    Obj(map["items" := Arr([Obj(map["status" := Obj(map["privacyStatus" := privacy, "embeddable" := embeddable])])])])
  }

  /** A video counts as available exactly when it is public and
      embeddable; without a key, on an error or with no item it does not. */
  lemma AvailableIff(privacy: Json, embeddable: Json)
    ensures Available(true, Some(StatusAnswer(privacy, embeddable))) <==>
      privacy == Str("public") && Truthy(embeddable)
  {
    var data := StatusAnswer(privacy, embeddable);
    var st := Obj(map["privacyStatus" := privacy, "embeddable" := embeddable]);
    assert Get(data, "items") == Some(Arr([Obj(map["status" := st])]));
    assert Get(st, "privacyStatus") == Some(privacy);
    assert "privacyStatus" != "embeddable" by { assert "privacyStatus"[0] != "embeddable"[0]; }
    assert Get(st, "embeddable") == Some(embeddable);
  }

  lemma NotAvailableWithout(hasKey: bool, data: Option<Json>)
    requires !hasKey || data.None? || Get(data.value, "items").None? || Get(data.value, "items") == Some(Arr([]))
    ensures !Available(hasKey, data)
  {
  }

  /** The id in a chapter's `videoWatchUrl`, when it is a string. */
  function CurrentId(ch: Json): Option<string> {
    match Get(ch, "videoWatchUrl")
    case Some(Str(u)) => YouTubeId.Extract(u)
    case _ => None
  }

  /** The chapter throws: it is `null`, or its link is truthy and not a
      string. */
  predicate Throws(ch: Json) {
    ch == Null || (Present(Get(ch, "videoWatchUrl")) && !Get(ch, "videoWatchUrl").value.Str?)
  }

  /** The chapter is searched again: its link yields an id the status
      service does not report available, or it has no link. */
  predicate NeedsSearch(ch: Json, hasKey: bool, status: string -> Option<Json>) {
    match CurrentId(ch)
    case Some(id) => !Available(hasKey, status(id))
    case None => !Present(Get(ch, "videoWatchUrl"))
  }

  /** The query: "<chapterName> <course name>", or the course name alone
      when `chapterName` is falsy. */
  function Query(ch: Json, courseName: Json): string {
    var name := Get(ch, "chapterName");
    (if Present(name) then JsString(name.value) + " " else "") + JsString(courseName)
  }

  lemma QueryForms(c: string, n: string, rest: map<string, Json>)
    ensures c != "" ==> Query(Obj(rest["chapterName" := Str(c)]), Str(n)) == c + " " + n
    ensures "chapterName" !in rest ==> Query(Obj(rest), Str(n)) == n
  {
  }

  /** The two fields a found video sets. */
  function WithVideo(ch: Json, url: string, id: string): Json {
    if ch.Obj? then Set(Set(ch, "videoWatchUrl", Str(url)), "videoUrl", Str(EmbedUrl(id))) else ch
  }

  /** One chapter: its new value and whether it counts as updated. */
  function RepairChapter(ch: Json, courseName: Json, hasKey: bool, status: string -> Option<Json>,
                         search: string -> Option<Json>): (r: Result<(Json, bool)>)
    ensures r.Err? <==> Throws(ch)
    ensures r.Ok? && !NeedsSearch(ch, hasKey, status) ==> r.value == (ch, false)
  {
    if Throws(ch) then Err("TypeError")
    else if !NeedsSearch(ch, hasKey, status) then Ok((ch, false))
    else Ok(Searched(ch, FindVideo(hasKey, search(Query(ch, courseName)))))
  }

  /** A chapter after the search found `found`: updated when an id can be
      read from the URL. */
  function Searched(ch: Json, found: Option<string>): (r: (Json, bool))
    ensures !r.1 ==> r.0 == ch
  {
    match found
    case None => (ch, false)
    case Some(url) =>
      match YouTubeId.Extract(url)
      case None => (ch, false)
      case Some(id) => (WithVideo(ch, url, id), true)
  }

  /** A link from which no id can be read is left alone. */
  lemma NoIdLeftAlone(ch: Json, u: string, courseName: Json, hasKey: bool, status: string -> Option<Json>,
                      search: string -> Option<Json>)
    requires ch.Obj? && Get(ch, "videoWatchUrl") == Some(Str(u)) && u != "" && YouTubeId.Extract(u).None?
    ensures RepairChapter(ch, courseName, hasKey, status, search) == Ok((ch, false))
  {
  }

  /** An available video is kept. */
  lemma AvailableKept(ch: Json, id: string, courseName: Json, hasKey: bool, status: string -> Option<Json>,
                      search: string -> Option<Json>)
    requires ch.Obj? && Get(ch, "videoWatchUrl") == Some(Str(WatchUrl(id))) && IsVideoId(id)
    requires Available(hasKey, status(id))
    ensures RepairChapter(ch, courseName, hasKey, status, search) == Ok((ch, false))
  {
    WatchUrlRoundTrip(id, []);
    assert WatchUrl(id) + [] == WatchUrl(id);
  }

  /** After a successful search the chapter holds the watch URL of the
      result and the embed URL of the same id; nothing else changes. */
  lemma SearchedChapter(ch: Json, v: string, rest: seq<Json>, courseName: Json, hasKey: bool,
                        status: string -> Option<Json>, search: string -> Option<Json>)
    requires ch.Obj? && !Throws(ch) && NeedsSearch(ch, hasKey, status)
    requires IsVideoId(v) && hasKey && search(Query(ch, courseName)) == Some(SearchAnswer(Str(v), rest))
    ensures var r := RepairChapter(ch, courseName, hasKey, status, search).value;
      && r.1
      && Get(r.0, "videoWatchUrl") == Some(Str(WatchUrl(v)))
      && Get(r.0, "videoUrl") == Some(Str(EmbedUrl(v)))
      && forall k :: k != "videoWatchUrl" && k != "videoUrl" ==> Get(r.0, k) == Get(ch, k)
  {
    FindVideoRoundTrip(v, rest);
  }

  /** The per-chapter results of the loop over `chs`. */
  function Steps(chs: seq<Json>, courseName: Json, hasKey: bool, status: string -> Option<Json>,
                 search: string -> Option<Json>): (r: seq<Result<(Json, bool)>>)
    ensures |r| == |chs|
    ensures forall i :: 0 <= i < |chs| ==> r[i] == RepairChapter(chs[i], courseName, hasKey, status, search)
  {
    seq(|chs|, i requires 0 <= i < |chs| => RepairChapter(chs[i], courseName, hasKey, status, search))
  }

  /** What the script does with one row. */
  function Outcome(row: Row, parse: string -> Option<Json>, hasKey: bool, status: string -> Option<Json>,
                   search: string -> Option<Json>): RowOutcome
  {
    match ReadLayout(row, parse)
    case None => Skip
    case Some((layout, chs)) =>
      match Collect(Steps(chs, row.name, hasKey, status, search), |chs|)
      case Err(_) => Abort
      case Ok((fixed, updated)) => if updated then Store(Set(layout, "chapters", Arr(fixed))) else Skip
  }

  /** A row is written only when one of its chapters was updated.  The
      stored layout is the read one with its `chapters` replaced by the
      repaired chapters, as many as before and in the same order. */
  lemma OutcomeStore(row: Row, parse: string -> Option<Json>, hasKey: bool, status: string -> Option<Json>,
                     search: string -> Option<Json>)
    requires Outcome(row, parse, hasKey, status, search).Store?
    ensures ReadLayout(row, parse).Some?
    ensures var (layout, chs) := ReadLayout(row, parse).value;
      var stored := Outcome(row, parse, hasKey, status, search).layout;
      && (exists i :: 0 <= i < |chs| && !Throws(chs[i]) && RepairChapter(chs[i], row.name, hasKey, status, search).value.1)
      && stored.Obj?
      && (forall k :: k != "chapters" ==> Get(stored, k) == Get(layout, k))
      && Get(stored, "chapters").Some? && Get(stored, "chapters").value.Arr?
      && |Get(stored, "chapters").value.items| == |chs|
      && (forall i :: 0 <= i < |chs| ==>
            !Throws(chs[i])
            && Get(stored, "chapters").value.items[i] == RepairChapter(chs[i], row.name, hasKey, status, search).value.0)
  {
    var (layout, chs) := ReadLayout(row, parse).value;
    var steps := Steps(chs, row.name, hasKey, status, search);
    CollectOk(steps, |chs|);
    CollectValues(steps, |chs|);
  }

  /** Conversely, a readable row none of whose chapters throws, and one of
      whose chapters was updated, is written. */
  lemma UpdatedIsStored(row: Row, parse: string -> Option<Json>, hasKey: bool, status: string -> Option<Json>,
                        search: string -> Option<Json>, j: nat)
    requires ReadLayout(row, parse).Some?
    requires var chs := ReadLayout(row, parse).value.1;
      && (forall i :: 0 <= i < |chs| ==> !Throws(chs[i]))
      && j < |chs| && RepairChapter(chs[j], row.name, hasKey, status, search).value.1
    ensures Outcome(row, parse, hasKey, status, search).Store?
  {
    var (layout, chs) := ReadLayout(row, parse).value;
    var steps := Steps(chs, row.name, hasKey, status, search);
    CollectValues(steps, |chs|);
    assert steps[j].value.1;
  }

  /** A row without a parsable layout or a `chapters` array is skipped. */
  lemma UnreadableSkipped(row: Row, parse: string -> Option<Json>, hasKey: bool, status: string -> Option<Json>,
                          search: string -> Option<Json>)
    requires ReadLayout(row, parse).None?
    ensures Outcome(row, parse, hasKey, status, search) == Skip
  {
  }

  /** The outcomes of all rows. */
  function Outcomes(rows: seq<Row>, parse: string -> Option<Json>, hasKey: bool, status: string -> Option<Json>,
                    search: string -> Option<Json>): (outs: seq<RowOutcome>)
    ensures |outs| == |rows|
    ensures forall i :: 0 <= i < |rows| ==> outs[i] == Outcome(rows[i], parse, hasKey, status, search)
  {
    seq(|rows|, i requires 0 <= i < |rows| => Outcome(rows[i], parse, hasKey, status, search))
  }

  /** The chapter loop of one row, updating the chapters in place. */
  method RepairChapters(chs: seq<Json>, courseName: Json, hasKey: bool, status: string -> Option<Json>,
                        search: string -> Option<Json>) returns (ok: bool, fixed: seq<Json>, updated: bool)
    ensures var r := Collect(Steps(chs, courseName, hasKey, status, search), |chs|);
      ok == r.Ok? && (ok ==> (fixed, updated) == r.value)
  {
    ghost var steps := Steps(chs, courseName, hasKey, status, search);
    fixed := chs;
    updated := false;
    var i := 0;
    while i < |chs|
      invariant 0 <= i <= |chs| && |fixed| == |chs|
      invariant Collect(steps, i) == Ok((fixed[..i], updated))
      invariant fixed[i..] == chs[i..]
    {
      var r := RepairChapter(fixed[i], courseName, hasKey, status, search);
      assert r == steps[i];
      if r.Err? {
        CollectErr(steps, i + 1, |chs|);
        return false, fixed, updated;
      }
      CollectStep(steps, i, fixed, updated);
      fixed := fixed[i := r.value.0];
      updated := updated || r.value.1;
      i := i + 1;
    }
    assert fixed[..i] == fixed;
    ok := true;
  }

  /** One row of the script's loop. */
  method ProcessRow(row: Row, parse: string -> Option<Json>, hasKey: bool, status: string -> Option<Json>, search: string -> Option<Json>) returns (o: RowOutcome)
    ensures o == Outcome(row, parse, hasKey, status, search)
  {
    var read := ReadLayout(row, parse);
    if read.None? {
      return Skip;
    }
    var (layout, chs) := read.value;
    var ok, fixed, updated := RepairChapters(chs, row.name, hasKey, status, search);
    if !ok {
      return Abort;
    }
    o := if updated then Store(Set(layout, "chapters", Arr(fixed))) else Skip;
  }

  /** The script over the selected rows. */
  method Run(db: Db, rows: seq<Row>, parse: string -> Option<Json>, hasKey: bool,
             status: string -> Option<Json>, search: string -> Option<Json>) returns (stopped: bool)
    modifies db
    ensures (db.courses, stopped) == ApplyBelow(old(db.courses), rows, Outcomes(rows, parse, hasKey, status, search), |rows|)
    ensures db.enrolments == old(db.enrolments) && db.users == old(db.users)
    ensures db.nextEnrolmentId == old(db.nextEnrolmentId) && db.nextUserId == old(db.nextUserId)
  {
    ghost var outs := Outcomes(rows, parse, hasKey, status, search);
    stopped := false;
    var i := 0;
    while i < |rows| && !stopped
      invariant 0 <= i <= |rows|
      invariant stopped ==> ApplyBelow(old(db.courses), rows, outs, |rows|) == (db.courses, true)
      invariant !stopped ==> ApplyBelow(old(db.courses), rows, outs, i) == (db.courses, false)
      invariant db.enrolments == old(db.enrolments) && db.users == old(db.users)
      invariant db.nextEnrolmentId == old(db.nextEnrolmentId) && db.nextUserId == old(db.nextUserId)
    {
      var o := ProcessRow(rows[i], parse, hasKey, status, search);
      match o {
        case Abort =>
          stopped := true;
          StoppedStays(old(db.courses), rows, outs, i + 1, |rows|);
        case Skip =>
        case Store(layout) =>
          var _ := db.UpdateCourses(rows[i].cid, map["courseJson" := layout]);
      }
      i := i + 1;
    }
  }
}
