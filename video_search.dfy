/** What the two video-repair scripts share: the rows they read, the
    YouTube search (`findYouTubeVideo`, identical in both), reading a row's
    layout, and applying the per-row outcome to the courses table.

    The search service is an oracle: `data` is `response.data` of the
    request, `None` when the request fails. */
module VideoSearch {
  import opened Wrappers
  import opened Json
  import opened YouTubeId
  import opened Store

  /** A row of `SELECT cid, name, "courseJson" FROM courses ...`. */
  datatype Row = Row(cid: string, name: Json, courseJson: Json)

  /** The watch URL of the first search result, `null` otherwise.  Reading
      `items[0].id.videoId` throws (and the error is caught) when the first
      item or its `id` is `null`; a string `items` has no object at `[0]`. */
  function FindVideo(hasKey: bool, data: Option<Json>): (r: Option<string>)
    ensures r.Some? <==> hasKey && data.Some? && FirstItemHasId(data.value)
    ensures r.Some? ==> r.value == WatchUrl(TemplateStr(Get(FirstId(data.value), "videoId")))
  {
    if !hasKey || data.None? then None
    else if FirstItemHasId(data.value) then Some(WatchUrl(TemplateStr(Get(FirstId(data.value), "videoId"))))
    else None
  }

  /** `response.data.items` is a non-empty array whose first element is an
      object with a non-null `id`. */
  predicate FirstItemHasId(data: Json) {
    match Get(data, "items")
    case Some(Arr(items)) =>
      |items| > 0 && items[0].Obj? && !Nullish(Get(items[0], "id"))
    case _ => false
  }

  function FirstId(data: Json): Json {
    match Get(data, "items")
    case Some(Arr(items)) =>
      if |items| > 0 && items[0].Obj? && Get(items[0], "id").Some? then Get(items[0], "id").value else Null
    case _ => Null
  }

  /** A search answer whose first item carries the id `v`. */
  function SearchAnswer(v: Json, rest: seq<Json>): Json {
    Obj(map["items" := Arr([Obj(map["id" := Obj(map["videoId" := v])])] + rest)])
  }

  /** The id a search reports is the id the returned URL yields again. */
  lemma FindVideoRoundTrip(id: string, rest: seq<Json>)
    requires IsVideoId(id)
    ensures FindVideo(true, Some(SearchAnswer(Str(id), rest))) == Some(WatchUrl(id))
    ensures YouTubeId.Extract(FindVideo(true, Some(SearchAnswer(Str(id), rest))).value) == Some(id)
  {
    var data := SearchAnswer(Str(id), rest);
    assert Get(data, "items") == Some(Arr([Obj(map["id" := Obj(map["videoId" := Str(id)])])] + rest));
    assert FirstId(data) == Obj(map["videoId" := Str(id)]);
    WatchUrlRoundTrip(id, []);
    assert WatchUrl(id) + [] == WatchUrl(id);
  }

  /** No key, no answer, or no items: no URL. */
  lemma FindVideoNone(hasKey: bool, data: Option<Json>)
    requires !hasKey || data.None? || Get(data.value, "items").None? || Get(data.value, "items") == Some(Arr([]))
    ensures FindVideo(hasKey, data).None?
  {
  }

  /** A result without a `videoId` gives a URL that ends in "undefined". */
  lemma FindVideoUndefinedId(rest: seq<Json>)
    ensures FindVideo(true, Some(Obj(map["items" := Arr([Obj(map["id" := Obj(map[])])] + rest)])))
         == Some(WatchUrl("undefined"))
  {
    var data := Obj(map["items" := Arr([Obj(map["id" := Obj(map[])])] + rest)]);
    assert FirstId(data) == Obj(map[]);
  }

  /** The layout of a row and its chapters, or `None` when the row is
      skipped: its text does not parse or there is no `chapters` array. */
  function ReadLayout(row: Row, parse: string -> Option<Json>): (r: Option<(Json, seq<Json>)>)
    ensures r.Some? ==> r.value.0.Obj? && Get(r.value.0, "chapters") == Some(Arr(r.value.1))
    ensures r.Some? <==>
      var parsed := if row.courseJson.Str? then parse(row.courseJson.s) else Some(row.courseJson);
      parsed.Some? && Get(parsed.value, "chapters").Some? && Get(parsed.value, "chapters").value.Arr?
    ensures !row.courseJson.Str? && r.Some? ==> r.value.0 == row.courseJson
  {
    var parsed := if row.courseJson.Str? then parse(row.courseJson.s) else Some(row.courseJson);
    if parsed.None? then None
    else
      match Get(parsed.value, "chapters")
      case Some(Arr(cs)) => Some((parsed.value, cs))
      case _ => None
  }

  /** The chapter loop over the per-chapter results `steps`: the chapters
      after the first `n` and whether one of them was updated, or the first
      error. */
  function Collect(steps: seq<Result<(Json, bool)>>, n: nat): (r: Result<(seq<Json>, bool)>)
    requires n <= |steps|
    ensures r.Ok? ==> |r.value.0| == n
  {
    if n == 0 then Ok(([], false))
    else
      var prev := Collect(steps, n - 1);
      if prev.Err? then prev
      else if steps[n - 1].Err? then Err(steps[n - 1].reason)
      else Ok((prev.value.0 + [steps[n - 1].value.0], prev.value.1 || steps[n - 1].value.1))
  }

  /** The loop fails exactly when one chapter fails. */
  lemma {:induction false} CollectOk(steps: seq<Result<(Json, bool)>>, n: nat)
    requires n <= |steps|
    ensures Collect(steps, n).Ok? <==> forall i :: 0 <= i < n ==> steps[i].Ok?
  {
    if n > 0 {
      CollectOk(steps, n - 1);
    }
  }

  /** The list keeps its length and order: entry `i` is the new value of
      chapter `i`, and the flag is set exactly when one chapter was
      updated. */
  lemma {:induction false} CollectValues(steps: seq<Result<(Json, bool)>>, n: nat)
    requires n <= |steps|
    requires forall i :: 0 <= i < n ==> steps[i].Ok?
    ensures Collect(steps, n).Ok?
    ensures forall i :: 0 <= i < n ==> Collect(steps, n).value.0[i] == steps[i].value.0
    ensures Collect(steps, n).value.1 <==> exists i :: 0 <= i < n && steps[i].value.1
  {
    if n > 0 {
      CollectValues(steps, n - 1);
    }
  }

  /** A failure is final: the later chapters are not reached. */
  lemma {:induction false} CollectErr(steps: seq<Result<(Json, bool)>>, n: nat, m: nat)
    requires n <= m <= |steps|
    requires Collect(steps, n).Err?
    ensures Collect(steps, m).Err?
    decreases m - n
  {
    if n < m {
      CollectErr(steps, n, m - 1);
    }
  }

  /** One more chapter, written into the list in place. */
  lemma CollectStep(steps: seq<Result<(Json, bool)>>, i: nat, fixed: seq<Json>, updated: bool)
    requires i < |steps| && i < |fixed| && steps[i].Ok?
    requires Collect(steps, i) == Ok((fixed[..i], updated))
    ensures Collect(steps, i + 1) == Ok((fixed[i := steps[i].value.0][..i + 1], updated || steps[i].value.1))
  {
    assert fixed[i := steps[i].value.0][..i + 1] == fixed[..i] + [steps[i].value.0];
  }

  /** What one row comes to: the script stops (an uncaught error), the row
      is left alone, or its `courseJson` is replaced. */
  datatype RowOutcome = Abort | Skip | Store(layout: Json)

  /** The courses table after the first `n` rows, and whether the script
      stopped there.  An `Abort` ends the loop; the writes before it stay. */
  function ApplyBelow(courses: seq<Course>, rows: seq<Row>, outs: seq<RowOutcome>, n: nat): (r: (seq<Course>, bool))
    requires |outs| == |rows| && n <= |rows|
    ensures |r.0| == |courses|
  {
    if n == 0 then (courses, false)
    else
      var (c, stopped) := ApplyBelow(courses, rows, outs, n - 1);
      if stopped then (c, true)
      else
        match outs[n - 1]
        case Abort => (c, true)
        case Skip => (c, false)
        case Store(layout) => (UpdateWhereCid(c, rows[n - 1].cid, map["courseJson" := layout]), false)
  }

  /** Skipped rows write nothing: a run over rows that are all skipped
      leaves the table as it was. */
  lemma {:induction false} AllSkippedNoWrite(courses: seq<Course>, rows: seq<Row>, outs: seq<RowOutcome>, n: nat)
    requires |outs| == |rows| && n <= |rows|
    requires forall i :: 0 <= i < n ==> outs[i] == Skip
    ensures ApplyBelow(courses, rows, outs, n) == (courses, false)
  {
    if n > 0 {
      AllSkippedNoWrite(courses, rows, outs, n - 1);
    }
  }

  /** Only `courseJson` of rows whose cid was processed can change. */
  lemma {:induction false} ApplyFrame(courses: seq<Course>, rows: seq<Row>, outs: seq<RowOutcome>, n: nat)
    requires |outs| == |rows| && n <= |rows|
    ensures var after := ApplyBelow(courses, rows, outs, n).0;
      forall i :: 0 <= i < |courses| ==>
        && after[i].id == courses[i].id && after[i].cid == courses[i].cid
        && (forall k :: k in courses[i].cols && k != "courseJson" ==> k in after[i].cols && after[i].cols[k] == courses[i].cols[k])
        && ((forall j :: 0 <= j < n ==> rows[j].cid != courses[i].cid) ==> after[i] == courses[i])
  {
    if n > 0 {
      ApplyFrame(courses, rows, outs, n - 1);
    }
  }

  /** Once stopped, the later rows change nothing. */
  lemma {:induction false} StoppedStays(courses: seq<Course>, rows: seq<Row>, outs: seq<RowOutcome>, n: nat, m: nat)
    requires |outs| == |rows| && n <= m <= |rows|
    requires ApplyBelow(courses, rows, outs, n).1
    ensures ApplyBelow(courses, rows, outs, m) == ApplyBelow(courses, rows, outs, n)
    decreases m - n
  {
    if n < m {
      StoppedStays(courses, rows, outs, n, m - 1);
    }
  }
}
