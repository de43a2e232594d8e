/** The course-layout route: it asks the model for a course layout, parses
    it leniently, makes sure the layout has a `chapters` array, generates a
    banner image, drops the video links that do not answer, and stores the
    layout and the banner in the course row.

    The model, `JSON.parse`, the image service (its `data.image`, `None`
    when the request fails) and the HEAD probe of a video (its status,
    `None` on an error or a timeout) are oracles. */
module CourseLayoutRoute {
  import opened Wrappers
  import opened Json
  import opened ModelRetry
  import opened YouTubeId
  import opened Store
  import opened CourseContentRoute

  // ---------------------------------------------------------------------
  // GenerateImage

  const DataUriPrefix: string := "data:image/png;base64,"

  /** The normalisation of the image returned by the service: `null` when
      there is none (or the request failed), a PNG data URI when the value
      looks like raw base64, and the value itself otherwise. */
  function NormaliseImage(image: Option<Json>): (r: Json)
  {
    if !Present(image) then Null
    else
      match image.value
      case Str(s) =>
        if Base64Like(s) && |s| > 200 then Str(DataUriPrefix + RemoveSpaces(s)) else Str(s)
      case v => v
  }

  /** The three outcomes of `GenerateImage`, each with its condition. */
  lemma NormaliseImageCases(image: Option<Json>)
    ensures NormaliseImage(image) == Null <==> !Present(image)
    ensures Present(image) && image.value.Str? && Base64Like(image.value.s) && |image.value.s| > 200 ==>
      var r := NormaliseImage(image);
      && r.Str? && StartsWith(r.s, DataUriPrefix)
      && r.s[|DataUriPrefix|..] == RemoveSpaces(image.value.s)
      && forall k :: |DataUriPrefix| <= k < |r.s| ==> !IsJsSpace(r.s[k])
    ensures Present(image) && !(image.value.Str? && Base64Like(image.value.s) && |image.value.s| > 200) ==>
      NormaliseImage(image) == image.value
  {
    if Present(image) && image.value.Str? && Base64Like(image.value.s) && |image.value.s| > 200 {
      var r := NormaliseImage(image).s;
      assert r == DataUriPrefix + RemoveSpaces(image.value.s);
      assert r[..|DataUriPrefix|] == DataUriPrefix;
      forall k | |DataUriPrefix| <= k < |r| ensures !IsJsSpace(r[k]) {
        assert r[k] == RemoveSpaces(image.value.s)[k - |DataUriPrefix|];
      }
    }
  }

  /** A string with a ':' in it, such as a URL, is returned unchanged. */
  lemma UrlImageUnchanged(s: string, k: nat)
    requires k < |s| && s[k] == ':'
    ensures NormaliseImage(Some(Str(s))) == Str(s)
  {
    assert !IsBase64OrSpace(s[k]);
  }

  // ---------------------------------------------------------------------
  // checkYoutubeAccessibility

  /** The decision on a probe status: a 2xx answer. */
  predicate Answered(status: Option<nat>) {
    status.Some? && 200 <= status.value < 300
  }

  /** `checkYoutubeAccessibility(videoUrl)` for a truthy-or-not value;
      `videoUrl.match` throws on a truthy value that is not a string.
      `probe(u)` is the status of a HEAD request to `u`. */
  function CheckAccessible(videoUrl: Json, probe: string -> Option<nat>): (r: Result<bool>)
    ensures r.Err? <==> Truthy(videoUrl) && !videoUrl.Str?
  {
    if !Truthy(videoUrl) then Ok(false)
    else if !videoUrl.Str? then Err("TypeError")
    else
      match YouTubeId.Extract(videoUrl.s)
      case None => Ok(false)
      case Some(id) => Ok(Answered(probe(EmbedPrefix + id)))
  }

  /** A link is accessible exactly when it mentions an 11-character video id
      after a YouTube host and the embed address of that id answers 2xx. */
  lemma CheckAccessibleIff(url: string, probe: string -> Option<nat>)
    ensures CheckAccessible(Str(url), probe).Ok?
    ensures !MentionsVideo(url) ==> CheckAccessible(Str(url), probe) == Ok(false)
    ensures MentionsVideo(url) ==>
      && YouTubeId.Extract(url).Some?
      && (CheckAccessible(Str(url), probe) == Ok(true) <==> Answered(probe(EmbedPrefix + YouTubeId.Extract(url).value)))
  {
    ExtractIff(url);
  }

  /** The probe goes to the embed address of an id read from an embed link. */
  lemma CheckEmbedUrl(id: string, probe: string -> Option<nat>)
    requires IsVideoId(id)
    ensures CheckAccessible(Str(EmbedUrl(id)), probe) == Ok(Answered(probe(EmbedPrefix + id)))
  {
    EmbedUrlRoundTrip(id);
  }

  // ---------------------------------------------------------------------
  // Cleaning and normalising the layout

  const DefaultImagePrompt: string := "modern flat-style 2D digital illustration for online learning course"

  /** The model text with the markers removed (case-sensitively) and
      trimmed. */
  function CleanText(text: string): string {
    Trim(StripFences(text, false))
  }

  function RawObject(text: string): Json {
    Obj(map["raw" := Str(text)])
  }

  /** `parsed`: the parse of the cleaned text, or `{raw: text}`. */
  function ParseLayout(text: string, parse: string -> Option<Json>): (r: Json)
    ensures parse(CleanText(text)).None? ==> r == RawObject(CleanText(text))
    ensures parse(CleanText(text)).Some? ==> r == parse(CleanText(text)).value
  {
    match parse(CleanText(text))
    case Some(v) => v
    case None => RawObject(CleanText(text))
  }

  /** `courseJsonValue` before the `chapters` fix: `parsed.course || parsed`
      for an object or array, `{raw: text}` for anything else. */
  function CourseValue(parsed: Json, text: string): (r: Json)
    ensures Truthy(r)
  {
    if Truthy(parsed) && IsObjectLike(parsed) then
      if Present(Get(parsed, "course")) then Get(parsed, "course").value else parsed
    else RawObject(text)
  }

  /** The `chapters` fix: an object without an array `chapters` gets `[]`.
      A property set on an array is lost when it is stored; setting one on
      a primitive (a truthy string, number or `true` under `course`)
      throws. */
  function FixChapters(v: Json): (r: Result<Json>)
    ensures r.Ok? <==> IsObjectLike(v)
    ensures v.Arr? ==> r == Ok(v)
    ensures v.Obj? ==>
      && r.Ok? && r.value.Obj?
      && Get(r.value, "chapters").Some? && Get(r.value, "chapters").value.Arr?
      && (forall k :: k != "chapters" ==> Get(r.value, k) == Get(v, k))
    ensures v.Obj? && Get(v, "chapters").Some? && Get(v, "chapters").value.Arr? ==> r == Ok(v)
    ensures v.Obj? && !(Get(v, "chapters").Some? && Get(v, "chapters").value.Arr?) ==>
      Get(r.value, "chapters") == Some(Arr([]))
  {
    match v
    case Obj(m) =>
      if "chapters" in m && m["chapters"].Arr? then Ok(v) else Ok(Obj(m["chapters" := Arr([])]))
    case Arr(_) => Ok(v)
    case _ => Err("TypeError")
  }

  /** The prompt of the banner: `bannerImagePrompt` when truthy. */
  function ImagePrompt(v: Json): (r: Json)
    ensures Present(Get(v, "bannerImagePrompt")) ==> r == Get(v, "bannerImagePrompt").value
    ensures !Present(Get(v, "bannerImagePrompt")) ==> r == Str(DefaultImagePrompt)
  {
    var p := Get(v, "bannerImagePrompt");
    if Present(p) then p.value else Str(DefaultImagePrompt)
  }

  /** A model reply that is not pure JSON after cleaning becomes
      `{raw: text}` and then gets an empty `chapters` list. */
  lemma UnparsableLayout(text: string, parse: string -> Option<Json>)
    requires parse(CleanText(text)).None?
    ensures var v := CourseValue(ParseLayout(text, parse), CleanText(text));
      && v == RawObject(CleanText(text))
      && FixChapters(v) == Ok(Obj(map["raw" := Str(CleanText(text)), "chapters" := Arr([])]))
  {
    RawLayout(CleanText(text));
  }

  lemma RawLayout(t: string)
    ensures CourseValue(RawObject(t), t) == RawObject(t)
    ensures FixChapters(RawObject(t)) == Ok(Obj(map["raw" := Str(t), "chapters" := Arr([])]))
  {
    assert "course" != "raw" by { assert "course"[0] != "raw"[0]; }
    assert "chapters" != "raw" by { assert "chapters"[0] != "raw"[0]; }
    assert Get(RawObject(t), "course").None?;
  }

  /** A `course` wrapper is unwrapped when it is truthy. */
  lemma WrappedLayout(parsed: Json, text: string)
    requires parsed.Obj? && Present(Get(parsed, "course"))
    ensures CourseValue(parsed, text) == Get(parsed, "course").value
  {
  }

  // ---------------------------------------------------------------------
  // The chapter check

  /** One chapter: a truthy `videoUrl` that fails the check becomes `null`;
      reading `videoUrl` of a `null` chapter throws. */
  function CheckChapter(chapter: Json, probe: string -> Option<nat>): (r: Result<Json>)
  {
    if chapter == Null then Err("TypeError")
    else
      var url := Get(chapter, "videoUrl");
      if !Present(url) then Ok(chapter)
      else
        match CheckAccessible(url.value, probe)
        case Err(e) => Err(e)
        case Ok(true) => Ok(chapter)
        case Ok(false) => Ok(Set(chapter, "videoUrl", Null))
  }

  /** Only `videoUrl` can change, and only from a truthy value to `null`. */
  lemma CheckChapterFrame(chapter: Json, probe: string -> Option<nat>)
    requires CheckChapter(chapter, probe).Ok?
    ensures var r := CheckChapter(chapter, probe).value;
      && (forall k :: k != "videoUrl" ==> Get(r, k) == Get(chapter, k))
      && (r != chapter ==> Present(Get(chapter, "videoUrl")) && Get(r, "videoUrl") == Some(Null))
      && (!Present(Get(chapter, "videoUrl")) ==> r == chapter)
  {
  }

  /** A chapter keeps its link exactly when the link is accessible. */
  lemma CheckChapterKeepsAccessible(chapter: Json, url: string, probe: string -> Option<nat>)
    requires chapter.Obj? && Get(chapter, "videoUrl") == Some(Str(url)) && url != ""
    ensures CheckChapter(chapter, probe).Ok?
    ensures CheckChapter(chapter, probe).value == chapter <==> CheckAccessible(Str(url), probe) == Ok(true)
  {
    if CheckAccessible(Str(url), probe) != Ok(true) {
      assert Get(CheckChapter(chapter, probe).value, "videoUrl") == Some(Null);
    }
  }

  /** The chapter list after fixing: the array under `chapters` of an
      object, nothing for an array. */
  function ChapterList(v: Json): seq<Json> {
    match Get(v, "chapters")
    case Some(Arr(cs)) => cs
    case _ => []
  }

  // ---------------------------------------------------------------------
  // POST

  datatype LayoutResponse = LayoutResponse(status: nat, created: Option<Course>)

  /** The checked chapters and the stored layout value. */
  function StoredLayout(v: Json, checked: seq<Json>): Json {
    if v.Obj? then Set(v, "chapters", Arr(checked)) else v
  }

  /** The columns the route writes. */
  function LayoutColumns(layout: Json, banner: Json): map<string, Json> {
    map["courseJson" := layout, "bannerImageURL" := banner]
  }

  /** What the route does after the model answered with `text`, as a value:
      the layout and banner to store, or a rejection. */
  function LayoutFrom(text: string, parse: string -> Option<Json>, image: Json -> Option<Json>,
                      probe: string -> Option<nat>): (r: Result<(Json, Json)>)
  {
    var cleaned := CleanText(text);
    var fixed :- FixChapters(CourseValue(ParseLayout(text, parse), cleaned));
    var banner := NormaliseImage(image(ImagePrompt(fixed)));
    var cs := ChapterList(fixed);
    var checked :- All(seq(|cs|, i requires 0 <= i < |cs| => CheckChapter(cs[i], probe)));
    Ok((StoredLayout(fixed, checked), banner))
  }

  /** The answer of `POST /api/generate-course-layout`. */
  function LayoutResult(rows: seq<Course>, body: Option<Json>, signedIn: bool, call: nat -> Outcome,
                        parse: string -> Option<Json>, image: Json -> Option<Json>,
                        probe: string -> Option<nat>): (r: (LayoutResponse, seq<Course>))
  {
    if body.None? || body.value == Null then (LayoutResponse(500, None), rows)
    else if !signedIn then (LayoutResponse(401, None), rows)
    else
      match Retry(call, 3)
      case Returned(text) =>
        if text == "" then (LayoutResponse(500, None), rows)
        else
          (match LayoutFrom(text, parse, image, probe)
           case Err(_) => (LayoutResponse(500, None), rows)
           case Ok(pair) =>
             match CourseIdOf(body.value)
             case None => (LayoutResponse(201, None), rows)
             case Some(cid) =>
               var after := UpdateWhereCid(rows, cid, LayoutColumns(pair.0, pair.1));
               var updated := WithCid(after, cid);
               (LayoutResponse(201, if updated == [] then None else Some(updated[0])), after))
      case _ => (LayoutResponse(500, None), rows)
  }

  /** The chapter check over the list, in place: chapter `i` is replaced by
      its checked form. */
  method CheckChapters(chapters: seq<Json>, probe: string -> Option<nat>) returns (ok: bool, checked: seq<Json>)
    ensures var all := All(seq(|chapters|, i requires 0 <= i < |chapters| => CheckChapter(chapters[i], probe)));
      ok == all.Ok? && (ok ==> checked == all.value)
  {
    ghost var rs := seq(|chapters|, i requires 0 <= i < |chapters| => CheckChapter(chapters[i], probe));
    checked := chapters;
    ok := true;
    var i := 0;
    while i < |chapters|
      invariant 0 <= i <= |chapters| && |checked| == |chapters|
      invariant ok <==> forall j :: 0 <= j < i ==> rs[j].Ok?
      invariant ok ==> forall j :: 0 <= j < i ==> rs[j] == Ok(checked[j])
      invariant forall j :: i <= j < |chapters| ==> checked[j] == chapters[j]
    {
      var r := CheckChapter(checked[i], probe);
      assert r == rs[i];
      if r.Ok? {
        checked := checked[i := r.value];
      } else {
        ok := false;
      }
      i := i + 1;
    }
    if ok {
      var all := All(rs).value;
      assert |all| == |checked|;
      assert forall j :: 0 <= j < |checked| ==> all[j] == checked[j];
    }
  }

  /** `POST /api/generate-course-layout`. */
  method Post(db: Db, body: Option<Json>, signedIn: bool, call: nat -> Outcome,
              parse: string -> Option<Json>, image: Json -> Option<Json>, probe: string -> Option<nat>)
    returns (res: LayoutResponse, calls: nat)
    modifies db
    ensures (res, db.courses) == LayoutResult(old(db.courses), body, signedIn, call, parse, image, probe)
    ensures calls == if body.None? || body.value == Null || !signedIn then 0 else Calls(call, 3)
    ensures db.enrolments == old(db.enrolments) && db.users == old(db.users)
    ensures db.nextEnrolmentId == old(db.nextEnrolmentId) && db.nextUserId == old(db.nextUserId)
  {
    if body.None? || body.value == Null {
      return LayoutResponse(500, None), 0;
    }
    if !signedIn {
      return LayoutResponse(401, None), 0;
    }
    var reply, waited;
    reply, calls, waited := GenerateWithRetry(call, 3, DefaultDelay);
    if !reply.Returned? || reply.text == "" {
      return LayoutResponse(500, None), calls;
    }
    var text := reply.text;
    var cleaned := CleanText(text);
    var fixed := FixChapters(CourseValue(ParseLayout(text, parse), cleaned));
    if fixed.Err? {
      return LayoutResponse(500, None), calls;
    }
    var layout := fixed.value;
    var banner := NormaliseImage(image(ImagePrompt(layout)));
    var ok, checked := CheckChapters(ChapterList(layout), probe);
    if !ok {
      return LayoutResponse(500, None), calls;
    }
    layout := StoredLayout(layout, checked);
    var cid := CourseIdOf(body.value);
    if cid.None? {
      return LayoutResponse(201, None), calls;
    }
    var updated := db.UpdateCourses(cid.value, LayoutColumns(layout, banner));
    res := LayoutResponse(201, if updated == [] then None else Some(updated[0]));
  }

  /** Without a signed-in user the route answers 401 and writes nothing. */
  lemma SignedOutRejected(rows: seq<Course>, body: Json, call: nat -> Outcome, parse: string -> Option<Json>,
                          image: Json -> Option<Json>, probe: string -> Option<nat>)
    requires body != Null
    ensures LayoutResult(rows, Some(body), false, call, parse, image, probe) == (LayoutResponse(401, None), rows)
  {
  }

  /** No text from the model is a 500 with no write. */
  lemma NoTextRejected(rows: seq<Course>, body: Json, call: nat -> Outcome, parse: string -> Option<Json>,
                       image: Json -> Option<Json>, probe: string -> Option<nat>)
    requires body != Null && !(Retry(call, 3).Returned? && Retry(call, 3).text != "")
    ensures LayoutResult(rows, Some(body), true, call, parse, image, probe) == (LayoutResponse(500, None), rows)
  {
  }

  /** A successful write sets `courseJson` and `bannerImageURL` of the rows
      whose cid is `courseId`, whether or not such a row exists, and
      changes nothing else. */
  lemma LayoutWriteFrame(rows: seq<Course>, cid: string, layout: Json, banner: Json)
    ensures var after := UpdateWhereCid(rows, cid, LayoutColumns(layout, banner));
      && |after| == |rows|
      && forall i :: 0 <= i < |rows| ==>
           && after[i].id == rows[i].id && after[i].cid == rows[i].cid
           && (rows[i].cid != cid ==> after[i] == rows[i])
           && (rows[i].cid == cid ==>
                 after[i].cols["courseJson"] == layout && after[i].cols["bannerImageURL"] == banner
                 && forall k :: k in rows[i].cols && k != "courseJson" && k != "bannerImageURL" ==>
                      after[i].cols[k] == rows[i].cols[k])
  {
  }

  /** After a successful `LayoutFrom`, a stored object layout always has a
      `chapters` array of the same length as the one it was given. */
  lemma StoredChapters(v: Json, checked: seq<Json>)
    requires v.Obj?
    ensures Get(StoredLayout(v, checked), "chapters") == Some(Arr(checked))
    ensures forall k :: k != "chapters" ==> Get(StoredLayout(v, checked), k) == Get(v, k)
  {
  }
}
