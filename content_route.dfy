/** The course-content route: for every chapter of a course layout it asks
    the model for HTML content, extracts a JSON object from the reply,
    falls back to a placeholder when that fails, attaches a video found by
    a search, and stores the ordered list in the `coursesContent` column.

    `JSON.parse` is the oracle `parse` (`None` when it throws); the video
    search endpoint is the oracle `search` (`None` when the request fails
    or its reply is not ok); the model is the oracle of `ModelRetry`. */
module CourseContentRoute {
  import opened Wrappers
  import opened Json
  import opened ModelRetry
  import opened YouTubeId
  import opened Store

  // ---------------------------------------------------------------------
  // Fence removal: `text.replace(/```json|```/gi, "")` (and, with
  // `ignoreCase` false, the layout route's `/```json|```/g`).

  /** "```json" at the start of `s`, with "json" compared in any case when
      `ignoreCase` holds. */
  predicate JsonFenceAtStart(s: string, ignoreCase: bool) {
    |s| >= 7 && s[..3] == "```" && (if ignoreCase then ToLower(s[3..7]) == "json" else s[3..7] == "json")
  }

  predicate NoFence(t: string) {
    forall i :: 0 <= i < |t| - 2 ==> !(t[i] == '`' && t[i + 1] == '`' && t[i + 2] == '`')
  }

  /** The length of the marker at the start of `s`: 7 for "```json", 3 for
      "```", 0 for none. */
  function FenceLength(s: string, ignoreCase: bool): (n: nat)
    ensures n == 0 || n == 3 || n == 7
    ensures n <= |s|
    ensures n > 0 ==> s[0] == '`'
  {
    if JsonFenceAtStart(s, ignoreCase) then 7
    else if |s| >= 3 && s[..3] == "```" then 3
    else 0
  }

  /** The global replacement scans left to right; at each position the
      first alternative that matches is removed. */
  function StripFences(s: string, ignoreCase: bool): (r: string)
    ensures |r| <= |s|
    decreases |s|
  {
    if s == [] then []
    else
      var n := FenceLength(s, ignoreCase);
      if n > 0 then StripFences(s[n..], ignoreCase) else [s[0]] + StripFences(s[1..], ignoreCase)
  }

  lemma StripFencesStep(s: string, ignoreCase: bool)
    requires s != [] && FenceLength(s, ignoreCase) == 0
    ensures StripFences(s, ignoreCase) == [s[0]] + StripFences(s[1..], ignoreCase)
  {
  }

  /** A character other than a backtick is kept. */
  lemma StripFencesKeep(s: string, ignoreCase: bool)
    requires s != [] && s[0] != '`'
    ensures StripFences(s, ignoreCase) == [s[0]] + StripFences(s[1..], ignoreCase)
  {
  }

  /** A leading character other than a backtick is the first character of
      the result. */
  lemma FirstKept(t: string, ignoreCase: bool)
    requires t != [] && t[0] != '`'
    ensures StripFences(t, ignoreCase) != [] && StripFences(t, ignoreCase)[0] == t[0]
  {
    StripFencesKeep(t, ignoreCase);
  }

  predicate TwoTicks(t: string) {
    |t| >= 2 && t[0] == '`' && t[1] == '`'
  }

  /** A backtick kept at the front is not followed by two more backticks. */
  lemma KeptTickAlone(s: string, ignoreCase: bool)
    requires s != [] && s[0] == '`' && FenceLength(s, ignoreCase) == 0
    ensures !TwoTicks(StripFences(s[1..], ignoreCase))
  {
    var t := s[1..];
    if t != [] {
      if t[0] != '`' {
        FirstKept(t, ignoreCase);
      } else {
        assert |s| >= 3 ==> s[..3] == [s[0], s[1], s[2]];
        assert |t| >= 3 ==> t[..3] == [t[0], t[1], t[2]];
        assert FenceLength(t, ignoreCase) == 0;
        StripFencesStep(t, ignoreCase);
        if |t| >= 2 {
          assert t[1..] == s[2..];
          FirstKept(t[1..], ignoreCase);
        }
      }
    }
  }

  lemma NoFenceCons(c: char, rest: string)
    requires NoFence(rest)
    requires !(c == '`' && TwoTicks(rest))
    ensures NoFence([c] + rest)
  {
    var r := [c] + rest;
    forall i | 0 <= i < |r| - 2
      ensures !(r[i] == '`' && r[i + 1] == '`' && r[i + 2] == '`')
    {
      if i > 0 {
        assert r[i] == rest[i - 1] && r[i + 1] == rest[i] && r[i + 2] == rest[i + 1];
      }
    }
  }

  /** Every marker is removed: no "```" is left, not even one formed by the
      text around a removed marker. */
  lemma {:induction false} StripFencesNoFence(s: string, ignoreCase: bool)
    ensures NoFence(StripFences(s, ignoreCase))
    decreases |s|
  {
    if s != [] {
      var n := FenceLength(s, ignoreCase);
      if n > 0 {
        StripFencesNoFence(s[n..], ignoreCase);
      } else {
        StripFencesNoFence(s[1..], ignoreCase);
        if s[0] == '`' {
          KeptTickAlone(s, ignoreCase);
        }
        NoFenceCons(s[0], StripFences(s[1..], ignoreCase));
      }
    }
  }

  /** Text without backticks passes through unchanged. */
  lemma {:induction false} StripFencesNoTicks(s: string, ignoreCase: bool)
    requires '`' !in s
    ensures StripFences(s, ignoreCase) == s
  {
    if s != [] {
      StripFencesKeep(s, ignoreCase);
      NotInTail(s, '`');
      StripFencesNoTicks(s[1..], ignoreCase);
    }
  }

  /** A prefix without backticks is kept as it is. */
  lemma {:induction false} StripFencesPrefix(x: string, y: string, ignoreCase: bool)
    requires '`' !in x
    ensures StripFences(x + y, ignoreCase) == x + StripFences(y, ignoreCase)
  {
    if x == [] {
      assert x + y == y;
    } else {
      var x' := x[1..];
      ConsSplit(x, y);
      NotInTail(x, '`');
      StripFencesPrefix(x', y, ignoreCase);
      StripFencesCons(x[0], x' + y, ignoreCase);
    }
  }

  lemma ConsSplit(x: string, y: string)
    requires x != []
    ensures x == [x[0]] + x[1..] && x + y == [x[0]] + (x[1..] + y)
  {
  }

  lemma NotInTail(x: string, c: char)
    requires x != [] && c !in x
    ensures c !in x[1..]
  {
    forall k | 0 <= k < |x[1..]| ensures x[1..][k] != c {
      assert x[1..][k] == x[k + 1];
    }
  }

  lemma StripFencesCons(c: char, t: string, ignoreCase: bool)
    requires c != '`'
    ensures StripFences([c] + t, ignoreCase) == [c] + StripFences(t, ignoreCase)
  {
    var s := [c] + t;
    assert s[1..] == t;
    StripFencesKeep(s, ignoreCase);
  }

  // ---------------------------------------------------------------------
  // extractJSON

  /** The cleaned text: fences removed, then trimmed. */
  function Cleaned(text: string): string {
    Trim(StripFences(text, true))
  }

  /** The text handed to `JSON.parse`: when both a '{' and a '}' occur, the
      `substring` between the first '{' and one past the last '}' (which
      swaps its bounds when the last '}' comes first); otherwise the whole
      cleaned text. */
  function ParseInput(t: string): (r: string)
    ensures ('{' !in t || '}' !in t) ==> r == t
    ensures '{' in t && '}' in t && IndexOf(t, '{') <= LastIndexOf(t, '}') ==>
      r == t[IndexOf(t, '{')..LastIndexOf(t, '}') + 1] && r[0] == '{' && r[|r| - 1] == '}'
    ensures '{' in t && '}' in t && LastIndexOf(t, '}') < IndexOf(t, '{') ==>
      r == t[LastIndexOf(t, '}') + 1..IndexOf(t, '{')] && '{' !in r && '}' !in r
  {
    var start := IndexOf(t, '{');
    var end := LastIndexOf(t, '}');
    if start != -1 && end != -1 then
      var r := JsSubstring(t, start, end + 1);
      assert end < start ==> '{' !in r && '}' !in r by {
        if end < start {
          assert r == t[end + 1..start];
          assert forall k :: 0 <= k < |r| ==> r[k] == t[end + 1 + k];
          assert forall k :: 0 <= k < |r| ==> r[k] in t[..start] && r[k] in t[end + 1..] by {
            forall k | 0 <= k < |r|
              ensures r[k] in t[..start] && r[k] in t[end + 1..]
            {
              assert t[..start][end + 1 + k] == r[k];
              assert t[end + 1..][k] == r[k];
            }
          }
        }
      }
      r
    else t
  }

  /** `extractJSON(text)`: never throws; `null` (here `Null`) when parsing
      fails or the parsed value is `null`, otherwise the parsed value. */
  function ExtractJson(text: string, parse: string -> Option<Json>): (r: Json)
    ensures parse(ParseInput(Cleaned(text))).None? ==> r == Null
    ensures parse(ParseInput(Cleaned(text))).Some? ==> r == parse(ParseInput(Cleaned(text))).value
  {
    match parse(ParseInput(Cleaned(text)))
    case Some(j) => j
    case None => Null
  }

  /** Round trip: prose without '{', a fenced JSON object without
      backticks, and prose without '}' extract to exactly what parsing the
      object text gives. */
  lemma ExtractJsonRoundTrip(p1: string, obj: string, p2: string, parse: string -> Option<Json>)
    requires '{' !in p1 && '`' !in p1
    requires |obj| >= 2 && obj[0] == '{' && obj[|obj| - 1] == '}' && '`' !in obj
    requires '}' !in p2 && '`' !in p2
    ensures ExtractJson(p1 + "```json" + obj + "```" + p2, parse)
         == (if parse(obj).Some? then parse(obj).value else Null)
  {
    var p2' := FencesRemoved(p1, obj, p2);
    CleanedSlice(p1, obj, p2');
    assert Cleaned(p1 + "```json" + obj + "```" + p2) == Trim(p1 + obj + p2');
  }

  /** Fence removal on the round-trip text leaves the prose and the object. */
  lemma FencesRemoved(p1: string, obj: string, p2: string) returns (p2': string)
    requires '`' !in p1 && '`' !in obj
    requires '}' !in p2 && '`' !in p2
    ensures StripFences(p1 + "```json" + obj + "```" + p2, true) == p1 + obj + p2'
    ensures '}' !in p2'
  {
    var text := p1 + "```json" + obj + "```" + p2;
    var afterOpen := obj + ("```" + p2);
    assert text == p1 + ("```json" + afterOpen);
    StripFencesPrefix(p1, "```json" + afterOpen, true);
    OpeningFence(afterOpen);
    StripFencesPrefix(obj, "```" + p2, true);
    p2' := ClosingFence(p2);
  }

  /** The opening fence is removed whatever follows it. */
  lemma OpeningFence(z: string)
    ensures StripFences("```json" + z, true) == StripFences(z, true)
  {
    var s := "```json" + z;
    assert s[7..] == z;
    assert s[..3] == "```";
    assert s[3..7] == "json";
    assert ToLower("json") == "json";
  }

  /** Removing the closing fence leaves `p2`, or `p2` without a leading
      "json" when it happens to start with one. */
  lemma ClosingFence(p2: string) returns (p2': string)
    requires '}' !in p2 && '`' !in p2
    ensures StripFences("```" + p2, true) == p2'
    ensures '}' !in p2'
  {
    var s := "```" + p2;
    assert s[..3] == "```";
    if JsonFenceAtStart(s, true) {
      assert s[7..] == p2[4..];
      assert '`' !in p2[4..] && '}' !in p2[4..] by {
        forall k | 0 <= k < |p2[4..]| ensures p2[4..][k] != '`' && p2[4..][k] != '}' {
          assert p2[4..][k] == p2[k + 4];
        }
      }
      StripFencesNoTicks(p2[4..], true);
      p2' := p2[4..];
    } else {
      assert s[3..] == p2;
      StripFencesNoTicks(p2, true);
      p2' := p2;
    }
  }

  /** Trimming a text whose middle part starts and ends with non-space
      characters keeps all of that part. */
  lemma TrimKeepsMiddle(p1: string, obj: string, p2: string) returns (lo: nat, hi: nat)
    requires |obj| >= 1 && !IsJsSpace(obj[0]) && !IsJsSpace(obj[|obj| - 1])
    ensures lo <= |p1| && |p1| + |obj| <= hi <= |p1 + obj + p2|
    ensures Trim(p1 + obj + p2) == (p1 + obj + p2)[lo..hi]
  {
    var u := p1 + obj + p2;
    var a := TrimStart(u);
    var t := TrimEnd(a);
    lo := |u| - |a|;
    assert u[|p1|] == obj[0];
    hi := lo + |t|;
    assert a[|p1| + |obj| - 1 - lo] == u[|p1| + |obj| - 1] == obj[|obj| - 1];
    assert t == u[lo..hi];
  }

  /** After trimming, the first '{' and the last '}' are the ends of the
      object, so the slice handed to the parser is the object text. */
  lemma CleanedSlice(p1: string, obj: string, p2: string)
    requires '{' !in p1
    requires |obj| >= 2 && obj[0] == '{' && obj[|obj| - 1] == '}'
    requires '}' !in p2
    ensures ParseInput(Trim(p1 + obj + p2)) == obj
  {
    var lo, hi := TrimKeepsMiddle(p1, obj, p2);
    var t, i, j := ObjectInTrimmed(p1, obj, p2, lo, hi);
    IndexOfIsFirst(t, '{', i);
    LastIndexOfIsLast(t, '}', j);
    ParseInputSlice(t, i, j);
  }

  /** The shape `CleanedSlice` reasons about, as plain facts on indices. */
  lemma ObjectInTrimmed(p1: string, obj: string, p2: string, lo: nat, hi: nat) returns (t: string, i: nat, j: nat)
    requires '{' !in p1
    requires |obj| >= 2 && obj[0] == '{' && obj[|obj| - 1] == '}'
    requires '}' !in p2
    requires lo <= |p1| && |p1| + |obj| <= hi <= |p1 + obj + p2|
    ensures t == (p1 + obj + p2)[lo..hi]
    ensures i <= j < |t| && t[i] == '{' && t[j] == '}'
    ensures forall m :: 0 <= m < i ==> t[m] != '{'
    ensures forall m :: j < m < |t| ==> t[m] != '}'
    ensures t[i..j + 1] == obj
  {
    var u := p1 + obj + p2;
    t := u[lo..hi];
    i := |p1| - lo;
    j := |p1| + |obj| - 1 - lo;
    forall m | 0 <= m < i ensures t[m] != '{' {
      assert t[m] == p1[lo + m];
    }
    forall m | j < m < |t| ensures t[m] != '}' {
      assert t[m] == p2[lo + m - |p1| - |obj|];
    }
    assert t[i..j + 1] == u[|p1|..|p1| + |obj|];
  }

  lemma ParseInputSlice(t: string, i: nat, j: nat)
    requires i <= j < |t|
    requires IndexOf(t, '{') == i && LastIndexOf(t, '}') == j
    ensures ParseInput(t) == t[i..j + 1]
  {
    assert t[i] == '{' && t[j] == '}';
    assert JsSubstring(t, i, j + 1) == t[i..j + 1];
  }

  lemma IndexOfIsFirst(t: string, c: char, i: nat)
    requires i < |t| && t[i] == c
    requires forall m :: 0 <= m < i ==> t[m] != c
    ensures IndexOf(t, c) == i
  {
  }

  lemma LastIndexOfIsLast(t: string, c: char, j: nat)
    requires j < |t| && t[j] == c
    requires forall m :: j < m < |t| ==> t[m] != c
    ensures LastIndexOf(t, c) == j
  {
  }

  // ---------------------------------------------------------------------
  // fetchYoutubeVideoId

  /** What `fetchYoutubeVideoId` returns for a first search item.  A field
      the item lacks is `None` (`undefined`). */
  datatype VideoData = VideoData(videoId: Option<Json>, watchUrl: string, title: Option<Json>, thumbnailUrl: Option<Json>)

  /** The fields of the first item; reading through a missing or `null`
      intermediate object throws. */
  function ItemFields(first: Json): (r: Result<VideoData>)
    ensures r.Ok? ==> r.value.watchUrl == WatchPrefix + TemplateStr(r.value.videoId)
  {
    var id := Get(first, "id");
    var snippet := Get(first, "snippet");
    if first == Null || Nullish(id) || Nullish(snippet) then Err("TypeError")
    else
      var thumbnails := Get(snippet.value, "thumbnails");
      if Nullish(thumbnails) then Err("TypeError")
      else
        var default := Get(thumbnails.value, "default");
        if Nullish(default) then Err("TypeError")
        else
          var videoId := Get(id.value, "videoId");
          Ok(VideoData(videoId, WatchPrefix + TemplateStr(videoId), Get(snippet.value, "title"), Get(default.value, "url")))
  }

  /** `fetchYoutubeVideoId` on the search reply `data` (`None` when the
      request failed, was not ok or did not carry JSON).  Only a non-empty
      array has a first item; on a non-empty string `data[0].id` is
      `undefined` and reading `videoId` from it throws, which is caught. */
  function ShapeVideo(data: Option<Json>): (r: Option<VideoData>)
    ensures r.Some? ==> data.Some? && data.value.Arr? && |data.value.items| > 0
    ensures r.Some? <==> data.Some? && data.value.Arr? && |data.value.items| > 0 && ItemFields(data.value.items[0]).Ok?
  {
    if data.Some? && data.value.Arr? && |data.value.items| > 0 then
      match ItemFields(data.value.items[0])
      case Ok(v) => Some(v)
      case Err(_) => None
    else None
  }

  /** A well-formed first search item yields exactly its id, title and
      thumbnail, and the watch URL of the id. */
  lemma ShapeVideoOfItem(item: Json, id: Json, snippet: Json, thumbnails: Json, default: Json, rest: seq<Json>)
    requires Get(item, "id") == Some(id) && Get(id, "videoId").Some?
    requires Get(item, "snippet") == Some(snippet) && Get(snippet, "thumbnails") == Some(thumbnails)
    requires Get(thumbnails, "default") == Some(default) && default.Obj?
    ensures ShapeVideo(Some(Arr([item] + rest)))
         == Some(VideoData(Get(id, "videoId"), WatchPrefix + TemplateStr(Get(id, "videoId")),
                           Get(snippet, "title"), Get(default, "url")))
  {
    assert ([item] + rest)[0] == item;
  }

  /** With an 11-character id the stored watch URL gives the id back. */
  lemma ShapeVideoIdRoundTrip(data: Option<Json>)
    requires ShapeVideo(data).Some?
    requires ShapeVideo(data).value.videoId.Some? && ShapeVideo(data).value.videoId.value.Str?
    requires IsVideoId(ShapeVideo(data).value.videoId.value.s)
    ensures YouTubeId.Extract(ShapeVideo(data).value.watchUrl) == Some(ShapeVideo(data).value.videoId.value.s)
  {
    var id := ShapeVideo(data).value.videoId.value.s;
    WatchUrlRoundTrip(id, "");
    assert WatchUrl(id) + "" == WatchUrl(id);
  }

  // ---------------------------------------------------------------------
  // The per-chapter map of POST

  const VideoKeys: set<string> := {"videoId", "videoWatchUrl", "videoTitle", "videoThumbnailUrl"}

  /** `o.k = v` followed by JSON serialisation: a key assigned `undefined`
      is dropped. */
  function Assign(m: map<string, Json>, k: string, v: Option<Json>): (r: map<string, Json>)
    ensures forall k' :: k' != k ==> (k' in r <==> k' in m) && (k' in m ==> r[k'] == m[k'])
    ensures (k in r) == v.Some? && (v.Some? ==> r[k] == v.value)
  {
    if v.Some? then m[k := v.value] else m - {k}
  }

  /** Attaching the video fields to the parsed reply.  Properties set on an
      array do not survive serialisation; setting a property on any other
      value (a primitive) throws in a module's strict mode. */
  function AttachVideo(parsed: Json, video: Option<VideoData>): (r: Result<Json>)
    ensures video.None? ==> r == Ok(parsed)
    ensures video.Some? && parsed.Arr? ==> r == Ok(parsed)
    ensures video.Some? && !IsObjectLike(parsed) ==> r.Err?
    ensures video.Some? && parsed.Obj? ==> r.Ok? && r.value.Obj?
    ensures video.Some? && parsed.Obj? ==>
      && Get(r.value, "videoId") == video.value.videoId
      && Get(r.value, "videoWatchUrl") == Some(Str(video.value.watchUrl))
      && Get(r.value, "videoTitle") == video.value.title
      && Get(r.value, "videoThumbnailUrl") == video.value.thumbnailUrl
    ensures video.Some? && parsed.Obj? ==>
      forall k :: k !in VideoKeys ==> Get(r.value, k) == Get(parsed, k)
  {
    if video.None? then Ok(parsed)
    else
      match parsed
      case Obj(m) =>
        var v := video.value;
        Ok(Obj(Assign(Assign(Assign(Assign(m, "videoId", v.videoId),
          "videoWatchUrl", Some(Str(v.watchUrl))), "videoTitle", v.title), "videoThumbnailUrl", v.thumbnailUrl)))
      case Arr(_) => Ok(parsed)
      case _ => Err("TypeError")
  }

  /** `<h2>${t}</h2><p>Content unavailable.</p>`. */
  function PlaceholderContent(t: Json): string {
    "<h2>" + JsString(t) + "</h2><p>Content unavailable.</p>"
  }

  function PlaceholderTopic(t: Json): Json {
    Obj(map["topic" := t, "content" := Str(PlaceholderContent(t))])
  }

  /** The fallback entry when the reply does not parse.  `chapter.topics.map`
      throws unless `topics` is an array; a `chapterName` that is
      `undefined` is dropped by serialisation. */
  function Placeholder(chapter: Json): (r: Result<Json>) {
    match Get(chapter, "topics")
    case Some(Arr(ts)) =>
      var topics := Arr(seq(|ts|, i requires 0 <= i < |ts| => PlaceholderTopic(ts[i])));
      Ok(Obj(Assign(map["topics" := topics], "chapterName", Get(chapter, "chapterName"))))
    case _ => Err("TypeError")
  }

  /** The placeholder keeps the chapter name and has one entry per topic, in
      order, and no video fields. */
  lemma PlaceholderShape(chapter: Json)
    ensures Placeholder(chapter).Ok? <==> Get(chapter, "topics").Some? && Get(chapter, "topics").value.Arr?
    ensures Placeholder(chapter).Ok? ==>
      var r := Placeholder(chapter).value;
      var ts := Get(chapter, "topics").value.items;
      && r.Obj?
      && Get(r, "chapterName") == Get(chapter, "chapterName")
      && r.fields.Keys * VideoKeys == {}
      && Get(r, "topics").Some? && Get(r, "topics").value.Arr?
      && |Get(r, "topics").value.items| == |ts|
      && forall i :: 0 <= i < |ts| ==>
           Get(Get(r, "topics").value.items[i], "topic") == Some(ts[i])
           && Get(Get(r, "topics").value.items[i], "content") == Some(Str(PlaceholderContent(ts[i])))
  {
  }

  /** The query `${chapter.chapterName} tutorial`. */
  function VideoQuery(chapter: Json): string {
    TemplateStr(Get(chapter, "chapterName")) + " tutorial"
  }

  /** One chapter of the map, given the outcome of `generateWithRetry`.
      Building the prompt reads `chapter.chapterName`, which throws on a
      `null` chapter; no response or an empty text throws; only a parse
      failure (a falsy extraction) falls back to the placeholder. */
  function ChapterEntry(chapter: Json, reply: RetryResult, parse: string -> Option<Json>,
                        search: string -> Option<Json>): (r: Result<Json>)
  {
    if chapter == Null then Err("TypeError")
    else
      match reply
      case Thrown(status) => Err(status)
      case NoResponse => Err("no text content")
      case Returned(text) =>
        if text == "" then Err("no text content") else TextEntry(chapter, text, parse, search)
  }

  /** A chapter whose model reply has text. */
  function TextEntry(chapter: Json, text: string, parse: string -> Option<Json>,
                     search: string -> Option<Json>): Result<Json>
  {
    var parsed := ExtractJson(text, parse);
    if !Truthy(parsed) then Placeholder(chapter)
    else AttachVideo(parsed, ShapeVideo(search(VideoQuery(chapter))))
  }

  /** A model error, or a reply with no text, fails the chapter; a parse
      failure never does when the chapter has topics. */
  lemma ChapterFailures(chapter: Json, reply: RetryResult, parse: string -> Option<Json>,
                        search: string -> Option<Json>)
    ensures reply.Thrown? || reply.NoResponse? || reply == Returned("") || chapter == Null ==>
      ChapterEntry(chapter, reply, parse, search).Err?
    ensures reply.Returned? && reply.text != "" && chapter != Null && !Truthy(ExtractJson(reply.text, parse)) ==>
      ChapterEntry(chapter, reply, parse, search) == Placeholder(chapter)
  {
  }

  /** A parsed object gets the video fields exactly when the search has a
      first item; everything else of the object is kept. */
  lemma ChapterVideo(chapter: Json, text: string, parse: string -> Option<Json>,
                     search: string -> Option<Json>)
    requires chapter != Null && text != "" && ExtractJson(text, parse).Obj?
    ensures var r := ChapterEntry(chapter, Returned(text), parse, search);
      var parsed := ExtractJson(text, parse);
      var v := ShapeVideo(search(VideoQuery(chapter)));
      && r.Ok? && r.value.Obj?
      && (v.None? ==> r.value == parsed)
      && (v.Some? ==> Get(r.value, "videoWatchUrl") == Some(Str(WatchPrefix + TemplateStr(v.value.videoId))))
      && (forall k :: k !in VideoKeys ==> Get(r.value, k) == Get(parsed, k))
  {
    var parsed := ExtractJson(text, parse);
    var v := ShapeVideo(search(VideoQuery(chapter)));
    assert Truthy(parsed);
    assert ChapterEntry(chapter, Returned(text), parse, search) == AttachVideo(parsed, v);
  }

  // ---------------------------------------------------------------------
  // Promise.all and the route

  /** `Promise.all` over settled entries: all values in order, or a
      rejection. */
  function All(rs: seq<Result<Json>>): (r: Result<seq<Json>>)
    ensures r.Ok? <==> forall i :: 0 <= i < |rs| ==> rs[i].Ok?
    ensures r.Ok? ==> |r.value| == |rs| && forall i :: 0 <= i < |rs| ==> rs[i] == Ok(r.value[i])
  {
    if rs == [] then Ok([])
    else
      match rs[0]
      case Err(e) => Err(e)
      case Ok(v) =>
        match All(rs[1..])
        case Err(e) => Err(e)
        case Ok(vs) =>
          assert forall i :: 1 <= i < |rs| ==> rs[i] == rs[1..][i - 1];
          Ok([v] + vs)
  }

  /** `courseJson.chapters` when the body has it as an array. */
  function Chapters(body: Json): (r: Option<seq<Json>>)
    ensures r.Some? <==> Get(body, "courseJson").Some? && Get(body, "courseJson").value.Obj?
                         && Get(Get(body, "courseJson").value, "chapters").Some?
                         && Get(Get(body, "courseJson").value, "chapters").value.Arr?
  {
    match Get(body, "courseJson")
    case Some(cj) =>
      (match Get(cj, "chapters")
       case Some(Arr(cs)) => Some(cs)
       case _ => None)
    case None => None
  }

  /** The entry of every chapter, chapter `i` talking to model `call(i)`. */
  function Entries(chapters: seq<Json>, call: nat -> nat -> Outcome, parse: string -> Option<Json>,
                   search: string -> Option<Json>): (r: seq<Result<Json>>)
    ensures |r| == |chapters|
  {
    EntriesBelow(chapters, call, parse, search, |chapters|)
  }

  /** The entry of chapter `i`, whose model is `call(i)` behind the
      default three attempts. */
  function Entry(chapters: seq<Json>, call: nat -> nat -> Outcome, parse: string -> Option<Json>,
                 search: string -> Option<Json>, i: nat): Result<Json>
    requires i < |chapters|
  {
    ChapterEntry(chapters[i], Retry(call(i), 3), parse, search)
  }

  /** The entries of the chapters before `n`. */
  function EntriesBelow(chapters: seq<Json>, call: nat -> nat -> Outcome, parse: string -> Option<Json>,
                        search: string -> Option<Json>, n: nat): (r: seq<Result<Json>>)
    requires n <= |chapters|
    ensures |r| == n
  {
    if n == 0 then []
    else EntriesBelow(chapters, call, parse, search, n - 1) + [Entry(chapters, call, parse, search, n - 1)]
  }

  lemma EntryAt(chapters: seq<Json>, call: nat -> nat -> Outcome, parse: string -> Option<Json>,
                search: string -> Option<Json>, i: nat)
    requires i < |chapters|
    ensures Entries(chapters, call, parse, search)[i] == Entry(chapters, call, parse, search, i)
  {
    EntryBelowAt(chapters, call, parse, search, |chapters|, i);
  }

  lemma {:induction false} EntryBelowAt(chapters: seq<Json>, call: nat -> nat -> Outcome,
                                        parse: string -> Option<Json>, search: string -> Option<Json>,
                                        n: nat, i: nat)
    requires i < n <= |chapters|
    ensures EntriesBelow(chapters, call, parse, search, n)[i] == Entry(chapters, call, parse, search, i)
    decreases n
  {
    if i < n - 1 {
      EntryBelowAt(chapters, call, parse, search, n - 1, i);
    }
  }

  /** What the route answers: a status and, on success, the content list. */
  datatype Response = Response(status: nat, content: seq<Json>)

  /** The answer of `POST` for a request body (`None` when it is not JSON,
      whose `req.json()` throws; destructuring `null` throws too). */
  function PostResult(body: Option<Json>, hasKey: bool, call: nat -> nat -> Outcome,
                      parse: string -> Option<Json>, search: string -> Option<Json>): (r: Response)
  {
    if body.None? || body.value == Null then Response(500, [])
    else
      match Chapters(body.value)
      case None => Response(400, [])
      case Some(chapters) =>
        if !hasKey then Response(500, [])
        else
          match All(Entries(chapters, call, parse, search))
          case Ok(content) => Response(200, content)
          case Err(_) => Response(500, [])
  }

  /** The number of model calls the chapters before `n` make; building the
      prompt of a `null` chapter throws before its call. */
  function TotalCalls(chapters: seq<Json>, call: nat -> nat -> Outcome, n: nat): nat
    requires n <= |chapters|
  {
    if n == 0 then 0
    else TotalCalls(chapters, call, n - 1) + ChapterCalls(chapters[n - 1], call(n - 1))
  }

  function ChapterCalls(chapter: Json, call: nat -> Outcome): nat {
    if chapter == Null then 0 else Calls(call, DefaultRetries)
  }

  /** The row the write targets: `courseId` when it is a string. */
  function CourseIdOf(body: Json): Option<string> {
    match Get(body, "courseId")
    case Some(Str(cid)) => Some(cid)
    case _ => None
  }

  /** The table after a successful `POST`. */
  function Written(rows: seq<Course>, body: Json, content: seq<Json>): seq<Course> {
    match CourseIdOf(body)
    case Some(cid) => UpdateWhereCid(rows, cid, map["coursesContent" := Arr(content)])
    case None => rows
  }

  /** One chapter: the model is called unless building the prompt has
      already thrown. */
  method ProcessChapter(chapter: Json, call: nat -> Outcome, parse: string -> Option<Json>,
                        search: string -> Option<Json>)
    returns (entry: Result<Json>, calls: nat)
    ensures entry == ChapterEntry(chapter, Retry(call, DefaultRetries), parse, search)
    ensures calls == ChapterCalls(chapter, call)
  {
    if chapter == Null {
      return Err("TypeError"), 0;
    }
    var reply, waited;
    reply, calls, waited := GenerateWithRetry(call, DefaultRetries, DefaultDelay);
    entry := ChapterEntry(chapter, reply, parse, search);
  }

  /** The chapter map and `Promise.all`: the chapters are processed one
      after the other, all of them, as `Promise.all` starts every chapter
      before any settles. */
  method ProcessChapters(chapters: seq<Json>, call: nat -> nat -> Outcome,
                         parse: string -> Option<Json>, search: string -> Option<Json>)
    returns (ok: bool, content: seq<Json>, calls: nat)
    ensures ok == All(Entries(chapters, call, parse, search)).Ok?
    ensures ok ==> content == All(Entries(chapters, call, parse, search)).value
    ensures calls == TotalCalls(chapters, call, |chapters|)
  {
    ghost var es := Entries(chapters, call, parse, search);
    content := [];
    calls := 0;
    var failed := false;
    var i := 0;
    while i < |chapters|
      invariant 0 <= i <= |chapters|
      invariant failed <==> exists j :: 0 <= j < i && es[j].Err?
      invariant !failed ==> |content| == i && forall j :: 0 <= j < i ==> es[j] == Ok(content[j])
      invariant calls == TotalCalls(chapters, call, i)
    {
      var entry, c := ProcessChapter(chapters[i], call(i), parse, search);
      EntryAt(chapters, call, parse, search, i);
      calls := calls + c;
      if entry.Err? {
        failed := true;
      } else if !failed {
        AppendOk(es, content, entry.value);
        content := content + [entry.value];
      }
      i := i + 1;
    }
    ok := !failed;
    if ok {
      var all := All(es).value;
      assert |all| == |content|;
      assert forall j :: 0 <= j < |content| ==> all[j] == content[j];
    }
  }

  lemma AppendOk(es: seq<Result<Json>>, content: seq<Json>, v: Json)
    requires |content| < |es| && es[|content|] == Ok(v)
    requires forall j :: 0 <= j < |content| ==> es[j] == Ok(content[j])
    ensures forall j :: 0 <= j < |content| + 1 ==> es[j] == Ok((content + [v])[j])
  {
  }

  /** `POST /api/generate-course-content`: the content is written only when
      every chapter succeeded. */
  method Post(db: Db, body: Option<Json>, hasKey: bool, call: nat -> nat -> Outcome,
              parse: string -> Option<Json>, search: string -> Option<Json>)
    returns (res: Response, calls: nat)
    modifies db
    ensures res == PostResult(body, hasKey, call, parse, search)
    ensures db.courses == if res.status == 200 then Written(old(db.courses), body.value, res.content) else old(db.courses)
    ensures calls == if res.status == 400 || body.None? || body.value == Null || !hasKey then 0
                     else TotalCalls(Chapters(body.value).value, call, |Chapters(body.value).value|)
    ensures db.enrolments == old(db.enrolments) && db.users == old(db.users)
    ensures db.nextEnrolmentId == old(db.nextEnrolmentId) && db.nextUserId == old(db.nextUserId)
  {
    if body.None? || body.value == Null {
      return Response(500, []), 0;
    }
    var found := Chapters(body.value);
    if found.None? {
      return Response(400, []), 0;
    }
    if !hasKey {
      return Response(500, []), 0;
    }
    var ok, content;
    ok, content, calls := ProcessChapters(found.value, call, parse, search);
    if !ok {
      return Response(500, []), calls;
    }
    res := Response(200, content);
    var cid := CourseIdOf(body.value);
    if cid.Some? {
      var updated := db.UpdateCourses(cid.value, map["coursesContent" := Arr(content)]);
    }
  }

  /** A body without an array `courseJson.chapters` is rejected with 400. */
  lemma BadChaptersRejected(body: Json, hasKey: bool, call: nat -> nat -> Outcome,
                            parse: string -> Option<Json>, search: string -> Option<Json>)
    requires body != Null && Chapters(body).None?
    ensures PostResult(Some(body), hasKey, call, parse, search).status == 400
  {
  }

  /** The request succeeds exactly when every chapter does, and then the
      content has one entry per chapter, in chapter order. */
  lemma PostSucceedsIffEveryChapter(body: Json, call: nat -> nat -> Outcome,
                                    parse: string -> Option<Json>, search: string -> Option<Json>)
    requires body != Null && Chapters(body).Some?
    ensures var chapters := Chapters(body).value;
      var r := PostResult(Some(body), true, call, parse, search);
      && (r.status == 200 <==> forall i :: 0 <= i < |chapters| ==>
            ChapterEntry(chapters[i], Retry(call(i), 3), parse, search).Ok?)
      && (r.status != 200 ==> r.status == 500)
      && (r.status == 200 ==> |r.content| == |chapters| && forall i :: 0 <= i < |chapters| ==>
            ChapterEntry(chapters[i], Retry(call(i), 3), parse, search) == Ok(r.content[i]))
  {
    var chapters := Chapters(body).value;
    var es := Entries(chapters, call, parse, search);
    forall i | 0 <= i < |chapters|
      ensures es[i] == ChapterEntry(chapters[i], Retry(call(i), 3), parse, search)
    {
      EntryAt(chapters, call, parse, search, i);
    }
  }

  /** One chapter whose model keeps failing, or answers with no text, fails
      the whole request. */
  lemma OneFailedChapterFailsAll(body: Json, call: nat -> nat -> Outcome,
                                 parse: string -> Option<Json>, search: string -> Option<Json>, i: nat)
    requires body != Null && Chapters(body).Some? && i < |Chapters(body).value|
    requires Retry(call(i), 3).Thrown? || Retry(call(i), 3) == Returned("")
    ensures PostResult(Some(body), true, call, parse, search).status == 500
  {
    var chapters := Chapters(body).value;
    ChapterFailures(chapters[i], Retry(call(i), 3), parse, search);
    EntryAt(chapters, call, parse, search, i);
    assert Entries(chapters, call, parse, search)[i].Err?;
  }

  /** The write sets `coursesContent` of the rows with the given cid and
      nothing else. */
  lemma WriteTouchesOnlyContent(rows: seq<Course>, body: Json, content: seq<Json>)
    ensures |Written(rows, body, content)| == |rows|
    ensures forall i :: 0 <= i < |rows| ==>
      var w := Written(rows, body, content)[i];
      && w.id == rows[i].id && w.cid == rows[i].cid
      && (CourseIdOf(body) == Some(rows[i].cid) ==> w.cols == rows[i].cols["coursesContent" := Arr(content)])
      && (CourseIdOf(body) != Some(rows[i].cid) ==> w == rows[i])
  {
  }
}
