# AI online-learning platform: a verified model of its core

The platform generates online courses with a language model and lets
learners enrol in them and follow their progress.

- **Generating a course.** A learner fills in a three-step wizard (name and
  description; category and level; number of chapters and videos). The
  layout route then asks the model for a course layout. It stores the
  layout and a banner image, and removes video links that do not answer.
- **Generating the content.** The content route asks the model for the text
  of every chapter, attaches a YouTube video to each chapter, and stores
  the result.
- **Repairing video links.** Two maintenance scripts walk the stored
  layouts and repair or fill in the chapters' video links.
- **Enrolment and progress.** Learners enrol in courses and mark chapters
  as completed. The pages show progress percentages, statistics,
  durations, filters and banners derived from those records.

The model is written in Dafny. There is one module per source file of the
core, plus a few shared modules:

- `Wrappers`: `Option` and `Result`.
- `Json`: JavaScript values as `Null | Bool | Num | Str | Arr | Obj`, with
  `undefined` as `None`. It also holds truthiness, `||` and `??`, template
  strings, trimming, lower-casing and decimal printing.
- `JsMath`: `Math.round`, `Math.floor` and `Math.ceil` on integers.
- `YouTubeId`: the unanchored YouTube id pattern shared by the scripts and
  the layout route.
- `ModelRetry`: `generateWithRetry`, which is the same in both generation
  routes.
- `VideoSearch`: what the two repair scripts share.
- `Store`: the database tables, as a class whose methods are the queries
  the routes run.

**External services are parameters.** Each one is a function passed to the
operation that uses it:

| Service | Parameter |
|---|---|
| The model | `call(i)`, the outcome of attempt `i` |
| `JSON.parse` | `parse`, a partial function |
| The image service | `image` |
| The HEAD probe | `probe`, a status code or nothing |
| The YouTube search and status services | `search` and `status` |
| The wizard's two requests | `layout` and `content` |
| `encodeURIComponent` | `encode` |

**How the source's form is kept.**

- Code that changes things in place is a method with loop invariants, proved
  equal to a function that specifies it:
  - retry loop;
  - per-chapter loops of both routes and both scripts;
  - row loops of the scripts;
  - table updates;
  - wizard, course card and course browser state.
- Expressions, `map`, `filter` and `reduce` are functions.

**Error paths.** JavaScript's errors are modelled where the source can raise
them: a property read on `null`, a missing method, or a property assignment
on a primitive in strict mode. Each is an `Err` result, or the 500 answer
that the route's `catch` turns it into.

## Model

| member | source | states |
|---|---|---|
| ModelRetry.GenerateWithRetry | app/api/generate-course-content/route.jsx:30-45 | The loop's result is `Retry(call, retries)`, its call count is `Calls(call, retries)`, and it waits one `delay` before every retry |
| ModelRetry.StopFrom | app/api/generate-course-content/route.jsx:31-43 | The attempt that ends the loop is within the allowed attempts; every attempt before it is an "UNAVAILABLE" failure; it is either the last allowed attempt or not a busy failure |
| ModelRetry.CallBound | app/api/generate-course-content/route.jsx:30-31 | At most `retries` model calls are made, and none exactly when `retries` is 0 |
| ModelRetry.OnlyBusyIsRetried | app/api/generate-course-content/route.jsx:37-42 | Every attempt before the last failed with "UNAVAILABLE", and the last attempt's reply or error is what the loop returns or throws |
| ModelRetry.OtherErrorsThrowImmediately | app/api/generate-course-content/route.jsx:37-42 | The first error other than "UNAVAILABLE" is rethrown at once, after exactly that many calls |
| ModelRetry.ReplyReturnedImmediately | app/api/generate-course-content/route.jsx:33-34 | The first reply is returned at once, after exactly that many calls |
| ModelRetry.StopIsFirstNonBusy | app/api/generate-course-content/route.jsx:31-43 | The stopping attempt is the first one that is not an "UNAVAILABLE" failure |
| ModelRetry.AlwaysBusy | app/api/generate-course-layout/route.jsx:43-57 | A model that is busy on every attempt is called exactly `retries` times, and "UNAVAILABLE" is finally thrown |
| ModelRetry.DefaultsAlwaysBusy | app/api/generate-course-layout/route.jsx:43 | With the defaults (3 attempts, 3000 ms), a busy model costs three calls and 6000 ms of waiting |
| CourseContentRoute.FenceLength | app/api/generate-course-content/route.jsx:50 | The marker at a position is "```json" (7 characters), "```" (3) or absent; it starts with a backtick |
| CourseContentRoute.StripFences | app/api/generate-course-content/route.jsx:50 | The global marker replacement never lengthens the text |
| CourseContentRoute.StripFencesStep | app/api/generate-course-content/route.jsx:50 | Where no marker starts, the character is kept and the scan moves on |
| CourseContentRoute.StripFencesKeep | app/api/generate-course-content/route.jsx:50 | A character other than a backtick is always kept |
| CourseContentRoute.KeptTickAlone | app/api/generate-course-content/route.jsx:50 | A kept backtick is not followed by two more backticks in the result |
| CourseContentRoute.StripFencesNoFence | app/api/generate-course-content/route.jsx:50 | No "```" is left after the replacement, not even one formed across a removed marker |
| CourseContentRoute.StripFencesNoTicks | app/api/generate-course-content/route.jsx:50 | Text without backticks passes through unchanged |
| CourseContentRoute.StripFencesPrefix | app/api/generate-course-content/route.jsx:50 | A prefix without backticks is kept verbatim in front of the rest's result |
| CourseContentRoute.ParseInput | app/api/generate-course-content/route.jsx:51-55 | Without both braces the whole cleaned text is parsed; otherwise the slice from the first '{' to the last '}' is parsed, and when the last '}' comes first `substring` swaps its bounds |
| CourseContentRoute.ExtractJsonRoundTrip | app/api/generate-course-content/route.jsx:48-61 | Prose without '{', a fenced object text without backticks, then prose without '}' extract to exactly the parse of the object text |
| CourseContentRoute.FencesRemoved | app/api/generate-course-content/route.jsx:50 | Removing the markers of the round-trip text leaves the prose, the object text and prose still without '}' |
| CourseContentRoute.OpeningFence | app/api/generate-course-content/route.jsx:50 | The opening "```json" is removed whatever follows it |
| CourseContentRoute.ClosingFence | app/api/generate-course-content/route.jsx:50 | Removing the closing "```" leaves text without '}' |
| CourseContentRoute.TrimKeepsMiddle | app/api/generate-course-content/route.jsx:50 | Trimming keeps all of a middle part that starts and ends with non-space characters |
| CourseContentRoute.CleanedSlice | app/api/generate-course-content/route.jsx:51-55 | After trimming, the first '{' and the last '}' are the ends of the object, so the slice handed to the parser is the object text |
| CourseContentRoute.ObjectInTrimmed | app/api/generate-course-content/route.jsx:51-52 | In the trimmed text the object's '{' is the first '{' and its '}' the last '}' |
| CourseContentRoute.ParseInputSlice | app/api/generate-course-content/route.jsx:53-55 | With the first '{' before the last '}', the parsed slice runs from one to the other inclusive |
| CourseContentRoute.ItemFields | app/api/generate-course-content/route.jsx:71-79 | The fields read from the first search item; the watch URL is the prefix followed by the id as a template string |
| CourseContentRoute.ShapeVideoOfItem | app/api/generate-course-content/route.jsx:70-79 | A well-formed first item yields exactly its id, title and thumbnail, and the watch URL of the id |
| CourseContentRoute.ShapeVideoIdRoundTrip | app/api/generate-course-content/route.jsx:76 | With an 11-character id, the stored watch URL gives the id back through the id pattern |
| CourseContentRoute.Assign | app/api/generate-course-content/route.jsx:153-156 | An assignment changes only its own key, and a key assigned `undefined` is absent after serialisation |
| CourseContentRoute.AttachVideo | app/api/generate-course-content/route.jsx:150-157 | With a video, an object gets exactly the four video fields, every other key is unchanged, an array is unchanged, and a primitive throws; without one, the value is unchanged |
| CourseContentRoute.PlaceholderShape | app/api/generate-course-content/route.jsx:139-148 | The placeholder exists exactly when `topics` is an array. It keeps `chapterName`, has no video fields, and has one `{topic, content: "<h2>t</h2><p>Content unavailable.</p>"}` per topic, in order |
| CourseContentRoute.ChapterFailures | app/api/generate-course-content/route.jsx:112-148 | A model error, no response, an empty text or a `null` chapter fails the chapter; a parse failure gives the placeholder |
| CourseContentRoute.ChapterVideo | app/api/generate-course-content/route.jsx:150-159 | A parsed object gets the watch URL exactly when the "<chapterName> tutorial" search finds a first item, and keeps every other key |
| CourseContentRoute.All | app/api/generate-course-content/route.jsx:162 | `Promise.all` succeeds exactly when every entry does, and then holds all values in order |
| CourseContentRoute.Entries | app/api/generate-course-content/route.jsx:111 | One entry per chapter |
| CourseContentRoute.EntryAt | app/api/generate-course-content/route.jsx:111-160 | Entry `i` is chapter `i`'s result with model `call(i)` |
| CourseContentRoute.ProcessChapter | app/api/generate-course-content/route.jsx:111-160 | One chapter's entry is `ChapterEntry` on the retried model outcome, and the number of model calls is that of the retry loop (none for a `null` chapter) |
| CourseContentRoute.ProcessChapters | app/api/generate-course-content/route.jsx:111-162 | The loop succeeds exactly when `All(Entries(...))` does, with the same content, and it counts every chapter's model calls |
| CourseContentRoute.Post | app/api/generate-course-content/route.jsx:89-183 | The answer is `PostResult`. On 200 the table is `Written` (only the row named by `courseId`), otherwise unchanged. The call count is 0 before the 400 and key checks. Other tables are untouched |
| CourseContentRoute.BadChaptersRejected | app/api/generate-course-content/route.jsx:94-96 | A body without an array `courseJson.chapters` gets 400 |
| CourseContentRoute.PostSucceedsIffEveryChapter | app/api/generate-course-content/route.jsx:111-182 | The route answers 200 exactly when every chapter succeeds, and 500 otherwise; on 200 the content has one entry per chapter, in chapter order |
| CourseContentRoute.OneFailedChapterFailsAll | app/api/generate-course-content/route.jsx:132-135 | One chapter whose model fails or returns no text makes the whole request 500 |
| CourseContentRoute.WriteTouchesOnlyContent | app/api/generate-course-content/route.jsx:165-168 | The write sets only `coursesContent` of the rows whose cid is `courseId`; every other row and column is unchanged |
| CourseLayoutRoute.NormaliseImageCases | app/api/generate-course-layout/route.jsx:84-100 | The image is `null` exactly when there is none. A string of more than 200 base64 characters and spaces becomes the PNG data URI of the text with the whitespace removed. Anything else is returned unchanged |
| CourseLayoutRoute.UrlImageUnchanged | app/api/generate-course-layout/route.jsx:89-96 | A string containing ':' (a URL) is returned unchanged |
| CourseLayoutRoute.CheckAccessible | app/api/generate-course-layout/route.jsx:104-118 | Only a truthy non-string link throws, in `match` |
| CourseLayoutRoute.CheckAccessibleIff | app/api/generate-course-layout/route.jsx:104-118 | A link is accessible exactly when it mentions an 11-character id after a YouTube host and the probe of that id's embed address answers 2xx; without an id it is not |
| CourseLayoutRoute.CheckEmbedUrl | app/api/generate-course-layout/route.jsx:111-114 | The probe of an embed link goes to the embed address of its own id |
| CourseLayoutRoute.CourseValue | app/api/generate-course-layout/route.jsx:157 | `courseJsonValue` is always truthy |
| CourseLayoutRoute.FixChapters | app/api/generate-course-layout/route.jsx:160-163 | An object always ends up with an array `chapters`, kept when it was one and `[]` otherwise, and no other key changes; an array is unchanged; a primitive throws |
| CourseLayoutRoute.UnparsableLayout | app/api/generate-course-layout/route.jsx:148-163 | A reply that does not parse after cleaning becomes exactly `{raw: text, chapters: []}` |
| CourseLayoutRoute.RawLayout | app/api/generate-course-layout/route.jsx:157-163 | `{raw: text}` is kept as it is and gets an empty `chapters` |
| CourseLayoutRoute.WrappedLayout | app/api/generate-course-layout/route.jsx:157 | A truthy `course` wrapper is unwrapped |
| CourseLayoutRoute.CheckChapterFrame | app/api/generate-course-layout/route.jsx:172-184 | A checked chapter differs from the input at most in `videoUrl`, only a truthy link can change, and it can only become `null` |
| CourseLayoutRoute.CheckChapterKeepsAccessible | app/api/generate-course-layout/route.jsx:174-181 | A chapter keeps its link exactly when the link is accessible |
| CourseLayoutRoute.CheckChapters | app/api/generate-course-layout/route.jsx:172-184 | The in-place chapter loop succeeds exactly when every chapter's check does, and gives the checked chapters in order |
| CourseLayoutRoute.Post | app/api/generate-course-layout/route.jsx:121-201 | The answer and the new courses table are `LayoutResult`. There are no model calls for a bad body or a signed-out caller, otherwise those of the retry loop. Other tables are untouched |
| CourseLayoutRoute.SignedOutRejected | app/api/generate-course-layout/route.jsx:127-129 | Without a user the answer is 401 and nothing is written |
| CourseLayoutRoute.NoTextRejected | app/api/generate-course-layout/route.jsx:143-145 | Without model text the answer is 500 and nothing is written |
| CourseLayoutRoute.LayoutWriteFrame | app/api/generate-course-layout/route.jsx:187-191 | The write sets `courseJson` and `bannerImageURL` of the rows whose cid is `courseId`, whether or not one exists, and changes nothing else |
| CourseLayoutRoute.StoredChapters | app/api/generate-course-layout/route.jsx:184-188 | The stored object layout has exactly the checked chapter list, and every other key of the layout |
| YouTubeId.ExtractIff | check-videos.js:106-110 | The pattern finds an id exactly when the text has a YouTube host followed by an optional path prefix and 11 id characters; what it finds is always 11 id characters |
| YouTubeId.ExtractFromSound | check-videos.js:108 | Every match found at or after a position is an id that follows a host at or after that position |
| YouTubeId.ExtractFromComplete | check-videos.js:108 | A host followed by an id at or after the start position is always found |
| YouTubeId.AtHostSound | check-videos.js:108 | A match after a host is an id preceded by that host |
| YouTubeId.AtHostComplete | check-videos.js:108 | A host followed by a path prefix and an id matches at that position |
| YouTubeId.MatchAtSound | check-videos.js:108 | A match anchored at a position lies after some host prefix there |
| YouTubeId.StandardPrefix | check-videos.js:108 | On "https://www.youtube.com/…", the match at the start is decided by the path alone |
| YouTubeId.ExtractFirst | check-videos.js:108 | A match at the first position is what `match` returns |
| YouTubeId.WatchUrlRoundTrip | check-videos.js:51 | The id read from a watch URL built from an 11-character id is that id, also when more text follows |
| YouTubeId.EmbedUrlRoundTrip | check-videos.js:135 | The id read from the stored embed URL is the id it was built from |
| YouTubeId.BarePathCaptured | check-videos.js:108 | Eleven id characters right after the host are captured without a path prefix, whatever follows |
| YouTubeId.NotAVideoPathMatches | check-videos.test.js:17 | "https://www.youtube.com/not-a-video" matches, and yields "not-a-video" |
| YouTubeId.LongIdIsTruncated | check-videos.test.js:20 | An over-long id is cut to its first 11 characters |
| VideoSearch.FindVideoRoundTrip | check-videos.js:49-51 | The id in the first search result is the id the returned URL yields again |
| VideoSearch.FindVideoNone | check-videos-fixed.js:13-35 | No key, no answer or no items give no URL |
| VideoSearch.FindVideoUndefinedId | check-videos.js:51 | A first item without `videoId` gives a URL that ends in "undefined" |
| VideoSearch.ReadLayout | check-videos.js:83-99 | A row is read exactly when its layout (parsed when a string) has an array `chapters`, and the chapters are that array |
| VideoSearch.Collect | check-videos.js:101-143 | The chapter loop's result has one chapter per chapter visited |
| VideoSearch.CollectOk | check-videos.js:101-143 | The chapter loop fails exactly when one chapter fails |
| VideoSearch.CollectValues | check-videos.js:101-143 | Entry `i` is chapter `i`'s new value, and the update flag is set exactly when some chapter was updated |
| VideoSearch.CollectErr | check-videos.js:101-143 | Once a chapter fails, the later chapters do not change the outcome |
| VideoSearch.CollectStep | check-videos-fixed.js:80-95 | Writing one more chapter in place extends the loop's result by that chapter |
| VideoSearch.ApplyBelow | check-videos.js:80-161 | The row loop keeps the table's size |
| VideoSearch.AllSkippedNoWrite | check-videos.js:145-158 | Skipped rows write nothing: all skipped leaves the table as it was |
| VideoSearch.ApplyFrame | check-videos.js:145-158 | Only `courseJson` of rows whose cid was processed can change; ids, cids, other columns and unprocessed rows stay |
| VideoSearch.StoppedStays | check-videos.js:80-161 | Once the script stops on an uncaught error, the later rows change nothing |
| CheckVideos.AvailableIff | check-videos.js:8-29 | A video is available exactly when its first status item is public and embeddable |
| CheckVideos.NotAvailableWithout | check-videos.js:9-11 | Without a key, on an error or with no item, a video is not available |
| CheckVideos.QueryForms | check-videos.js:125 | The query is "<chapterName> <course name>", or the course name when `chapterName` is missing |
| CheckVideos.RepairChapter | check-videos.js:103-143 | A chapter throws exactly when it is `null` or has a truthy non-string link; a chapter that needs no search is unchanged and not counted |
| CheckVideos.Searched | check-videos.js:127-141 | A chapter that is not counted as updated is unchanged |
| CheckVideos.NoIdLeftAlone | check-videos.js:112-122 | A link from which no id can be read is left alone |
| CheckVideos.AvailableKept | check-videos.js:112-122 | A link to an available video is kept |
| CheckVideos.SearchedChapter | check-videos.js:124-142 | After a successful search the chapter holds the watch URL of the result and the embed URL of the same id, and nothing else changes |
| CheckVideos.Steps | check-videos.js:101-143 | One step per chapter, each the repair of that chapter |
| CheckVideos.OutcomeStore | check-videos.js:145-158 | A row is written only when its layout was read and some chapter was updated. The stored layout is an object with the other keys unchanged and a `chapters` array of as many chapters as before, chapter i being chapter i repaired |
| CheckVideos.UpdatedIsStored | check-videos.js:145-158 | Conversely, a readable row with no throwing chapter and one updated chapter is written |
| CheckVideos.UnreadableSkipped | check-videos.js:85-99 | A row without a parsable layout or an array `chapters` is skipped |
| CheckVideos.Outcomes | check-videos.js:80 | One outcome per selected row |
| CheckVideos.RepairChapters | check-videos.js:101-143 | The in-place chapter loop equals `Collect` over the per-chapter steps |
| CheckVideos.ProcessRow | check-videos.js:80-160 | One row's processing is its `Outcome` |
| CheckVideos.Run | check-videos.js:80-161 | The table after the run, and whether the script stopped, are `ApplyBelow` over the rows' outcomes; other tables are untouched |
| CheckVideosFixed.Query | check-videos-fixed.js:85 | The query is a truthy `chapterName`, else the course name |
| CheckVideosFixed.FillChapter | check-videos-fixed.js:80-95 | A chapter throws exactly when it is `null`; a chapter with a link is unchanged and not counted; only `videoUrl` can change |
| CheckVideosFixed.FilledWithWatchUrl | check-videos-fixed.js:83-90 | A chapter without a link gets the watch URL (not the embed URL) of the first result, whose id reads back |
| CheckVideosFixed.NoKeyNoFill | check-videos-fixed.js:14-16 | Without a key nothing is filled |
| CheckVideosFixed.Steps | check-videos-fixed.js:80-95 | One step per chapter, each the fill of that chapter |
| CheckVideosFixed.OutcomeStore | check-videos-fixed.js:97-110 | A stored layout has the same chapters in the same order. A chapter with a link is kept as it was, the others change only in `videoUrl`, and some chapter received a URL |
| CheckVideosFixed.FilledIsStored | check-videos-fixed.js:97-110 | Conversely, a readable row with no `null` chapter and one filled chapter is written |
| CheckVideosFixed.SkippedRows | check-videos-fixed.js:60-76 | A row that is unreadable, or whose chapters all have links, is skipped |
| CheckVideosFixed.Outcomes | check-videos-fixed.js:57 | One outcome per selected row |
| CheckVideosFixed.FillChapters | check-videos-fixed.js:80-95 | The in-place chapter loop equals `Collect` over the per-chapter steps |
| CheckVideosFixed.ProcessRow | check-videos-fixed.js:57-112 | One row's processing is its `Outcome` |
| CheckVideosFixed.Run | check-videos-fixed.js:57-113 | The table after the run, and whether the script stopped, are `ApplyBelow` over the rows' outcomes; other tables are untouched |
| Store.SetColumns | config/schema.js:11-22 | Updating a row keeps its id and cid; a row with another cid is unchanged; the named columns get their new values and the others keep theirs |
| Store.UpdateWhereCid | app/api/generate-course-content/route.jsx:165-168 | `UPDATE … WHERE cid` updates every row whose cid matches, and keeps the table's size |
| Store.WithCid | app/api/generate-course-layout/route.jsx:187-191 | `RETURNING` reports exactly the rows whose cid matched |
| Store.UpdateIdempotent | app/api/generate-course-content/route.jsx:165-168 | Setting the same columns twice is the same as once |
| Store.DisjointUpdatesCommute | app/api/generate-course-layout/route.jsx:187-191 | The layout route's and the content route's writes touch disjoint columns, so they commute |
| Store.EnrolmentsOf | app/api/enroll-course/route.jsx:39-45 | The enrolments of a (user, course) pair are exactly the table's rows with that email and cid |
| Store.EnrolmentsOfUser | app/api/enroll-course/route.jsx:95 | A user's enrolments are exactly the rows with that email |
| Store.EnrolmentsOfUserConcat | app/api/enroll-course/route.jsx:95 | Selecting keeps table order: the enrolments in two stacked tables are those of the first, then those of the second |
| Store.EnrolmentsOfAppend | app/api/enroll-course/route.jsx:49-56 | An appended row joins the pair's rows exactly when it matches |
| Store.UsersWithEmail | app/api/user/route.jsx:14 | The users with an email are exactly the rows with it |
| Store.UsersWithEmailAppend | app/api/user/route.jsx:17-20 | An appended user joins those with its email exactly when it has it |
| Store.SetCompleted | app/api/enroll-course/route.jsx:121-132 | Only `completedChapters` of the rows of the (course, user) pair is replaced; every other row and field is unchanged |
| Store.Db.constructor | config/schema.js:4-22 | A database with the given courses and empty enrolment and user tables |
| Store.Db.UpdateCourses | app/api/generate-course-layout/route.jsx:187-191 | The courses table becomes `UpdateWhereCid`, the answer is the matching rows, and nothing else changes |
| Store.Db.InsertEnrolment | app/api/enroll-course/route.jsx:49-56 | Exactly one row with the next identity value is appended; ids keep increasing |
| Store.Db.UpdateEnrolments | app/api/enroll-course/route.jsx:121-132 | The enrolment table becomes `SetCompleted`, the answer is the pair's rows, and nothing else changes |
| Store.Db.InsertUser | app/api/user/route.jsx:17-20 | Exactly one user with the next identity value is appended; ids keep increasing |
| EnrollCourseApi.Post | app/api/enroll-course/route.jsx:8-77 | The new enrolment table, next id and answer are `EnrollResult`; courses and users are never written |
| EnrollCourseApi.CheckOrder | app/api/enroll-course/route.jsx:12-36 | Missing `courseId` gives 400, then no user 401, then no email 400, then an unknown course 404; a failure writes nothing |
| EnrollCourseApi.EnrolOnce | app/api/enroll-course/route.jsx:39-69 | An existing enrolment of the pair is returned and nothing is inserted; otherwise exactly one row with `completedChapters = {}` is added, and the pair had none |
| EnrollCourseApi.RepeatedEnrolment | app/api/enroll-course/route.jsx:29-69 | Repeating a request changes nothing more and answers with the same enrolment; a pair with at most one row before has exactly one after |
| EnrollCourseApi.JoinOne | app/api/enroll-course/route.jsx:94 | An enrolment is paired with exactly the courses of its cid |
| EnrollCourseApi.Join | app/api/enroll-course/route.jsx:94 | The inner join holds exactly the (enrolment, course) pairs with the same cid |
| EnrollCourseApi.Reverse | app/api/enroll-course/route.jsx:96 | The reversed list has the same length, element `i` taken from the other end |
| EnrollCourseApi.ListResult | app/api/enroll-course/route.jsx:80-98 | Signed out gives 401; otherwise the pairs are exactly the caller's enrolments joined with their courses, and none without an email |
| EnrollCourseApi.ListNewestFirst | app/api/enroll-course/route.jsx:96 | With identity ids, the listing is newest enrolment first |
| EnrollCourseApi.UserRowsIncreasing | app/api/enroll-course/route.jsx:95 | Filtering by user keeps ids increasing |
| EnrollCourseApi.JoinOrdered | app/api/enroll-course/route.jsx:94-96 | Joining keeps the non-increasing id order |
| EnrollCourseApi.PatchResult | app/api/enroll-course/route.jsx:109-146 | A failed PATCH writes nothing |
| EnrollCourseApi.PatchFrame | app/api/enroll-course/route.jsx:121-138 | PATCH succeeds even when no row matches, and replaces `completedChapters` only on the caller's rows for the course; every other row and field is unchanged |
| EnrollCourseApi.Patch | app/api/enroll-course/route.jsx:109-146 | The new enrolment table and the answer are `PatchResult`; nothing else changes |
| UserApi.Post | app/api/user/route.jsx:6-31 | The new users table, next id and answer are `UserResult`; other tables are untouched |
| UserApi.UserResultCases | app/api/user/route.jsx:10-26 | A falsy email is refused with 400 and nothing changes. A known email returns the first user with it and inserts nothing. An unknown email with a truthy name adds exactly one `{name, email}`. An unknown email with a falsy name fails with 500 and adds nothing, because `name \|\| null` is `null` and the `name` column is `NOT NULL` |
| UserApi.Idempotent | app/api/user/route.jsx:14-26 | A second call with the same body finds the first call's user and adds nothing, or fails as the first did; an email with at most one user before has exactly one after a call that did not fail |
| EnrolledCoursesApi.Details | app/api/user/enrolled-courses/route.jsx:21-31 | The selected course columns, `null` for a course that did not match |
| EnrolledCoursesApi.CompletedKeys | app/api/user/enrolled-courses/route.jsx:38 | The number of keys of `completedChapters`, 0 when it is falsy |
| EnrolledCoursesApi.TotalChapters | app/api/user/enrolled-courses/route.jsx:39 | `numberOfChapters`, or 1 when it is missing, `null` or 0 |
| EnrolledCoursesApi.CappedPercent | app/api/user/enrolled-courses/route.jsx:40-44 | The capped percentage is at most 100, not negative for a positive total, and exactly 100 when `200·done >= 199·total` |
| EnrolledCoursesApi.Record | app/api/user/enrolled-courses/route.jsx:37-51 | A record keeps its enrolment's cid and completed chapters, and its progress is at most 100 and not negative for a positive total |
| EnrolledCoursesApi.RecordsOf | app/api/user/enrolled-courses/route.jsx:33 | One record per matching course |
| EnrolledCoursesApi.GetResult | app/api/user/enrolled-courses/route.jsx:7-62 | Signed out gives exactly 401, and no email lists nothing |
| EnrolledCoursesApi.CompletedCountIgnoresValues | app/api/user/enrolled-courses/route.jsx:38 | The completed count counts keys, whatever their values |
| EnrolledCoursesApi.ReachesHundred | app/api/user/enrolled-courses/route.jsx:40 | The rounded percentage reaches 100 exactly when `200·done >= 199·total` |
| EnrolledCoursesApi.RecordProgress | app/api/user/enrolled-courses/route.jsx:39-48 | For a positive total the progress is in [0, 100]. A next chapter "Chapter <count+1>" is named exactly when the progress is below 100. The time is "<total·15> min" |
| EnrolledCoursesApi.NegativeTotal | app/api/user/enrolled-courses/route.jsx:39-44 | A negative chapter count gives a negative progress (-100) |
| EnrolledCoursesApi.MissingCourse | app/api/user/enrolled-courses/route.jsx:33 | A left-joined enrolment without a course has totals of 1 and all-`null` details |
| EnrolledCoursesApi.OneRecordPerEnrolment | app/api/user/enrolled-courses/route.jsx:33-52 | With at most one course per cid there is one record per enrolment, in order, with its own cid and completed chapters |
| EnrolledCoursesApi.SeveralMatches | app/api/user/enrolled-courses/route.jsx:33 | An enrolment whose cid names several courses is listed once per course |
| DoubtsChatApi.TruncatedContent | app/api/doubts-chat/route.jsx:27-29 | Truncated content has 2003 characters: a 2000-character prefix of the original, then "..." |
| DoubtsChatApi.TopicsText | app/api/doubts-chat/route.jsx:37 | Missing or `null` topics give "Not specified"; a value that is neither an array nor `null` throws; the text is never empty |
| DoubtsChatApi.TopicsListed | app/api/doubts-chat/route.jsx:37 | Topics are joined with ", ", and an empty list gives "Not specified" |
| DoubtsChatApi.PromptContains | app/api/doubts-chat/route.jsx:32-52 | The prompt contains the title, the (truncated) content, the topics and the question |
| DoubtsChatApi.Validation | app/api/doubts-chat/route.jsx:9-24 | Without a key the answer is 500 whatever the request; with one, a readable request gets 400 exactly when the question, chapter, title or content is missing |
| DoubtsChatApi.Answering | app/api/doubts-chat/route.jsx:27-59 | A complete request is answered with the model's text, from a prompt that contains the title, the truncated content, the topics and the question; a failed model call gives 500 |
| DoubtsChatApi.PromptFailure | app/api/doubts-chat/route.jsx:27-37 | A complete request fails before the model only through an over-long array content or topics that cannot be joined |
| CourseUtils.ChapterTotal | lib/course-utils.js:7-9 | A chapter total exists only when the length is truthy, and is then positive |
| CourseUtils.CourseProgress | lib/course-utils.js:6-13 | The progress is never negative, and 0 without chapters |
| CourseUtils.CourseProgressBounds | lib/course-utils.js:12 | With no more completed entries than chapters the progress is in [0, 100]. It is 100 when all are completed. It is the integer within half of the exact percentage |
| CourseUtils.CourseProgressUncapped | lib/course-utils.js:12 | The progress is not capped: two truthy entries for one chapter give 200 |
| CourseUtils.FormatDurationParts | lib/course-utils.js:25-32 | For 60 minutes or more the printed hours `h` and minutes `r` satisfy `60·h + r = m` and `r < 60`; " <r> min" is printed only when `r` is not 0 |
| CourseUtils.FormatDurationRoundTrip | lib/course-utils.js:18-33 | Every printed duration of a non-negative number of minutes reads back as that number |
| CourseUtils.FindIncomplete | lib/course-utils.js:41-43 | The chapter found is the first one not marked completed, and all before it are; an error means a `null` chapter or record was read |
| CourseUtils.FindIncompleteNone | lib/course-utils.js:41-43 | Nothing is found exactly when every chapter is read without error and marked completed |
| CourseUtils.NextIncomplete | lib/course-utils.js:38-44 | No chapters gives `null` |
| CourseUtils.NothingCompletedFirstIsNext | lib/course-utils.js:38-44 | Without a record of completed chapters the first chapter is next |
| CourseUtils.StatusAgrees | lib/course-utils.js:62-75 | The label and the colour agree branch for branch; "Completed" exactly at 100 and "Not Started" exactly at or below 0 |
| CourseUtils.Int32 | lib/course-utils.js:89 | `ToInt32` gives the value in [-2^31, 2^31) equal to the input modulo 2^32 |
| CourseUtils.Hue | lib/course-utils.js:93 | The hue is in [0, 360) |
| CourseUtils.FallbackImageShape | lib/course-utils.js:83-100 | An empty or missing title uses "Course"; the size is "1280x720" exactly for the 'course' type, also the default, else "400x400"; the hue is in [0, 360) |
| CourseUtils.HashGrowth | lib/course-utils.js:88-90 | Each step moves the hash by less than 2^31 + 2^16, so the hash of a title shorter than 2^21 code units stays below 2^53, where floats are exact |
| EnrolledCourseCardView.Completed | app/workspace/_components/EnrolledCourseCard.jsx:33-35 | The number of keys of an object `completedChapters`, 0 when it is falsy |
| EnrolledCourseCardView.Total | app/workspace/_components/EnrolledCourseCard.jsx:36 | `numberOfChapters`, or 1 when it is falsy; never 0 |
| EnrolledCourseCardView.ProgressInRange | app/workspace/_components/EnrolledCourseCard.jsx:33-37 | With no more completed keys than chapters the progress is in [0, 100], and full, labelled completed, when all are completed |
| EnrolledCourseCardView.NothingCompleted | app/workspace/_components/EnrolledCourseCard.jsx:33-37 | A card without a record shows progress 0 and "Continue Course" |
| EnrolledCourseCardView.OverCompleted | app/workspace/_components/EnrolledCourseCard.jsx:37 | The progress is not capped: 3 keys for 2 chapters give 150, labelled "Continue Course" |
| EnrolledCourseCardView.JoinedRowShowsNothing | app/workspace/_components/EnrolledCourseCard.jsx:33-37 | A row whose columns are nested under table names shows progress 0 and links to "/course/undefined" |
| EnrolledCourseCardView.JoinedRowShowsProgress | app/workspace/_components/EnrolledCourseCard.jsx:33-37 | Read through the table names, a joined row shows the route's capped percentage, the completion label when every chapter is done, and a link to its course |
| EnrolledCourseCardView.AgreesWithRoute | app/workspace/_components/EnrolledCourseCard.jsx:37 | With no more completed chapters than chapters, the card's percentage equals the enrolled-courses route's capped one |
| CourseCardView.Parsed | app/workspace/_components/CourseCard.jsx:79-89 | A falsy `courseJson` gives `null`; a non-string value is used as it is |
| CourseCardView.FirstTruthy | app/workspace/_components/CourseCard.jsx:34 | A chain of `\|\|` gives the first truthy value, or the fallback when none is truthy |
| CourseCardView.PercentFacts | app/workspace/_components/CourseCard.jsx:35 | No positive total gives 0. Otherwise the progress is the integer within half of the exact percentage, never negative, and at most 100 while no more chapters are done than there are |
| CourseCardView.EntryMatches | app/workspace/_components/CourseCard.jsx:30 | The match test throws exactly on a `null` entry |
| CourseCardView.FindEntrySpec | app/workspace/_components/CourseCard.jsx:30 | The entry found is the first matching one, and nothing is found exactly when no entry matches |
| CourseCardView.FindEntryThrows | app/workspace/_components/CourseCard.jsx:30 | The search throws exactly when a `null` comes before any match |
| CourseCardView.Started | app/workspace/_components/CourseCard.jsx:111-114 | The sent record always marks "chapter-1" true |
| CourseCardView.StartedKeepsRecord | app/workspace/_components/CourseCard.jsx:111-114 | Starting keeps every other key and value of an object record and adds only "chapter-1" |
| CourseCardView.StartedCount | app/workspace/_components/CourseCard.jsx:114-120 | Starting never lowers the completed count and raises it by at most one |
| CourseCardView.NestedRecordIsIgnored | app/workspace/_components/CourseCard.jsx:110-111 | An entry whose record is nested under a table name counts as empty, so only the first chapter is sent |
| CourseCardView.PlaceholderIsExternal | app/workspace/_components/CourseCard.jsx:135-139 | The placeholder banner counts as external |
| CourseCardView.RelativeBannerNotExternal | app/workspace/_components/CourseCard.jsx:139 | A relative path does not count as external |
| CourseCardView.ContentCases | app/workspace/_components/CourseCard.jsx:145-150 | Empty content fields give no content; one chapter in `coursesContent` is content |
| CourseCardView.CourseCard.constructor | app/workspace/_components/CourseCard.jsx:11-15 | The card starts with the enrolment flag of the prop, progress 0, not loading and the progress still loading |
| CourseCardView.CourseCard.FetchProgress | app/workspace/_components/CourseCard.jsx:23-48 | After the fetch the progress is `Fetched`, or unchanged when it throws, and it is no longer loading |
| CourseCardView.CourseCard.OnEnrollCourse | app/workspace/_components/CourseCard.jsx:51-76 | A successful answer marks the card enrolled, resets the progress to 0 and tells the parent; anything else changes nothing |
| CourseCardView.CourseCard.StartCourse | app/workspace/_components/CourseCard.jsx:94-133 | It enrols first when needed. It sends the found record with "chapter-1" marked, shows the percentage of the sent record when the PATCH succeeds, and leaves the progress unchanged otherwise |
| CourseInfoView.ParseCourse | app/workspace/edit-course/components/CourseInfo.jsx:36-48 | A falsy `courseJson` or text that does not parse gives `null` |
| CourseInfoView.ParseCourseCases | app/workspace/edit-course/components/CourseInfo.jsx:39-43 | A non-nullish `course` wrapper is removed, a layout without one is used as it is, and a string is parsed first |
| CourseInfoView.OneWrapperOnly | app/workspace/edit-course/components/CourseInfo.jsx:43 | Only one wrapper is removed |
| CourseInfoView.EmptyBannerKept | app/workspace/edit-course/components/CourseInfo.jsx:101-104 | An empty banner URL is kept, not replaced |
| CourseInfoView.ProtocolRelativeIsUrl | app/workspace/edit-course/components/CourseInfo.jsx:106-109 | A protocol-relative URL, once given "https:", is a URL and not taken for base64 |
| CourseInfoView.NormaliseBanner | app/workspace/edit-course/components/CourseInfo.jsx:106-114 | The reassignments of `src` compute `Normalised` |
| CourseInfoView.NormalisedIdempotent | app/workspace/edit-course/components/CourseInfo.jsx:106-113 | Normalising twice is normalising once |
| CourseInfoView.BannerSrc | app/workspace/edit-course/components/CourseInfo.jsx:100-115 | The shown source is the normalised `??` choice, or an error when that throws |
| CourseInfoView.AllowedHostIgnoresCase | app/workspace/edit-course/components/CourseInfo.jsx:126 | The host test ignores ASCII case |
| CoursesBrowser.WithoutTest | app/courses/page.jsx:45 | The fetched list loses exactly the 'test-cid-1' course and keeps all others; a `null` course throws |
| CoursesBrowser.FetchedCourses | app/courses/page.jsx:44-45 | A falsy answer gives the empty list |
| CoursesBrowser.FilteredSpec | app/courses/page.jsx:74-81 | The filter keeps exactly the courses that pass all three tests, and every one of them, and shows no more than there are |
| CoursesBrowser.FilteredIsSubsequence | app/courses/page.jsx:74-81 | The shown courses are a subsequence of the list, in the list's order |
| CoursesBrowser.NamelessNeverMatches | app/courses/page.jsx:75-76 | A course with neither name nor description never matches, not even the empty search |
| CoursesBrowser.EmptySearchShowsNamed | app/courses/page.jsx:75-80 | With an empty search and no selection, a course with a string name is shown |
| CoursesBrowser.SearchIgnoresCase | app/courses/page.jsx:75-76 | The search ignores ASCII case |
| CoursesBrowser.Distinct | app/courses/page.jsx:84-85 | The choices are exactly the truthy values, each once, no more than there are values |
| CoursesBrowser.DistinctFirstOccurrence | app/courses/page.jsx:84-85 | The choices come in the order of their first occurrence |
| CoursesBrowser.Field | app/courses/page.jsx:84 | One value per course, missing fields as `null` |
| CoursesBrowser.CategoryOffered | app/courses/page.jsx:84 | A truthy category of any course is among the choices |
| CoursesBrowser.EnrolledCids | app/courses/page.jsx:62-71 | The enrolled set is exactly the truthy `courses.cid` values of the entries; a `null` entry throws |
| CoursesBrowser.EmptyContentDisagrees | app/courses/page.jsx:200 | An empty content array counts as content here but not on the workspace card |
| CoursesBrowser.HoursFormula | app/courses/page.jsx:237 | `ceil(n·15/60)` is `(n + 3) / 4`: one hour per four chapters, rounded up |
| CoursesBrowser.HoursDefault | app/courses/page.jsx:237 | A missing, `null` or 0 chapter count counts as one chapter, one hour |
| CoursesBrowser.CoursesPage.constructor | app/courses/page.jsx:28-35 | The page starts with no courses, no enrolled ids and loading |
| CoursesBrowser.CoursesPage.FetchCourses | app/courses/page.jsx:38-53 | A successful fetch replaces the list with `FetchedCourses`; a failure keeps the old list; loading ends either way |
| CoursesBrowser.CoursesPage.GetEnrolledCids | app/courses/page.jsx:62-71 | The set becomes `EnrolledCids` of the answer; a failed request or a throwing list keeps the old set |
| CoursesBrowser.CoursesPage.HandleEnroll | app/courses/page.jsx:88-102 | A successful enrolment adds exactly the course's cid and nothing else; otherwise nothing changes |
| ProfilePage.CompletedCourses | app/profile/page.jsx:69 | The count of courses at exactly 100: at most the total, the total exactly when all are at 100, and 0 exactly when none is |
| ProfilePage.ProfileStats | app/profile/page.jsx:68-74 | The total is the list length; the completed count is at most it; an empty list gives all zeros; otherwise the average is the rounded mean |
| ProfilePage.SumBounds | app/profile/page.jsx:71 | With every progress in [0, 100], the sum is in [0, 100·n] |
| ProfilePage.RoundedMeanInRange | app/profile/page.jsx:71 | The rounded mean of at most 100 per item is in [0, 100] |
| ProfilePage.AverageInRange | app/profile/page.jsx:70-72 | With every progress in [0, 100], the average is in [0, 100] |
| ProfilePage.SumsAppend | app/profile/page.jsx:69-74 | All four aggregates are additive over two lists |
| ProfilePage.AllFinished | app/profile/page.jsx:69-72 | A list of finished courses counts all as completed and averages 100 |
| ProfilePage.JoinedProgress | app/api/user/enrolled-courses/route.jsx:37-52 | Every record the route builds has a progress of at most 100, not negative for a positive total |
| ProfilePage.ListedAverageInRange | app/profile/page.jsx:70-72 | When every listed course has a positive chapter count, the average of the route's records is in [0, 100] |
| CourseWizard.ContentBody | app/workspace/_components/GenerateCourseSteps.jsx:57-60 | The content body holds every form field and the `courseId` when the form has none of its own |
| CourseWizard.GenerateOrder | app/workspace/_components/GenerateCourseSteps.jsx:48-71 | The layout request goes first with the form. Content is requested only when the layout answer holds a non-nullish `created`, and then with its `cid`. The wizard moves on only when both answers arrived |
| CourseWizard.Wizard.constructor | app/workspace/_components/GenerateCourseSteps.jsx:33-42 | The wizard starts on step 1 with the default form, not loading, invariant holding |
| CourseWizard.Wizard.UpdateField | app/workspace/_components/GenerateCourseSteps.jsx:44-46 | Only the named field changes, and an edit through the current step's inputs keeps the invariant |
| CourseWizard.Wizard.Back | app/workspace/_components/GenerateCourseSteps.jsx:233-238 | Back goes one step down, except on step 1 or while loading; the step stays in 1..3 |
| CourseWizard.Wizard.Next | app/workspace/_components/GenerateCourseSteps.jsx:73-80 | Continue gives `NextResult`, advances the step only when that says so. After a generation it is not loading. It navigates exactly when the generation succeeded. It keeps the invariant |
| CourseWizard.NextCases | app/workspace/_components/GenerateCourseSteps.jsx:73-80 | Continue is refused exactly on step 1 with an empty name or description, advances exactly on steps 1 and 2 otherwise, and generates exactly on step 3 |
| CourseWizard.DefaultFormIncomplete | app/workspace/_components/GenerateCourseSteps.jsx:35-42 | The default form cannot leave step 1 |
| CourseWizard.LayoutCreatedNamesRow | app/api/generate-course-layout/route.jsx:187-193 | A returned row is always the one whose `cid` is the body's `courseId` |
| CourseWizard.AsWrittenNeverReachesContent | app/workspace/_components/GenerateCourseSteps.jsx:48-56 | With the route's answer, a form without `courseId` ends after the layout request: the content is never requested |
| CourseWizard.AsWrittenContentRejected | app/workspace/_components/GenerateCourseSteps.jsx:57-60 | The content body without `courseJson` is rejected by the content route with 400 |
| CourseWizard.WizardFormLacksIds | app/workspace/_components/GenerateCourseSteps.jsx:35-46 | The wizard's form never holds `courseId` or `courseJson` |
| CourseWizard.UpdatedRowFound | app/api/generate-course-layout/route.jsx:187-191 | Updating a row keeps it findable by its cid |
| CourseWizard.LayoutCreatedFound | app/api/generate-course-layout/route.jsx:187-193 | A 201 for a body naming an existing row returns that row |
| CourseWizard.FixedRequests | app/workspace/_components/GenerateCourseSteps.jsx:53-60 | The corrected generation, ordered as on the edit-course page, sends the content request for the named row with the returned row's `courseJson` |
| CourseWizard.FixedReachesContent | app/workspace/_components/GenerateCourseSteps.jsx:48-63 | With the correction, a 201 for an existing row leads to the content request for that row, carrying the stored layout, and on success to that course's page |
| CourseWizard.RouteLayoutAnswer | app/api/generate-course-layout/route.jsx:193 | The client's data of a 201 with a row holds that row as `created` |
| CourseWizard.FixedContentHasChapters | app/api/generate-course-content/route.jsx:94-96 | A stored layout with a chapter array passes the content route's 400 check on the corrected request |
| JsMath.FloorDiv | lib/course-utils.js:25 | `Math.floor(a / b)`: the quotient `q` with `b·q <= a < b·q + b` |
| JsMath.CeilDiv | app/courses/page.jsx:237 | `Math.ceil(a / b)`: the quotient `q` with `b·q - b < a <= b·q` |
| JsMath.RoundCharacterised | lib/course-utils.js:12 | `Math.round(a / b)` is exactly the integer `r` with `r - 1/2 <= a/b < r + 1/2` |
| JsMath.PercentBounds | lib/course-utils.js:12 | A rounded percentage of a part of a whole is in [0, 100], and 100 for the whole |
| JsMath.PercentReaches100Early | app/api/user/enrolled-courses/route.jsx:40 | 199 out of 200 already rounds to 100 |
| JsMath.RoundMono | app/profile/page.jsx:71 | Rounding preserves order |

## Left out

- The wording of the layout and content routes' prompts is not modelled: the model call is a parameter, and only what the prompt must contain is stated. The doubts-chat route's wording is kept as the constant `DoubtsChatApi.Tutor`, and its lemmas are stated over any prompt text.
- HTTP plumbing (request parsing, `NextResponse`, status objects, toasts, navigation) is reduced to answers and status codes.
- Timers are not modelled: `sleep` is the total number of milliseconds waited.
- `Promise.all` over the chapters runs the chapters in order, one after another; concurrency is left out.
- Asynchronous interleaving of the React handlers is left out: each handler runs as one atomic step.
- Floating point is left out: numbers are integers. `formatNumber`, which prints decimals, is not modelled. Rounding of a percentage is exact rounding of the rational, which can differ from the float result at exact halves.
- CourseUtils.HashGrowth: the title hash is exact only for titles shorter than 2^21 code units; longer titles are not covered by the integer model.
- CourseUtils.Codes: characters outside the Basic Multilingual Plane, which JavaScript counts as two code units, are not modelled.
- The URL parser is not modelled: the host name is an input of `CourseInfoView.IsAllowedHost`, and `None` stands for a URL that does not parse.
- `encodeURIComponent` and `JSON.parse` are parameters, not definitions.
- The YouTube search, status and HEAD services, the image service and the model are parameters; their network errors are `None` answers.
- Rows returned without `ORDER BY` are in table order.
- The `LIMIT 3` row selection of the repair scripts is an input: the rows are given.
- The database writes of the repair scripts are assumed to succeed; a failed write, caught at check-videos.js:155-158, is not modelled.
- A `courseId` that is not a string matches no row.
- `numberOfChapters` is an integer, as the column type says; a non-numeric total on the course card counts as 0.
- Spreading an array or string `completedChapters` is modelled as spreading `{}`; the index keys it would produce are ignored.
- The two "completed" counts differ on purpose: the library and the course card count truthy values, the routes and the enrolled card count keys. The model keeps both.
- JSON values with their own `length` property are not modelled as having a length.
- A JavaScript `Set` is a mathematical set of JSON values. A missing cid, which JavaScript adds as `undefined`, is added as `null`, so a set holding both `undefined` and `null` holds one value here.
- Drizzle's join result shape, which nests columns under table names, is kept only as examples: `CourseCardView.NestedRecordIsIgnored` and `EnrolledCourseCardView.JoinedRowShowsNothing` (see "## Findings").
- config/schema.js declares no enrolment table and no `coursesContent` or `bannerImageURL` column, although the routes read and write them. The model's tables have them.
- CourseInfo.jsx's edit handlers and its `PUT` save (lines 50-71) are not modelled, nor is its `handleGenerateContent` (lines 73-98), which posts the parsed course to the content route; only the parse, the banner and the host test are.
- The course card has no generation handler of its own: without content it links to the edit-course page, which is not modelled. The edit-course page is used only as the corrected request order for `CourseWizard.GenerateFixed`.
- components/DoubtsChat.jsx, the refresh references, polling and the mount guards of the pages are not part of this model.
- `console` logging is not modelled.
- Database errors in the routes are not modelled: `Store.Db`'s queries and inserts always succeed, while every route catches a failing query or insert and answers 500. Of the failures that the input alone causes on the users table, only a `null` name in the `NOT NULL` column is modelled, in `UserApi.UserResult`; the `varchar(255)` ones are not (see the lines below that start with `UserApi.UserResult`, `Post` and `UserResultCases`).
- UserApi.UserResult: `email` and `name` are kept as the JSON values of the body, not as the text that the `varchar(255)` columns of config/schema.js:6-7 hold. PostgreSQL converts a number email 5 to "5", so a later request with "5" finds that user, where the model creates a second one. The length limit is not modelled either: a name or an email over 255 characters makes the insert fail with 500 (excess trailing spaces are cut off instead), where the model inserts it whole.
- Post: for the same reasons, the users table it writes holds JSON values of any length rather than text of at most 255 characters, and an over-long name or email is inserted instead of answered with 500.
- UserResultCases: its "known email" compares JSON values, so a number email does not find the same email stored as text, and its "adds exactly one user" also covers names and emails over 255 characters, which the database rejects.
- CoursesBrowser.TextMatches: `toLowerCase` is modelled by lower-casing the letters A to Z only. JavaScript folds all of Unicode, so a name "Éclair" matches the search "éclair" in the page and not in the model.
- SearchIgnoresCase: for the same reason it states that the search ignores ASCII case only, not the Unicode case folding that `toLowerCase` performs.
- DoubtsChatApi.ContentText: strings are sequences of Unicode characters, while JavaScript's `length` and `substring` count UTF-16 code units. Text with characters outside the Basic Multilingual Plane is truncated later in the model than in JavaScript, which may also split a surrogate pair.
- TruncatedContent: its 2000-character prefix counts Unicode characters, not UTF-16 code units, for the same reason.
- Json.LengthOf and Json.KeyCount count a string's Unicode characters, not its UTF-16 code units.
- CourseUtils.Member: indexing an array or a string `completedChapters` by a chapter key is not modelled; such a record has no entries, so no chapter of it counts as completed.

## Findings

| source | as written | input that shows it | evidently intended | confidence | as-written member | corrected member |
|---|---|---|---|---|---|---|
| app/workspace/_components/EnrolledCourseCard.jsx:33-37 | The card reads `completedChapters`, `numberOfChapters` and `cid` from each item of GET /api/enroll-course. The items are joined rows with the columns nested under the table names, so none of these is found | Any enrolment, even one with every chapter completed | Read the record from the enrolment columns and the count and cid from the `courses` columns | not executed | EnrolledCourseCardView.JoinedRowShowsNothing | EnrolledCourseCardView.JoinedRowShowsProgress |
| app/workspace/_components/GenerateCourseSteps.jsx:48-60 | The layout request sends the form without a `courseId`, so the layout route updates no row and answers `created: undefined`; reading `created.cid` throws, and the content is never requested. The content body also lacks `courseJson`, which the content route answers with 400 | The default form with a name and a description filled in | Send the `courseId` of the course and, for the content, the stored layout, as app/workspace/edit-course/[courseId]/page.jsx:55-71 does | not executed | CourseWizard.AsWrittenNeverReachesContent | CourseWizard.FixedReachesContent |
