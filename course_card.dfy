/** The course card of the workspace: the progress it shows, the
    "start course" action that marks the first chapter, whether the course
    has content, its banner, and which button it offers.

    Network calls are inputs: `None` stands for a request that throws (the
    handler's `catch`), `Some(data)` for the `data` of its answer. */
module CourseCardView {
  import opened Wrappers
  import opened Json
  import opened JsMath
  import CourseUtils

  /** `courseJson`: `null` when falsy or unparsable; a string is parsed. */
  function Parsed(course: Json, parse: string -> Option<Json>): (r: Json)
    ensures !Present(Get(course, "courseJson")) ==> r == Null
    ensures Present(Get(course, "courseJson")) && !Get(course, "courseJson").value.Str? ==> r == Get(course, "courseJson").value
  {
    var raw := Get(course, "courseJson");
    if !Present(raw) then Null
    else if raw.value.Str? then parse(raw.value.s).GetOr(Null)
    else raw.value
  }

  /** The first truthy value of a chain of `||`, or the fallback. */
  function FirstTruthy(vs: seq<Option<Json>>, fallback: Json): (r: Json)
    ensures (exists i :: 0 <= i < |vs| && Present(vs[i])) ==> Truthy(r) && exists i :: 0 <= i < |vs| && vs[i] == Some(r)
    ensures (forall i :: 0 <= i < |vs| ==> !Present(vs[i])) ==> r == fallback
  {
    if vs == [] then fallback
    else if Present(vs[0]) then vs[0].value
    else
      var r := FirstTruthy(vs[1..], fallback);
      assert forall i :: 1 <= i < |vs| ==> vs[i] == vs[1..][i - 1];
      r
  }

  /** `course.numberOfChapters || course.courseJson?.noOfChapters ||
      course.courseJson?.chapters?.length || 0`, read on the stored
      `courseJson` (a string has neither field). */
  function TotalValue(course: Json): Json {
    var raw := Get(course, "courseJson");
    var chapters := GetOpt(raw, "chapters");
    var len := if chapters.Some? && LengthOf(chapters.value).Some? then Some(Num(LengthOf(chapters.value).value)) else None;
    FirstTruthy([Get(course, "numberOfChapters"), GetOpt(raw, "noOfChapters"), len], Num(0))
  }

  /** `total > 0 ? Math.round(completed / total * 100) : 0`. */
  function Percent(completed: nat, total: Json): int {
    if total.Num? && total.n > 0 then Round(100 * completed, total.n) else 0
  }

  /** No total gives 0; otherwise the percentage is the rounded ratio,
      never negative, and at most 100 while no more chapters are done than
      there are. */
  lemma PercentFacts(completed: nat, total: Json)
    ensures !(total.Num? && total.n > 0) ==> Percent(completed, total) == 0
    ensures total.Num? && total.n > 0 ==>
      var r := Percent(completed, total);
      2 * total.n * r - total.n <= 200 * completed < 2 * total.n * r + total.n
    ensures Percent(completed, total) >= 0
    ensures total.Num? && total.n > 0 && completed <= total.n ==> Percent(completed, total) <= 100
  {
    if total.Num? && total.n > 0 {
      RoundCharacterised(100 * completed, total.n, Round(100 * completed, total.n));
      CourseUtils.RoundNonNegative(100 * completed, total.n);
      if completed <= total.n {
        PercentBounds(completed, total.n);
      }
    }
  }

  /** `e.courses?.cid === course?.cid || e.cid === course?.cid`; a `null`
      entry has no properties, which is a TypeError. */
  function EntryMatches(e: Json, cid: Option<Json>): (r: Result<bool>)
    ensures r.Err? <==> e == Null
  {
    if e == Null then Err("TypeError")
    else Ok(GetOpt(Get(e, "courses"), "cid") == cid || Get(e, "cid") == cid)
  }

  /** `enrolled.find(...)`: the first matching entry. */
  function FindEntry(list: seq<Json>, cid: Option<Json>): Result<Option<Json>> {
    if list == [] then Ok(None)
    else
      match EntryMatches(list[0], cid)
      case Err(e) => Err(e)
      case Ok(true) => Ok(Some(list[0]))
      case Ok(false) => FindEntry(list[1..], cid)
  }

  /** The entry found is the first matching one, and nothing is found
      exactly when no entry matches; a `null` before the first match makes
      the search throw. */
  lemma {:induction false} FindEntrySpec(list: seq<Json>, cid: Option<Json>)
    ensures var r := FindEntry(list, cid);
      && (r.Ok? && r.value.Some? ==>
            exists i :: 0 <= i < |list| && list[i] == r.value.value && EntryMatches(list[i], cid) == Ok(true)
                        && forall j :: 0 <= j < i ==> EntryMatches(list[j], cid) == Ok(false))
      && (r == Ok(None) <==> forall i :: 0 <= i < |list| ==> EntryMatches(list[i], cid) == Ok(false))
  {
    if list != [] && EntryMatches(list[0], cid) == Ok(false) {
      FindEntrySpec(list[1..], cid);
      var r := FindEntry(list[1..], cid);
      assert forall i :: 1 <= i < |list| ==> list[i] == list[1..][i - 1];
      if r.Ok? && r.value.Some? {
        var i :| 0 <= i < |list[1..]| && list[1..][i] == r.value.value
                 && EntryMatches(list[1..][i], cid) == Ok(true)
                 && forall j :: 0 <= j < i ==> EntryMatches(list[1..][j], cid) == Ok(false);
        assert list[i + 1] == r.value.value;
      }
    }
  }

  /** The search throws exactly when a `null` comes before any match. */
  lemma {:induction false} FindEntryThrows(list: seq<Json>, cid: Option<Json>)
    ensures FindEntry(list, cid).Err? <==>
      exists i :: 0 <= i < |list| && list[i] == Null && forall j :: 0 <= j < i ==> EntryMatches(list[j], cid) == Ok(false)
  {
    if list != [] && EntryMatches(list[0], cid) == Ok(false) {
      FindEntryThrows(list[1..], cid);
      assert forall i :: 1 <= i < |list| ==> list[i] == list[1..][i - 1];
      if FindEntry(list[1..], cid).Err? {
        var i :| 0 <= i < |list[1..]| && list[1..][i] == Null && forall j :: 0 <= j < i ==> EntryMatches(list[1..][j], cid) == Ok(false);
        assert list[i + 1] == Null;
      }
      if exists i :: 0 <= i < |list| && list[i] == Null && forall j :: 0 <= j < i ==> EntryMatches(list[j], cid) == Ok(false) {
        var i :| 0 <= i < |list| && list[i] == Null && forall j :: 0 <= j < i ==> EntryMatches(list[j], cid) == Ok(false);
        assert i > 0;
        assert list[1..][i - 1] == Null;
      }
    }
  }

  /** `res.data || []`; a truthy answer that is not an array has no
      `find`, which is a TypeError. */
  function ListOf(data: Json): (r: Result<seq<Json>>)
    ensures !Truthy(data) ==> r == Ok([])
    ensures data.Arr? ==> r == Ok(data.items)
  {
    if !Truthy(data) then Ok([]) else if data.Arr? then Ok(data.items) else Err("TypeError")
  }

  /** The progress shown for the course: 0 without a matching entry. */
  function EntryProgress(entry: Option<Json>, course: Json): (r: int)
    ensures entry.None? ==> r == 0
    ensures entry.Some? ==> r == Percent(CourseUtils.CompletedCount(Get(entry.value, "completedChapters")), TotalValue(course))
  {
    if entry.None? then 0
    else Percent(CourseUtils.CompletedCount(Get(entry.value, "completedChapters")), TotalValue(course))
  }

  /** The progress after loading the enrolment list, or `None` when the
      request or the search throws (the progress is then left alone). */
  function Fetched(data: Option<Json>, course: Json): Option<int> {
    if data.None? then None
    else
      match ListOf(data.value)
      case Err(_) => None
      case Ok(list) =>
        match FindEntry(list, Get(course, "cid"))
        case Err(_) => None
        case Ok(entry) => Some(EntryProgress(entry, course))
  }

  /** `{ ...existing, 'chapter-1': true }`, where `existing` is the entry's
      truthy `completedChapters`, or `{}`. */
  function Started(entry: Option<Json>): (m: map<string, Json>)
    ensures "chapter-1" in m && m["chapter-1"] == Bool(true)
  {
    var existing := if entry.Some? && Present(Get(entry.value, "completedChapters"))
                    then Get(entry.value, "completedChapters").value else Obj(map[]);
    (if existing.Obj? then existing.fields else map[])["chapter-1" := Bool(true)]
  }

  /** Starting keeps every other key and value of an object record. */
  lemma StartedKeepsRecord(entry: Json)
    requires Get(entry, "completedChapters").Some? && Get(entry, "completedChapters").value.Obj?
    ensures var old_ := Get(entry, "completedChapters").value.fields;
      var m := Started(Some(entry));
      && m.Keys == old_.Keys + {"chapter-1"}
      && forall k :: k in old_ && k != "chapter-1" ==> m[k] == old_[k]
  {
  }

  /** Starting never lowers the count of completed chapters and raises it
      by at most one. */
  lemma StartedCount(fields: map<string, Json>)
    ensures var before := TruthyValueCount(Obj(fields));
      var after := TruthyValueCount(Obj(fields["chapter-1" := Bool(true)]));
      before <= after <= before + 1
  {
    var ks := set k | k in fields && Truthy(fields[k]);
    var m := fields["chapter-1" := Bool(true)];
    var ks' := set k | k in m && Truthy(m[k]);
    assert TruthyValueCount(Obj(fields)) == |ks|;
    assert TruthyValueCount(Obj(m)) == |ks'|;
    forall k ensures k in ks' <==> k in ks + {"chapter-1"} {
      if k != "chapter-1" {
        assert k in m <==> k in fields;
      }
    }
    assert ks' == ks + {"chapter-1"};
    if "chapter-1" in ks {
      assert ks' == ks;
    } else {
      assert |ks'| == |ks| + 1;
    }
  }

  /** An entry whose record is nested under another key counts as an
      empty record: starting sends only the first chapter. */
  lemma NestedRecordIsIgnored(key: string, record: Json, courses: Json)
    requires key != "completedChapters" && key != "courses"
    ensures Started(Some(Obj(map["courses" := courses, key := record]))) == map["chapter-1" := Bool(true)]
  {
    var e := Obj(map["courses" := courses, key := record]);
    assert Get(e, "completedChapters").None?;
  }

  const SecureScheme := "https://"
  const PlaceholderBanner := SecureScheme + "via.placeholder.com/400x200?text="

  /** `course.bannerImageURL || courseJson?.bannerImageURL || placeholder`,
      the placeholder naming the course (`encode` is
      `encodeURIComponent`). */
  function Banner(course: Json, parsed: Json, encode: string -> string): (r: Json)
    ensures Present(Get(course, "bannerImageURL")) ==> r == Get(course, "bannerImageURL").value
    ensures !Present(Get(course, "bannerImageURL")) && Present(Get(parsed, "bannerImageURL")) ==> r == Get(parsed, "bannerImageURL").value
    ensures !Present(Get(course, "bannerImageURL")) && !Present(Get(parsed, "bannerImageURL")) ==>
      r == Str(PlaceholderBanner + encode(if Present(Get(course, "name")) then JsString(Get(course, "name").value) else "Course"))
  {
    var name := if Present(Get(course, "name")) then JsString(Get(course, "name").value) else "Course";
    if Present(Get(course, "bannerImageURL")) then Get(course, "bannerImageURL").value
    else if Present(Get(parsed, "bannerImageURL")) then Get(parsed, "bannerImageURL").value
    else Str(PlaceholderBanner + encode(name))
  }

  /** `/^https?:\/\//i.test(bannerSrc)`. */
  predicate IsExternalBanner(banner: Json) {
    IsHttpUrl(JsString(banner))
  }

  /** The placeholder banner is external. */
  lemma PlaceholderIsExternal(course: Json, parsed: Json, encode: string -> string)
    requires !Present(Get(course, "bannerImageURL")) && !Present(Get(parsed, "bannerImageURL"))
    ensures IsExternalBanner(Banner(course, parsed, encode))
  {
    var name := if Present(Get(course, "name")) then JsString(Get(course, "name").value) else "Course";
    assert PlaceholderBanner + encode(name) == SecureScheme + ("via.placeholder.com/400x200?text=" + encode(name));
    SecureUrl("via.placeholder.com/400x200?text=" + encode(name));
  }

  lemma SecureUrl(rest: string)
    ensures IsHttpUrl(SecureScheme + rest)
  {
    var s := SecureScheme + rest;
    var l := ToLower(s);
    assert forall k :: 0 <= k < 8 ==> l[k] == LowerChar(s[k]) && s[k] == SecureScheme[k];
    assert l[..8] == "https://";
  }

  /** A relative path is not external. */
  lemma RelativeBannerNotExternal(path: string)
    requires |path| > 0 && path[0] == '/'
    ensures !IsExternalBanner(Str(path))
  {
    assert ToLower(path)[0] == '/';
  }

  /** A non-empty array, or a value with at least one key. */
  predicate NonEmptyContent(v: Option<Json>) {
    Present(v) && KeyCount(v.value) > 0
  }

  /** `hasCourseContent`. */
  predicate HasContent(course: Json, parsed: Json) {
    || NonEmptyContent(Get(course, "courseContent"))
    || NonEmptyContent(Get(course, "coursesContent"))
    || (Get(parsed, "chapters").Some? && Get(parsed, "chapters").value.Arr? && |Get(parsed, "chapters").value.items| > 0)
    || (var chs := GetOpt(Get(course, "courseJson"), "chapters");
        Present(chs) && LengthOf(chs.value).Some? && LengthOf(chs.value).value > 0)
  }

  /** A course whose only content field is an empty array or object has no
      content; one generated chapter in the content column is enough. */
  lemma ContentCases(c: Json, parsed: Json)
    requires !Present(Get(parsed, "chapters"))
    ensures !HasContent(Obj(map["courseContent" := Arr([]), "coursesContent" := Obj(map[])]), parsed)
    ensures HasContent(Obj(map["coursesContent" := Arr([c])]), parsed)
  {
  }

  /** The card's main button. */
  datatype Button = ContinueLearning(href: string) | EnrollButton | GenerateCourse(href: string)

  function ChooseButton(hasContent: bool, enrolled: bool, cid: Option<Json>): (b: Button)
    ensures b.ContinueLearning? <==> hasContent && enrolled
    ensures b.EnrollButton? <==> hasContent && !enrolled
    ensures b.GenerateCourse? <==> !hasContent
    ensures b.ContinueLearning? ==> b.href == "/workspace/view-course/" + TemplateStr(cid)
    ensures b.GenerateCourse? ==> b.href == "/workspace/edit-course/" + TemplateStr(cid)
  {
    if !hasContent then GenerateCourse("/workspace/edit-course/" + TemplateStr(cid))
    else if enrolled then ContinueLearning("/workspace/view-course/" + TemplateStr(cid))
    else EnrollButton
  }

  /** The progress line above the button. */
  datatype Indicator = NoIndicator | StartedIndicator(percent: int) | NotStarted

  function ChooseIndicator(progressLoading: bool, enrolled: bool, progress: int): (r: Indicator)
    ensures r.StartedIndicator? <==> !progressLoading && enrolled && progress > 0
    ensures r.NotStarted? <==> !progressLoading && enrolled && progress <= 0
    ensures r.StartedIndicator? ==> r.percent == progress
  {
    if progressLoading || !enrolled then NoIndicator
    else if progress > 0 then StartedIndicator(progress) else NotStarted
  }

  /** The card's state. */
  class CourseCard {
    const course: Json
    var isEnrolled: bool
    var courseProgress: int
    var loading: bool
    var progressLoading: bool

    constructor(course: Json, isEnrolledProp: Json)
      ensures this.course == course && isEnrolled == Truthy(isEnrolledProp)
      ensures courseProgress == 0 && !loading && progressLoading
    {
      this.course := course;
      isEnrolled := Truthy(isEnrolledProp);
      courseProgress := 0;
      loading := false;
      progressLoading := true;
    }

    /** The progress fetch that runs when the card mounts. */
    method FetchProgress(data: Option<Json>)
      modifies this
      ensures !progressLoading
      ensures courseProgress == Fetched(data, course).GetOr(old(courseProgress))
      ensures isEnrolled == old(isEnrolled) && loading == old(loading)
    {
      progressLoading := true;
      var p := Fetched(data, course);
      if p.Some? {
        courseProgress := p.value;
      }
      progressLoading := false;
    }

    /** `onEnrollCourse`; `notified` says whether the parent was told. */
    method OnEnrollCourse(answer: Option<Json>) returns (notified: bool)
      modifies this
      ensures notified <==> answer.Some? && Present(Get(answer.value, "success"))
      ensures notified ==> isEnrolled && courseProgress == 0
      ensures !notified ==> isEnrolled == old(isEnrolled) && courseProgress == old(courseProgress)
      ensures !loading && progressLoading == old(progressLoading)
    {
      loading := true;
      notified := false;
      if answer.Some? && Present(Get(answer.value, "success")) {
        isEnrolled := true;
        notified := true;
        courseProgress := 0;
      }
      loading := false;
    }

    /** `startCourse`: enrol if needed, read the record, send it back with
        the first chapter marked, and show the new progress.  `sent` is the
        record the PATCH carried, if it was reached. */
    method StartCourse(enrollAnswer: Option<Json>, listData: Option<Json>, patchOk: bool)
      returns (sent: Option<map<string, Json>>)
      modifies this
      ensures !loading && progressLoading == old(progressLoading)
      ensures isEnrolled == (old(isEnrolled) || (enrollAnswer.Some? && Present(Get(enrollAnswer.value, "success"))))
      ensures old(isEnrolled) || enrollAnswer.Some? ==>
        sent == (if listData.None? || ListOf(listData.value).Err? || FindEntry(ListOf(listData.value).value, Get(course, "cid")).Err?
                 then None
                 else Some(Started(FindEntry(ListOf(listData.value).value, Get(course, "cid")).value)))
      ensures !old(isEnrolled) && enrollAnswer.None? ==> sent.None?
      ensures sent.Some? && patchOk ==> courseProgress == Percent(TruthyValueCount(Obj(sent.value)), TotalValue(course))
      ensures !(sent.Some? && patchOk) ==> courseProgress == old(courseProgress)
    {
      loading := true;
      sent := None;
      if !isEnrolled {
        if enrollAnswer.None? {
          loading := false;
          return;
        }
        if Present(Get(enrollAnswer.value, "success")) {
          isEnrolled := true;
        }
      }
      if listData.None? {
        loading := false;
        return;
      }
      var list := ListOf(listData.value);
      if list.Err? {
        loading := false;
        return;
      }
      var entry := FindEntry(list.value, Get(course, "cid"));
      if entry.Err? {
        loading := false;
        return;
      }
      var updated := Started(entry.value);
      sent := Some(updated);
      if patchOk {
        courseProgress := Percent(TruthyValueCount(Obj(updated)), TotalValue(course));
      }
      loading := false;
    }
  }
}
