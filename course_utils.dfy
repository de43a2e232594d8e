/** The shared course helpers: progress, durations, the next chapter to
    read, the status label and colour, and the placeholder banner. */
module CourseUtils {
  import opened Wrappers
  import opened Json
  import opened JsMath

  // ---------------------------------------------------------------------
  // calculateCourseProgress

  /** `course?.courseContent?.chapters`. */
  function ContentChapters(course: Option<Json>): Option<Json> {
    GetOpt(GetOpt(course, "courseContent"), "chapters")
  }

  /** The truthy `course?.courseContent?.chapters?.length`, if any. */
  function ChapterTotal(course: Option<Json>): (r: Option<nat>)
    ensures r.Some? ==> r.value > 0
  {
    var chs := ContentChapters(course);
    if chs.None? then None
    else
      match LengthOf(chs.value)
      case Some(n) => if n > 0 then Some(n) else None
      case None => None
  }

  /** `Object.values(completedChapters || {}).filter(Boolean).length`, with
      `{}` also standing for a missing argument. */
  function CompletedCount(completed: Option<Json>): (r: nat)
    ensures !Present(completed) ==> r == 0
    ensures Present(completed) ==> r == TruthyValueCount(completed.value)
  {
    if Present(completed) then TruthyValueCount(completed.value) else 0
  }

  /** `calculateCourseProgress(course, completedChapters)`. */
  function CourseProgress(course: Option<Json>, completed: Option<Json>): (r: int)
    ensures r >= 0
    ensures ChapterTotal(course).None? ==> r == 0
  {
    match ChapterTotal(course)
    case None => 0
    case Some(total) =>
      var c := CompletedCount(completed);
      RoundNonNegative(100 * c, total);
      Round(100 * c, total)
  }

  lemma RoundNonNegative(a: nat, b: nat)
    requires b > 0
    ensures Round(a, b) >= 0
  {
  }

  /** With no more completed entries than chapters the progress lies in
      [0, 100], and it is 100 when every chapter is completed; it is the
      one integer within half of the exact percentage. */
  lemma CourseProgressBounds(course: Option<Json>, completed: Option<Json>)
    requires ChapterTotal(course).Some? && CompletedCount(completed) <= ChapterTotal(course).value
    ensures 0 <= CourseProgress(course, completed) <= 100
    ensures CompletedCount(completed) == ChapterTotal(course).value ==> CourseProgress(course, completed) == 100
    ensures var t := ChapterTotal(course).value;
      2 * t * CourseProgress(course, completed) - t <= 200 * CompletedCount(completed)
      < 2 * t * CourseProgress(course, completed) + t
  {
    var t := ChapterTotal(course).value;
    PercentBounds(CompletedCount(completed), t);
    RoundCharacterised(100 * CompletedCount(completed), t, CourseProgress(course, completed));
  }

  /** The progress is not capped: two truthy entries for a one-chapter
      course give 200. */
  lemma CourseProgressUncapped()
    ensures CourseProgress(Some(Obj(map["courseContent" := Obj(map["chapters" := Arr([Null])])])),
                           Some(Obj(map["a" := Bool(true), "b" := Bool(true)]))) == 200
  {
    var course := Some(Obj(map["courseContent" := Obj(map["chapters" := Arr([Null])])]));
    var m := map["a" := Bool(true), "b" := Bool(true)];
    var ks := set k | k in m && Truthy(m[k]);
    assert ks == {"a", "b"};
    assert "a" != "b";
    assert CompletedCount(Some(Obj(m))) == 2;
    assert ChapterTotal(course) == Some(1);
    assert Round(200, 1) == 200;
  }

  // ---------------------------------------------------------------------
  // formatDuration

  /** `formatDuration(minutes)` for an integer number of minutes. */
  function FormatDuration(minutes: int): string {
    if minutes == 0 then "0 min"
    else if minutes < 60 then IntStr(minutes) + " min"
    else HoursText(minutes / 60, minutes % 60)
  }

  /** The printed form of `h` hours and `r` minutes. */
  function HoursText(h: nat, r: nat): string {
    if r == 0 then NatStr(h) + " hr" else NatStr(h) + " hr " + NatStr(r) + " min"
  }

  /** For an hour or more, the printed hours and minutes add up to the
      input, with fewer than 60 minutes left over. */
  lemma FormatDurationParts(minutes: int)
    requires minutes >= 60
    ensures exists h: nat, r: nat ::
      && 60 * h + r == minutes && r < 60 && h >= 1
      && FormatDuration(minutes) == NatStr(h) + " hr" + (if r == 0 then "" else " " + NatStr(r) + " min")
  {
    var h, r := minutes / 60, minutes % 60;
    assert 60 * h + r == minutes && r < 60 && h >= 1;
    if r != 0 {
      assert NatStr(h) + " hr " + NatStr(r) + " min" == NatStr(h) + " hr" + (" " + NatStr(r) + " min");
    } else {
      assert NatStr(h) + " hr" + "" == NatStr(h) + " hr";
    }
  }

  predicate AllDigits(s: string) {
    forall k :: 0 <= k < |s| ==> '0' <= s[k] <= '9'
  }

  /** The position of the first space, `|s|` when there is none. */
  function FirstSpace(s: string): (r: nat)
    ensures r <= |s|
  {
    if s == [] || s[0] == ' ' then 0 else 1 + FirstSpace(s[1..])
  }

  /** Reading a printed duration back: "<m> min", "<h> hr" or
      "<h> hr <r> min". */
  function DurationMinutes(s: string): Option<nat> {
    var sp := FirstSpace(s);
    if sp == |s| || !AllDigits(s[..sp]) then None else WithUnit(ParseNat(s[..sp]), s[sp..])
  }

  /** The minutes of a number followed by `tail`. */
  function WithUnit(n: nat, tail: string): Option<nat> {
    if tail == " min" then Some(n)
    else if tail == " hr" then Some(60 * n)
    else if |tail| >= 8 && tail[..4] == " hr " && tail[|tail| - 4..] == " min" && AllDigits(tail[4..|tail| - 4]) then
      Some(60 * n + ParseNat(tail[4..|tail| - 4]))
    else None
  }

  /** A number printed before `tail` is read back. */
  lemma {:induction false} ReadLeading(n: nat, tail: string)
    requires |tail| > 0 && tail[0] == ' '
    ensures DurationMinutes(NatStr(n) + tail) == WithUnit(n, tail)
  {
    LeadingNumber(n, tail);
    NatStrRoundTrip(n);
  }

  /** The number before the first space of `NatStr(n) + tail`. */
  lemma {:induction false} LeadingNumber(n: nat, tail: string)
    requires |tail| > 0 && tail[0] == ' '
    ensures var s := NatStr(n) + tail;
      FirstSpace(s) == |NatStr(n)| && s[..|NatStr(n)|] == NatStr(n) && s[|NatStr(n)|..] == tail
  {
    var s := NatStr(n) + tail;
    FirstSpaceAt(s, |NatStr(n)|);
  }

  lemma {:induction false} FirstSpaceAt(t: string, i: nat)
    requires i < |t| && t[i] == ' '
    requires forall m :: 0 <= m < i ==> t[m] != ' '
    ensures FirstSpace(t) == i
  {
    if i > 0 {
      FirstSpaceAt(t[1..], i - 1);
    }
  }

  /** A printed duration of a non-negative number of minutes reads back as
      that number. */
  lemma {:induction false} FormatDurationRoundTrip(minutes: nat)
    ensures DurationMinutes(FormatDuration(minutes)) == Some(minutes)
  {
    if minutes < 60 {
      RoundTripBelowHour(minutes);
    } else {
      RoundTripHours(minutes, minutes / 60, minutes % 60);
    }
  }

  lemma {:induction false} RoundTripBelowHour(minutes: nat)
    requires minutes < 60
    ensures DurationMinutes(FormatDuration(minutes)) == Some(minutes)
  {
    if minutes == 0 {
      assert NatStr(0) == "0";
      assert FormatDuration(0) == NatStr(0) + " min";
    }
    ReadMin(minutes);
  }

  lemma {:induction false} RoundTripHours(minutes: nat, h: nat, r: nat)
    requires h == minutes / 60 && r == minutes % 60
    ensures DurationMinutes(HoursText(h, r)) == Some(minutes)
  {
    Div60(minutes);
    ReadHours(h, r);
  }

  lemma Div60(minutes: nat)
    ensures 60 * (minutes / 60) + minutes % 60 == minutes
  {
  }

  lemma {:induction false} ReadHours(h: nat, r: nat)
    ensures DurationMinutes(HoursText(h, r)) == Some(60 * h + r)
  {
    if r == 0 {
      ReadHr(h);
    } else {
      ReadHrMin(h, r);
    }
  }

  lemma {:induction false} ReadMin(n: nat)
    ensures DurationMinutes(NatStr(n) + " min") == Some(n)
  {
    ReadLeading(n, " min");
  }

  lemma {:induction false} ReadHr(h: nat)
    ensures DurationMinutes(NatStr(h) + " hr") == Some(60 * h)
  {
    ReadLeading(h, " hr");
    assert " hr" != " min" by { assert " hr"[1] != " min"[1]; }
  }

  lemma {:induction false} ReadHrMin(h: nat, r: nat)
    ensures DurationMinutes(NatStr(h) + " hr " + NatStr(r) + " min") == Some(60 * h + r)
  {
    var tail := " hr " + NatStr(r) + " min";
    assert NatStr(h) + " hr " + NatStr(r) + " min" == NatStr(h) + tail;
    ReadLeading(h, tail);
    UnitHrMin(h, r, tail);
  }

  lemma {:induction false} UnitHrMin(h: nat, r: nat, tail: string)
    requires tail == " hr " + NatStr(r) + " min"
    ensures WithUnit(h, tail) == Some(60 * h + r)
  {
    NatStrRoundTrip(r);
    assert |tail| >= 9;
    assert tail != " min" && tail != " hr" by {
      assert |" min"| == 4 && |" hr"| == 3;
    }
    assert tail[..4] == " hr ";
    assert tail[|tail| - 4..] == " min";
    assert tail[4..|tail| - 4] == NatStr(r);
  }

  // ---------------------------------------------------------------------
  // getNextIncompleteChapter

  /** `completedChapters[key]` on an object; arrays and strings indexed by
      a number are not modelled, and other values have no entries. */
  function Member(completed: Json, key: string): Option<Json> {
    Get(completed, key)
  }

  /** Chapter `ch` is marked completed: `completedChapters[ch.id]` truthy,
      with the id converted to a property key. */
  predicate Done(ch: Json, completed: Json) {
    Present(Member(completed, TemplateStr(Get(ch, "id"))))
  }

  /** Reading `chapter.id` throws on a `null` chapter, and indexing a
      `null` record throws. */
  predicate FindThrows(ch: Json, completed: Json) {
    ch == Null || completed == Null
  }

  /** `chapters.find(chapter => !completedChapters[chapter.id])`: the index
      of the first chapter not completed, `None` for `undefined`. */
  function FindIncomplete(chs: seq<Json>, completed: Json): (r: Result<Option<nat>>)
    ensures r.Ok? && r.value.Some? ==>
      && r.value.value < |chs|
      && !FindThrows(chs[r.value.value], completed) && !Done(chs[r.value.value], completed)
      && forall j :: 0 <= j < r.value.value ==> !FindThrows(chs[j], completed) && Done(chs[j], completed)
    ensures r.Err? ==> exists j :: 0 <= j < |chs| && FindThrows(chs[j], completed)
  {
    if chs == [] then Ok(None)
    else if FindThrows(chs[0], completed) then Err("TypeError")
    else if !Done(chs[0], completed) then Ok(Some(0))
    else
      match FindIncomplete(chs[1..], completed)
      case Err(e) => Err(e)
      case Ok(None) => Ok(None)
      case Ok(Some(i)) => Ok(Some(i + 1))
  }

  /** Nothing is found exactly when every chapter is read without error
      and marked completed. */
  lemma {:induction false} FindIncompleteNone(chs: seq<Json>, completed: Json)
    ensures FindIncomplete(chs, completed) == Ok(None) <==>
      forall j :: 0 <= j < |chs| ==> !FindThrows(chs[j], completed) && Done(chs[j], completed)
  {
    if chs != [] {
      FindIncompleteNone(chs[1..], completed);
      assert forall j :: 1 <= j < |chs| ==> chs[j] == chs[1..][j - 1];
    }
  }

  /** The three answers: `null` (no chapters), `undefined` (all done), or a
      chapter. */
  datatype NextChapter = NoChapters | AllDone | Next(chapter: Json)

  /** `getNextIncompleteChapter(course, completedChapters)`; a missing
      second argument stands for `{}`.  A non-empty string `chapters` has
      no `find` and throws. */
  function NextIncomplete(course: Option<Json>, completed: Option<Json>): (r: Result<NextChapter>)
    ensures ChapterTotal(course).None? ==> r == Ok(NoChapters)
  {
    if ChapterTotal(course).None? then Ok(NoChapters)
    else
      match ContentChapters(course).value
      case Arr(chs) =>
        var rec := if completed.Some? then completed.value else Obj(map[]);
        (match FindIncomplete(chs, rec)
         case Err(e) => Err(e)
         case Ok(None) => Ok(AllDone)
         case Ok(Some(i)) => Ok(Next(chs[i])))
      case _ => Err("TypeError")
  }

  /** Without a record of completed chapters, the first chapter is next. */
  lemma NothingCompletedFirstIsNext(ch: Json, rest: seq<Json>)
    requires ch != Null
    ensures NextIncomplete(Some(Obj(map["courseContent" := Obj(map["chapters" := Arr([ch] + rest)])])), None)
         == Ok(Next(ch))
  {
    var course := Some(Obj(map["courseContent" := Obj(map["chapters" := Arr([ch] + rest)])]));
    assert ContentChapters(course) == Some(Arr([ch] + rest));
  }

  // ---------------------------------------------------------------------
  // getCourseStatusText and getStatusColorClass

  function StatusText(progress: int): string {
    if progress == 100 then "Completed" else if progress > 0 then "In Progress" else "Not Started"
  }

  function StatusColorClass(progress: int): string {
    if progress == 100 then "text-green-600" else if progress > 0 then "text-blue-600" else "text-gray-600"
  }

  /** The label and the colour agree branch for branch.  A progress above
      100 reads "In Progress". */
  lemma StatusAgrees(progress: int)
    ensures StatusText(progress) == "Completed" <==> StatusColorClass(progress) == "text-green-600"
    ensures StatusText(progress) == "In Progress" <==> StatusColorClass(progress) == "text-blue-600"
    ensures StatusText(progress) == "Not Started" <==> StatusColorClass(progress) == "text-gray-600"
    ensures StatusText(progress) == "Completed" <==> progress == 100
    ensures StatusText(progress) == "Not Started" <==> progress <= 0
  {
    assert "Completed" != "In Progress" && "Completed" != "Not Started" && "In Progress" != "Not Started" by {
      assert "Completed"[0] != "In Progress"[0] && "Completed"[0] != "Not Started"[0];
      assert "In Progress"[0] != "Not Started"[0];
    }
    assert "text-green-600"[5] != "text-blue-600"[5] && "text-green-600"[5] != "text-gray-600"[6];
  }

  // ---------------------------------------------------------------------
  // getFallbackImage

  const TwoTo31: int := 0x8000_0000
  const TwoTo32: int := 0x1_0000_0000

  /** `ToInt32`. */
  function Int32(x: int): (r: int)
    ensures -TwoTo31 <= r < TwoTo31
    ensures (r - x) % TwoTo32 == 0
  {
    var u := x % TwoTo32;
    if u >= TwoTo31 then u - TwoTo32 else u
  }

  /** One step of the title hash: `code + ((acc << 5) - acc)`.  `acc << 5`
      wraps to 32 bits; the subtraction does not. */
  function HashStep(acc: int, code: nat): int {
    code + (Int32(Int32(acc) * 32) - acc)
  }

  /** The hash of the UTF-16 code units of the text, from the left. */
  function HashFrom(acc: int, codes: seq<nat>): int
    decreases |codes|
  {
    if codes == [] then acc else HashFrom(HashStep(acc, codes[0]), codes[1..])
  }

  /** `Math.abs(hash) % 360`. */
  function Hue(hash: int): (h: nat)
    ensures h < 360
  {
    (if hash < 0 then -hash else hash) % 360
  }

  /** The code units of a string; characters outside the Basic
      Multilingual Plane, which JavaScript splits into two units, are not
      modelled. */
  function Codes(s: string): (r: seq<nat>)
    ensures |r| == |s|
  {
    seq(|s|, i requires 0 <= i < |s| => s[i] as nat)
  }

  /** `getFallbackImage(title, type)` with `encodeURIComponent` as
      `encode`; missing arguments take their defaults (`''` and
      `'course'`).  A truthy title that is not a string has no `split`. */
  function FallbackImage(title: Option<Json>, kind: Option<Json>, encode: string -> string): (r: Result<string>)
  {
    var text := if Present(title) then title.value else Str("Course");
    if !text.Str? then Err("TypeError")
    else
      var dims := if kind.None? || kind.value == Str("course") then "1280x720" else "400x400";
      var h := Hue(HashFrom(0, Codes(text.s)));
      Ok("https://placehold.co/" + dims + "/hsl(" + NatStr(h) + ",70%,80%)/333333?text=" + encode(text.s))
  }

  /** The shape of the placeholder: an empty or missing title stands for
      "Course", the size is 1280x720 exactly for the 'course' type (also
      the default), and the hue lies in [0, 360). */
  lemma FallbackImageShape(title: Option<Json>, kind: Option<Json>, encode: string -> string)
    requires !Present(title) || title.value.Str?
    ensures FallbackImage(title, kind, encode).Ok?
    ensures var text := if Present(title) then title.value.s else "Course";
      exists h: nat :: h < 360 && FallbackImage(title, kind, encode).value ==
        "https://placehold.co/" + (if kind.None? || kind.value == Str("course") then "1280x720" else "400x400")
        + "/hsl(" + NatStr(h) + ",70%,80%)/333333?text=" + encode(text)
  {
    var text := if Present(title) then title.value.s else "Course";
    var h := Hue(HashFrom(0, Codes(text)));
    assert h < 360;
  }

  function Abs(x: int): nat {
    if x < 0 then -x else x
  }

  /** Each step moves the hash by less than 2^31 + 2^16, so for any title
      shorter than 2^21 code units every intermediate value stays below
      2^53 and the float computation is exact, as the integer model is. */
  lemma {:induction false} HashGrowth(acc: int, codes: seq<nat>)
    requires forall k :: 0 <= k < |codes| ==> codes[k] < 0x1_0000
    ensures Abs(HashFrom(acc, codes)) <= Abs(acc) + |codes| * (TwoTo31 + 0x1_0000)
    decreases |codes|
  {
    if codes != [] {
      var next := HashStep(acc, codes[0]);
      assert Abs(next) <= Abs(acc) + TwoTo31 + 0x1_0000;
      HashGrowth(next, codes[1..]);
    }
  }
}
