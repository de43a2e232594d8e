/** The course browser: the fetched course list without the test course,
    the search and filter, the category and level choices, the set of
    enrolled course ids, and the per-card figures. */
module CoursesBrowser {
  import opened Wrappers
  import opened Json
  import opened JsMath
  import CourseCardView

  /** The course that is never listed. */
  const TestCid := "test-cid-1"

  /** `allCourses.filter(course => course.cid !== 'test-cid-1')`; a `null`
      course has no `cid`, which is a TypeError. */
  function WithoutTest(all: seq<Json>): (r: Result<seq<Json>>)
    ensures r.Err? <==> Null in all
    ensures r.Ok? ==> |r.value| <= |all|
    ensures r.Ok? ==> forall c :: c in r.value <==> c in all && Get(c, "cid") != Some(Str(TestCid))
  {
    if all == [] then Ok([])
    else if all[0] == Null then Err("TypeError")
    else
      var rest := WithoutTest(all[1..]);
      if rest.Err? then rest
      else if Get(all[0], "cid") == Some(Str(TestCid)) then rest
      else Ok([all[0]] + rest.value)
  }

  /** `response.data || []`, then the test course removed. */
  function FetchedCourses(data: Json): (r: Result<seq<Json>>)
    ensures !Truthy(data) ==> r == Ok([])
  {
    if !Truthy(data) then Ok([])
    else if data.Arr? then WithoutTest(data.items)
    else Err("TypeError")
  }

  /** `v?.toLowerCase().includes(term.toLowerCase())`: `null` and a missing
      field give `undefined`; a value that is not a string has no
      `toLowerCase`. */
  function TextMatches(v: Option<Json>, term: string): (r: Result<bool>)
    ensures Nullish(v) ==> r == Ok(false)
    ensures v.Some? && v.value.Str? ==> r == Ok(Contains(ToLower(v.value.s), ToLower(term)))
  {
    if Nullish(v) then Ok(false)
    else if v.value.Str? then Ok(Contains(ToLower(v.value.s), ToLower(term)))
    else Err("TypeError")
  }

  /** The three tests of one course; the description is read only when the
      name does not match. */
  function Passes(c: Json, term: string, category: string, level: string): Result<bool> {
    var byName := TextMatches(Get(c, "name"), term);
    var search := if byName == Ok(true) then Ok(true)
                  else if byName.Err? then byName
                  else TextMatches(Get(c, "description"), term);
    if search.Err? then search
    else Ok(search.value
            && (category == "all" || Get(c, "category") == Some(Str(category)))
            && (level == "all" || Get(c, "level") == Some(Str(level))))
  }

  /** `filteredCourses`. */
  function Filtered(courses: seq<Json>, term: string, category: string, level: string): (r: Result<seq<Json>>)
  {
    if courses == [] then Ok([])
    else
      var here := Passes(courses[0], term, category, level);
      var rest := Filtered(courses[1..], term, category, level);
      if here.Err? then Err(here.reason)
      else if rest.Err? then rest
      else Ok((if here.value then [courses[0]] else []) + rest.value)
  }

  /** The filter keeps exactly the courses that pass, in their order, and
      shows no more than there are. */
  lemma {:induction false} FilteredSpec(courses: seq<Json>, term: string, category: string, level: string)
    requires forall i :: 0 <= i < |courses| ==> Passes(courses[i], term, category, level).Ok?
    ensures var r := Filtered(courses, term, category, level);
      && r.Ok?
      && |r.value| <= |courses|
      && (forall c :: c in r.value <==> c in courses && Passes(c, term, category, level) == Ok(true))
      && (forall i :: 0 <= i < |courses| && Passes(courses[i], term, category, level) == Ok(true) ==> courses[i] in r.value)
  {
    if courses != [] {
      assert forall i :: 1 <= i < |courses| ==> courses[1..][i - 1] == courses[i];
      FilteredSpec(courses[1..], term, category, level);
    }
  }

  /** The filter keeps the relative order of the courses it keeps. */
  lemma {:induction false} FilteredIsSubsequence(courses: seq<Json>, term: string, category: string, level: string)
    requires Filtered(courses, term, category, level).Ok?
    ensures IsSubsequence(Filtered(courses, term, category, level).value, courses)
  {
    if courses != [] {
      FilteredIsSubsequence(courses[1..], term, category, level);
      var here := Passes(courses[0], term, category, level);
      var rest := Filtered(courses[1..], term, category, level).value;
      if here.value {
        assert ([courses[0]] + rest)[1..] == rest;
      } else {
        assert Filtered(courses, term, category, level).value == [] + rest == rest;
        SubsequenceSkip(rest, courses[1..], courses[0]);
        assert [courses[0]] + courses[1..] == courses;
      }
    }
  }

  lemma {:induction false} SubsequenceDropHead(sub: seq<Json>, s: seq<Json>)
    requires sub != [] && IsSubsequence(sub, s)
    ensures IsSubsequence(sub[1..], s)
    decreases |s|, 0
  {
    if s != [] && sub[0] != s[0] {
      SubsequenceDropHead(sub, s[1..]);
      SubsequenceSkip(sub[1..], s[1..], s[0]);
      assert [s[0]] + s[1..] == s;
    } else if s != [] {
      SubsequenceSkip(sub[1..], s[1..], s[0]);
      assert [s[0]] + s[1..] == s;
    }
  }

  lemma {:induction false} SubsequenceSkip(sub: seq<Json>, s: seq<Json>, x: Json)
    requires IsSubsequence(sub, s)
    ensures IsSubsequence(sub, [x] + s)
    decreases |s|, 1
  {
    assert ([x] + s)[1..] == s;
    if sub != [] && sub[0] == x {
      SubsequenceDropHead(sub, s);
    }
  }

  /** `sub` is `s` with some elements left out. */
  predicate IsSubsequence(sub: seq<Json>, s: seq<Json>)
    decreases |s|
  {
    if sub == [] then true
    else if s == [] then false
    else if sub[0] == s[0] then IsSubsequence(sub[1..], s[1..])
    else IsSubsequence(sub, s[1..])
  }

  /** A course with neither a name nor a description never matches, not
      even an empty search. */
  lemma NamelessNeverMatches(c: Json, category: string, level: string)
    requires Get(c, "name").None? && Get(c, "description").None?
    ensures Passes(c, "", category, level) == Ok(false)
  {
  }

  /** With an empty search and no selection, a course with a string name is
      shown. */
  lemma EmptySearchShowsNamed(c: Json, name: string)
    requires Get(c, "name") == Some(Str(name))
    ensures Passes(c, "", "all", "all") == Ok(true)
  {
    assert HasAt(ToLower(name), 0, ToLower(""));
  }

  /** The search ignores ASCII case. */
  lemma SearchIgnoresCase(c: Json, term: string, category: string, level: string)
    ensures Passes(c, ToLower(term), category, level) == Passes(c, term, category, level)
  {
    assert ToLower(ToLower(term)) == ToLower(term) by {
      assert forall k :: 0 <= k < |term| ==> LowerChar(LowerChar(term[k])) == LowerChar(term[k]);
    }
  }

  /** `[...new Set(values.filter(Boolean))]`: the distinct truthy values
      in the order of their first occurrence. */
  function Distinct(vs: seq<Json>): (r: seq<Json>)
    ensures |r| <= |vs|
    ensures forall v :: v in r <==> v in vs && Truthy(v)
    ensures forall i, j :: 0 <= i < j < |r| ==> r[i] != r[j]
  {
    if vs == [] then []
    else
      var r := Distinct(vs[..|vs| - 1]);
      var last := vs[|vs| - 1];
      assert vs == vs[..|vs| - 1] + [last];
      if Truthy(last) && last !in r then r + [last] else r
  }

  /** A value listed before another occurs first before the other's first
      occurrence. */
  lemma {:induction false} DistinctFirstOccurrence(vs: seq<Json>, i: nat, j: nat)
    requires i < j < |Distinct(vs)|
    ensures exists a :: 0 <= a < |vs| && vs[a] == Distinct(vs)[i] && Distinct(vs)[j] !in vs[..a + 1]
  {
    var init := vs[..|vs| - 1];
    var last := vs[|vs| - 1];
    var r := Distinct(init);
    assert vs == init + [last];
    if j < |r| {
      DistinctFirstOccurrence(init, i, j);
      var a :| 0 <= a < |init| && init[a] == r[i] && r[j] !in init[..a + 1];
      assert vs[..a + 1] == init[..a + 1];
    } else {
      assert Distinct(vs)[j] == last && last !in r;
      assert r[i] in init;
      var a :| 0 <= a < |init| && init[a] == r[i];
      assert vs[..a + 1] == init[..a + 1];
      assert forall x :: x in init[..a + 1] && Truthy(x) ==> x in r;
    }
  }

  function Field(cs: seq<Json>, k: string): (r: seq<Json>)
    ensures |r| == |cs|
    ensures forall i :: 0 <= i < |cs| ==> r[i] == Get(cs[i], k).GetOr(Null)
  {
    seq(|cs|, i requires 0 <= i < |cs| => Get(cs[i], k).GetOr(Null))
  }

  /** The category choices: every category some course has, once. */
  function Categories(cs: seq<Json>): seq<Json> {
    Distinct(Field(cs, "category"))
  }

  function Levels(cs: seq<Json>): seq<Json> {
    Distinct(Field(cs, "level"))
  }

  /** A truthy category of any course is offered, exactly once. */
  lemma CategoryOffered(cs: seq<Json>, i: nat)
    requires i < |cs| && Present(Get(cs[i], "category"))
    ensures Get(cs[i], "category").value in Categories(cs)
  {
    assert Field(cs, "category")[i] == Get(cs[i], "category").value;
  }

  /** `new Set(enrolled.map(e => e.courses?.cid).filter(Boolean))`; `None`
      stands for `undefined`.  A `null` entry has no `courses`. */
  function EnrolledCids(enrolled: seq<Json>): (r: Result<set<Json>>)
    ensures r.Err? <==> Null in enrolled
    ensures r.Ok? ==> forall v :: v in r.value <==> Truthy(v) && exists e :: e in enrolled && GetOpt(Get(e, "courses"), "cid") == Some(v)
  {
    if enrolled == [] then Ok({})
    else if enrolled[0] == Null then Err("TypeError")
    else
      var rest := EnrolledCids(enrolled[1..]);
      if rest.Err? then rest
      else
        var v := GetOpt(Get(enrolled[0], "courses"), "cid");
        assert forall e :: e in enrolled <==> e == enrolled[0] || e in enrolled[1..];
        Ok(if v.Some? && Truthy(v.value) then rest.value + {v.value} else rest.value)
  }

  /** `course.coursesContent || course.courseJson?.chapters?.length > 0`, on
      the stored `courseJson`. */
  predicate HasContent(c: Json) {
    || Present(Get(c, "coursesContent"))
    || (var chs := GetOpt(Get(c, "courseJson"), "chapters");
        chs.Some? && LengthOf(chs.value).Some? && LengthOf(chs.value).value > 0)
  }

  /** An empty content array counts as content here but not on the
      workspace card. */
  lemma EmptyContentDisagrees(parsed: Json)
    requires !Present(Get(parsed, "chapters"))
    ensures HasContent(Obj(map["coursesContent" := Arr([])]))
    ensures !CourseCardView.HasContent(Obj(map["coursesContent" := Arr([])]), parsed)
  {
  }

  /** `Math.ceil((numberOfChapters || 1) * 15 / 60)`. */
  function Hours(chapters: Option<Json>): int {
    var n := if Present(chapters) && chapters.value.Num? then chapters.value.n else 1;
    CeilDiv(n * 15, 60)
  }

  /** A quarter of an hour per chapter, rounded up: one hour for up to four
      chapters, and one more for each four after. */
  lemma HoursFormula(n: int)
    requires n > 0
    ensures Hours(Some(Num(n))) == (n + 3) / 4
    ensures Hours(Some(Num(n))) >= 1
    ensures 4 * Hours(Some(Num(n))) - 4 < n <= 4 * Hours(Some(Num(n)))
  {
  }

  lemma HoursDefault()
    ensures Hours(None) == 1 && Hours(Some(Num(0))) == 1 && Hours(Some(Null)) == 1
  {
  }

  /** The page's state. */
  class CoursesPage {
    var courses: seq<Json>
    var enrolledCids: set<Json>
    var loading: bool

    constructor()
      ensures courses == [] && enrolledCids == {} && loading
    {
      courses := [];
      enrolledCids := {};
      loading := true;
    }

    /** `fetchCourses`: a failure keeps the old list. */
    method FetchCourses(data: Option<Json>)
      modifies this
      ensures !loading && enrolledCids == old(enrolledCids)
      ensures data.Some? && FetchedCourses(data.value).Ok? ==> courses == FetchedCourses(data.value).value
      ensures !(data.Some? && FetchedCourses(data.value).Ok?) ==> courses == old(courses)
    {
      loading := true;
      if data.Some? {
        var r := FetchedCourses(data.value);
        if r.Ok? {
          courses := r.value;
        }
      }
      loading := false;
    }

    /** `getEnrolledCids`. */
    method GetEnrolledCids(data: Option<Json>)
      modifies this
      ensures courses == old(courses) && loading == old(loading)
      ensures data.Some? && !Truthy(data.value) ==> enrolledCids == {}
      ensures data.Some? && data.value.Arr? && EnrolledCids(data.value.items).Ok? ==>
        enrolledCids == EnrolledCids(data.value.items).value
      ensures data.None? || (Truthy(data.value) && !data.value.Arr?) ==> enrolledCids == old(enrolledCids)
      ensures data.Some? && data.value.Arr? && Null in data.value.items ==> enrolledCids == old(enrolledCids)
    {
      if data.Some? {
        if !Truthy(data.value) {
          enrolledCids := {};
        } else if data.value.Arr? {
          var r := EnrolledCids(data.value.items);
          if r.Ok? {
            enrolledCids := r.value;
          }
        }
      }
    }

    /** `handleEnrollCourse`: a successful answer adds the course's id and
        nothing else.  `None` stands for `undefined`, which the set can
        hold too; it is kept as `null` here. */
    method HandleEnroll(course: Json, answer: Option<Json>)
      modifies this
      ensures courses == old(courses) && loading == old(loading)
      ensures answer.Some? && Present(Get(answer.value, "success")) ==>
        enrolledCids == old(enrolledCids) + {Get(course, "cid").GetOr(Null)}
      ensures !(answer.Some? && Present(Get(answer.value, "success"))) ==> enrolledCids == old(enrolledCids)
    {
      if answer.Some? && Present(Get(answer.value, "success")) {
        enrolledCids := enrolledCids + {Get(course, "cid").GetOr(Null)};
      }
    }
  }
}
