/** The course-information panel of the course editor: reading the stored
    layout, choosing and normalising the banner source, and deciding
    whether the banner host is one the image optimiser may load. */
module CourseInfoView {
  import opened Wrappers
  import opened Json
  import CourseLayoutRoute

  /** `parseCourse`: `null` when `courseJson` is falsy or its text does not
      parse; a string is parsed, any other value used as it is, and one
      `course` wrapper is removed when its value is not nullish. */
  function ParseCourse(courseJson: Option<Json>, parse: string -> Option<Json>): (r: Json)
    ensures !Present(courseJson) ==> r == Null
    ensures Present(courseJson) && courseJson.value.Str? && parse(courseJson.value.s).None? ==> r == Null
  {
    if !Present(courseJson) then Null
    else
      var parsed := if courseJson.value.Str? then parse(courseJson.value.s) else Some(courseJson.value);
      if parsed.None? then Null
      else
        var inner := Get(parsed.value, "course");
        if inner.Some? && inner.value != Null then inner.value else parsed.value
  }

  /** The three ways `parseCourse` reads a layout: unwrapped, used as it
      is, or parsed from text. */
  lemma ParseCourseCases(layout: Json, parse: string -> Option<Json>, text: string)
    requires layout.Obj? && text != ""
    ensures Get(layout, "course").Some? && Get(layout, "course").value != Null ==>
      ParseCourse(Some(layout), parse) == Get(layout, "course").value
    ensures Get(layout, "course").None? || Get(layout, "course") == Some(Null) ==>
      ParseCourse(Some(layout), parse) == layout
    ensures Present(parse(text)) && !parse(text).value.Str? ==> ParseCourse(Some(Str(text)), parse) == ParseCourse(parse(text), parse)
  {
  }

  /** Only one wrapper is removed. */
  lemma OneWrapperOnly(inner: Json, parse: string -> Option<Json>)
    requires inner != Null
    ensures ParseCourse(Some(Obj(map["course" := Obj(map["course" := inner])])), parse) == Obj(map["course" := inner])
  {
  }

  const DefaultBanner := "/default-course-banner.jpg"

  /** `course.bannerImageURL ?? parsed.bannerImageURL ?? default`: only
      `null` and `undefined` fall through.  A value that is not a string
      has no `startsWith`, which is a TypeError. */
  function BannerSource(courseBanner: Option<Json>, parsed: Json): (r: Result<string>)
    ensures !Nullish(courseBanner) ==> (r.Ok? <==> courseBanner.value.Str?) && (r.Ok? ==> r.value == courseBanner.value.s)
    ensures Nullish(courseBanner) && Nullish(Get(parsed, "bannerImageURL")) ==> r == Ok(DefaultBanner)
    ensures Nullish(courseBanner) && !Nullish(Get(parsed, "bannerImageURL")) ==>
      (r.Ok? <==> Get(parsed, "bannerImageURL").value.Str?)
  {
    var chosen := if !Nullish(courseBanner) then courseBanner.value
                  else if !Nullish(Get(parsed, "bannerImageURL")) then Get(parsed, "bannerImageURL").value
                  else Str(DefaultBanner);
    if chosen.Str? then Ok(chosen.s) else Err("TypeError")
  }

  /** An empty banner URL of the course is kept, not replaced. */
  lemma EmptyBannerKept(parsed: Json)
    ensures BannerSource(Some(Str("")), parsed) == Ok("")
  {
  }

  /** The raw-base64 test on the source. */
  predicate LooksLikeBase64(s: string) {
    !StartsWith(s, "data:") && !IsHttpUrl(s) && Base64Like(s) && |s| > 200
  }

  /** What the normalisation makes of a source. */
  function Normalised(s: string): (r: string)
    ensures StartsWith(s, "//") ==> r == "https:" + s
    ensures !StartsWith(s, "//") && LooksLikeBase64(s) ==> r == CourseLayoutRoute.DataUriPrefix + RemoveSpaces(s)
    ensures !StartsWith(s, "//") && !LooksLikeBase64(s) ==> r == s
  {
    if StartsWith(s, "//") then "https:" + s
    else if LooksLikeBase64(s) then CourseLayoutRoute.DataUriPrefix + RemoveSpaces(s)
    else s
  }

  /** A protocol-relative URL, once given "https:", is not taken for
      base64. */
  lemma ProtocolRelativeIsUrl(s: string)
    requires StartsWith(s, "//")
    ensures !LooksLikeBase64("https:" + s)
    ensures IsHttpUrl("https:" + s)
  {
    var t := "https:" + s;
    assert t[5] == ':';
    assert !IsBase64OrSpace(t[5]);
    assert ToLower(t)[..8] == "https://";
  }

  /** The normalisation of lines 106-113, which reassigns `src`. */
  method NormaliseBanner(s: string) returns (src: string)
    ensures src == Normalised(s)
  {
    src := s;
    if StartsWith(src, "//") {
      src := "https:" + src;
      ProtocolRelativeIsUrl(s);
    }
    if LooksLikeBase64(src) {
      src := CourseLayoutRoute.DataUriPrefix + RemoveSpaces(src);
    }
  }

  /** Normalising twice is normalising once. */
  lemma NormalisedIdempotent(s: string)
    ensures Normalised(Normalised(s)) == Normalised(s)
  {
    var r := Normalised(s);
    if StartsWith(s, "//") {
      ProtocolRelativeIsUrl(s);
      assert r[0] == 'h';
      assert !StartsWith(r, "//");
    } else if LooksLikeBase64(s) {
      var p := CourseLayoutRoute.DataUriPrefix;
      assert r[..|p|] == p;
      assert r[..5] == "data:";
      assert r[0] == 'd';
      assert !StartsWith(r, "//");
    }
  }

  /** The banner source the panel shows. */
  method BannerSrc(courseBanner: Option<Json>, parsed: Json) returns (r: Result<string>)
    ensures BannerSource(courseBanner, parsed).Err? ==> r.Err?
    ensures BannerSource(courseBanner, parsed).Ok? ==> r == Ok(Normalised(BannerSource(courseBanner, parsed).value))
  {
    var src := BannerSource(courseBanner, parsed);
    if src.Err? {
      return Err(src.reason);
    }
    var n := NormaliseBanner(src.value);
    r := Ok(n);
  }

  /** The hosts the optimised image component may load from. */
  const AllowedHosts: seq<string> := ["firebasestorage.googleapis.com", "aigurulab.tech", "cdn.aigurulab.tech", "images.unsplash.com"]

  /** `isAllowedHost(url)`; `hostname` is what the URL parser reports, or
      `None` when it throws. */
  function IsAllowedHost(hostname: Option<string>): (r: bool)
    ensures r <==> hostname.Some? && ToLower(hostname.value) in AllowedHosts
  {
    hostname.Some? && ToLower(hostname.value) in AllowedHosts
  }

  lemma {:induction false} ToLowerIdempotent(h: string)
    ensures ToLower(ToLower(h)) == ToLower(h)
  {
    assert forall k :: 0 <= k < |h| ==> LowerChar(LowerChar(h[k])) == LowerChar(h[k]);
  }

  /** The host test ignores ASCII case. */
  lemma AllowedHostIgnoresCase(h: string)
    ensures IsAllowedHost(Some(ToLower(h))) == IsAllowedHost(Some(h))
  {
    ToLowerIdempotent(h);
  }
}
