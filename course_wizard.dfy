/** The three-step course creation wizard: basic information, details,
    then generation.  The form is the object the wizard keeps and posts;
    the two services it calls are oracles from a request body to the
    answer's `data` (`None` when the request fails).  The last part relates
    the wizard to the layout and content routes. */
module CourseWizard {
  import opened Wrappers
  import opened Json
  import opened Store
  import CourseContentRoute
  import CourseLayoutRoute
  import ModelRetry

  const LayoutUrl := "/api/generate-course-layout"
  const ContentUrl := "/api/generate-course-content"
  const ViewPrefix := "/workspace/view-course/"

  /** The form the wizard starts with. */
  const DefaultForm: map<string, Json> := map[
    "name" := Str(""),
    "description" := Str(""),
    "category" := Str("programming"),
    "level" := Str("beginner"),
    "numberOfChapters" := Num(5),
    "includeVideo" := Bool(false)]

  /** The fields each step shows an input for. */
  function StepFields(step: int): set<string> {
    if step == 1 then {"name", "description"}
    else if step == 2 then {"category", "level"}
    else if step == 3 then {"numberOfChapters", "includeVideo"}
    else {}
  }

  /** `formData.name && formData.description`. */
  predicate Filled(form: map<string, Json>) {
    && "name" in form && Truthy(form["name"])
    && "description" in form && Truthy(form["description"])
  }

  /** A property read `v.k`: a `TypeError` on `undefined` and `null`. */
  function Member(v: Option<Json>, k: string): (r: Result<Option<Json>>)
    ensures r.Err? <==> Nullish(v)
    ensures r.Ok? ==> r.value == Get(v.value, k)
  {
    if Nullish(v) then Err("TypeError") else Ok(Get(v.value, k))
  }

  datatype Request = Request(url: string, body: Json)

  /** What a generation comes to: the requests sent, in order, and on
      success the page the wizard goes to. */
  datatype Generation = Failed(requests: seq<Request>) | Done(requests: seq<Request>, target: string)

  /** `{courseId, ...formData}`; an undefined `courseId` is not sent, and a
      `courseId` of the form wins. */
  function ContentBody(courseId: Option<Json>, form: map<string, Json>): (b: Json)
    ensures b.Obj? && forall k :: k in form ==> Get(b, k) == Some(form[k])
    ensures "courseId" !in form ==> Get(b, "courseId") == courseId
  {
    Obj((if courseId.Some? then map["courseId" := courseId.value] else map[]) + form)
  }

  /** `handleGenerate`: the layout request, then `data.created.cid`, then
      the content request. */
  function Generate(form: map<string, Json>, layout: Json -> Option<Json>, content: Json -> Option<Json>): (g: Generation)
  {
    var first := Request(LayoutUrl, Obj(form));
    match layout(Obj(form))
    case None => Failed([first])
    case Some(data) =>
      match Member(Get(data, "created") , "cid")
      case Err(_) => Failed([first])
      case Ok(cid) =>
        var body := ContentBody(cid, form);
        var second := Request(ContentUrl, body);
        if content(body).None? then Failed([first, second])
        else Done([first, second], ViewPrefix + TemplateStr(cid))
  }

  /** The form goes to the layout service first; content is requested only
      when the layout answer holds a `created` value, and then with its
      `cid` as `courseId`.  The wizard moves on to that course's page only
      when both answers arrived. */
  lemma GenerateOrder(form: map<string, Json>, layout: Json -> Option<Json>, content: Json -> Option<Json>)
    requires "courseId" !in form
    ensures var g := Generate(form, layout, content);
      && 1 <= |g.requests| <= 2
      && g.requests[0] == Request(LayoutUrl, Obj(form))
      && (|g.requests| == 2 <==> layout(Obj(form)).Some? && !Nullish(Get(layout(Obj(form)).value, "created")))
      && (|g.requests| == 2 ==>
            var cid := Get(Get(layout(Obj(form)).value, "created").value, "cid");
            g.requests[1].url == ContentUrl && Get(g.requests[1].body, "courseId") == cid)
      && (g.Done? <==> |g.requests| == 2 && content(g.requests[1].body).Some?)
  {
  }

  /** The wizard's state.  Handlers run to completion, so `loading` is only
      set inside `Next`. */
  class Wizard {
    var step: int
    var loading: bool
    var form: map<string, Json>
    var location: Option<string>
    var closed: bool

    /** Steps stay in 1..3, the form keeps its six fields, and a step after
        the first has a name and a description. */
    predicate Valid()
      reads this
    {
      1 <= step <= 3 && form.Keys == DefaultForm.Keys && (step >= 2 ==> Filled(form))
    }

    constructor()
      ensures Valid()
      ensures step == 1 && !loading && form == DefaultForm
      ensures location.None? && !closed
    {
      step := 1;
      loading := false;
      form := DefaultForm;
      location := None;
      closed := false;
    }

    /** `updateField`: only the named field changes.  Through the inputs a
        step shows, the invariant is kept. */
    method UpdateField(field: string, value: Json)
      modifies this
      ensures form == old(form)[field := value]
      ensures forall k :: k in old(form) && k != field ==> k in form && form[k] == old(form)[k]
      ensures step == old(step) && loading == old(loading) && location == old(location) && closed == old(closed)
      ensures old(Valid()) && field in StepFields(step) ==> Valid()
    {
      form := form[field := value];
    }

    /** The Back button, disabled on step 1 and while loading. */
    method Back()
      modifies this
      ensures step == if old(step) == 1 || loading then old(step) else old(step) - 1
      ensures form == old(form) && loading == old(loading) && location == old(location) && closed == old(closed)
      ensures old(Valid()) ==> Valid()
    {
      if step != 1 && !loading {
        step := step - 1;
      }
    }

    /** `handleNext`: on step 1 an incomplete form stays; steps 1 and 2
        advance by one; step 3 generates.  After a generation `loading` is
        false whatever its outcome. */
    method Next(layout: Json -> Option<Json>, content: Json -> Option<Json>) returns (outcome: NextOutcome)
      modifies this
      ensures outcome == NextResult(old(step), old(form), layout, content)
      ensures step == if outcome.Advanced? then old(step) + 1 else old(step)
      ensures form == old(form)
      ensures outcome.Generated? ==> !loading
      ensures outcome.Generated? && outcome.g.Done? ==> location == Some(outcome.g.target) && closed
      ensures !(outcome.Generated? && outcome.g.Done?) ==> location == old(location) && closed == old(closed)
      ensures !outcome.Generated? ==> loading == old(loading)
      ensures old(Valid()) ==> Valid()
    {
      if step == 1 && !Filled(form) {
        return Incomplete;
      }
      if step < 3 {
        step := step + 1;
        return Advanced;
      }
      loading := true;
      var g := Generate(form, layout, content);
      if g.Done? {
        location := Some(g.target);
        closed := true;
      }
      loading := false;
      outcome := Generated(g);
    }
  }

  datatype NextOutcome = Incomplete | Advanced | Generated(g: Generation)

  function NextResult(step: int, form: map<string, Json>, layout: Json -> Option<Json>, content: Json -> Option<Json>): NextOutcome {
    if step == 1 && !Filled(form) then Incomplete
    else if step < 3 then Advanced
    else Generated(Generate(form, layout, content))
  }

  /** Continue is refused exactly on step 1 with an empty name or
      description; it advances exactly on steps 1 and 2 otherwise, and
      generates exactly on step 3. */
  lemma NextCases(step: int, form: map<string, Json>, layout: Json -> Option<Json>, content: Json -> Option<Json>)
    requires 1 <= step <= 3
    ensures NextResult(step, form, layout, content).Incomplete? <==> step == 1 && !Filled(form)
    ensures NextResult(step, form, layout, content).Advanced? <==> step < 3 && (step == 1 ==> Filled(form))
    ensures NextResult(step, form, layout, content).Generated? <==> step == 3
  {
  }

  /** The default form cannot leave step 1. */
  lemma DefaultFormIncomplete(layout: Json -> Option<Json>, content: Json -> Option<Json>)
    ensures NextResult(1, DefaultForm, layout, content) == Incomplete
  {
    assert !Truthy(DefaultForm["name"]);
  }

  // ---------------------------------------------------------------------
  // The wizard against the routes

  /** A course row as the JSON answer carries it. */
  function RowJson(c: Course): Json {
    Obj(c.cols["cid" := Str(c.cid)]["id" := Num(c.id)])
  }

  /** The `data` of the layout route's answer: an error status makes the
      request fail, and an undefined `created` is not serialised. */
  function LayoutAnswer(r: CourseLayoutRoute.LayoutResponse): (data: Option<Json>)
    ensures data.Some? <==> r.status == 201
    ensures data.Some? ==> (Get(data.value, "created").Some? <==> r.created.Some?)
    ensures data.Some? && r.created.Some? ==> Get(data.value, "created") == Some(RowJson(r.created.value))
  {
    if r.status != 201 then None
    else Some(Obj(map["success" := Bool(true)] + (if r.created.Some? then map["created" := RowJson(r.created.value)] else map[])))
  }

  /** The layout route only returns a row when the body names it: the
      returned row is the one whose `cid` is the body's `courseId`. */
  lemma LayoutCreatedNamesRow(rows: seq<Course>, body: Json, signedIn: bool, call: nat -> ModelRetry.Outcome,
                              parse: string -> Option<Json>, image: Json -> Option<Json>, probe: string -> Option<nat>)
    ensures var created := CourseLayoutRoute.LayoutResult(rows, Some(body), signedIn, call, parse, image, probe).0.created;
      created.Some? ==> CourseContentRoute.CourseIdOf(body) == Some(created.value.cid)
  {
  }

  /** The layout service as the route answers. */
  function RouteLayout(rows: seq<Course>, signedIn: bool, call: nat -> ModelRetry.Outcome,
                       parse: string -> Option<Json>, image: Json -> Option<Json>,
                       probe: string -> Option<nat>): Json -> Option<Json>
  {
    (b: Json) => LayoutAnswer(CourseLayoutRoute.LayoutResult(rows, Some(b), signedIn, call, parse, image, probe).0)
  }

  /** As written, the wizard's form carries no `courseId`, so the layout
      route updates no row and answers without `created`; reading
      `created.cid` then throws and the content is never requested. */
  lemma AsWrittenNeverReachesContent(form: map<string, Json>, rows: seq<Course>, signedIn: bool,
                                     call: nat -> ModelRetry.Outcome, parse: string -> Option<Json>,
                                     image: Json -> Option<Json>, probe: string -> Option<nat>,
                                     content: Json -> Option<Json>)
    requires "courseId" !in form
    ensures Generate(form, RouteLayout(rows, signedIn, call, parse, image, probe), content)
         == Failed([Request(LayoutUrl, Obj(form))])
  {
    LayoutCreatedNamesRow(rows, Obj(form), signedIn, call, parse, image, probe);
  }

  /** Even with a `cid`, the content body has no `courseJson`, which the
      content route rejects with 400. */
  lemma AsWrittenContentRejected(cid: Option<Json>, form: map<string, Json>, hasKey: bool,
                                 call: nat -> nat -> ModelRetry.Outcome, parse: string -> Option<Json>,
                                 search: string -> Option<Json>)
    requires "courseJson" !in form
    ensures CourseContentRoute.PostResult(Some(ContentBody(cid, form)), hasKey, call, parse, search).status == 400
  {
    assert Get(ContentBody(cid, form), "courseJson").None?;
  }

  /** The wizard's form never has those two keys. */
  lemma WizardFormLacksIds(w: Wizard)
    requires w.Valid()
    ensures "courseId" !in w.form && "courseJson" !in w.form
  {
  }

  /** The generation as the edit-course page does it: the layout request
      names the course row, and the content request carries that id and the
      layout the route stored. */
  function GenerateFixed(form: map<string, Json>, courseId: string, layout: Json -> Option<Json>,
                         content: Json -> Option<Json>): Generation
  {
    var layoutBody := Obj(form["courseId" := Str(courseId)]);
    var first := Request(LayoutUrl, layoutBody);
    match layout(layoutBody)
    case None => Failed([first])
    case Some(data) =>
      match Member(Get(data, "created"), "courseJson")
      case Err(_) => Failed([first])
      case Ok(cj) =>
        var body := Obj(form + map["courseId" := Str(courseId)]
                             + (if cj.Some? then map["courseJson" := cj.value] else map[]));
        var second := Request(ContentUrl, body);
        if content(body).None? then Failed([first, second])
        else Done([first, second], ViewPrefix + courseId)
  }

  /** Updating a row keeps it findable by its cid. */
  lemma UpdatedRowFound(rows: seq<Course>, id: string)
    requires WithCid(rows, id) != []
    ensures forall updates :: WithCid(UpdateWhereCid(rows, id, updates), id) != []
  {
    var c := WithCid(rows, id)[0];
    assert c in rows;
    var i :| 0 <= i < |rows| && rows[i] == c;
    forall updates ensures WithCid(UpdateWhereCid(rows, id, updates), id) != [] {
      assert UpdateWhereCid(rows, id, updates)[i] in WithCid(UpdateWhereCid(rows, id, updates), id);
    }
  }

  /** The route answers with the row it updated when the body names an
      existing row. */
  lemma LayoutCreatedFound(rows: seq<Course>, body: Json, id: string, signedIn: bool, call: nat -> ModelRetry.Outcome,
                           parse: string -> Option<Json>, image: Json -> Option<Json>, probe: string -> Option<nat>)
    requires CourseContentRoute.CourseIdOf(body) == Some(id) && WithCid(rows, id) != []
    requires CourseLayoutRoute.LayoutResult(rows, Some(body), signedIn, call, parse, image, probe).0.status == 201
    ensures var created := CourseLayoutRoute.LayoutResult(rows, Some(body), signedIn, call, parse, image, probe).0.created;
      created.Some? && created.value.cid == id
  {
    UpdatedRowFound(rows, id);
    LayoutCreatedNamesRow(rows, body, signedIn, call, parse, image, probe);
  }

  /** A generation that sent the content request for row `c`, named `id`,
      carrying its stored layout, and that goes to that course's page. */
  predicate ContentFor(g: Generation, id: string, c: Course) {
    && |g.requests| == 2
    && CourseContentRoute.CourseIdOf(g.requests[1].body) == Some(id)
    && ("courseJson" in c.cols ==> Get(g.requests[1].body, "courseJson") == Some(c.cols["courseJson"]))
    && (g.Done? ==> g.target == ViewPrefix + id)
  }

  /** The corrected generation sends the content request for the named row
      with the `courseJson` of the returned row. */
  lemma FixedRequests(form: map<string, Json>, id: string, c: Course, layout: Json -> Option<Json>,
                      content: Json -> Option<Json>)
    requires layout(Obj(form["courseId" := Str(id)])).Some?
    requires Get(layout(Obj(form["courseId" := Str(id)])).value, "created") == Some(RowJson(c))
    ensures ContentFor(GenerateFixed(form, id, layout, content), id, c)
  {
  }

  /** With the correction, a layout the route accepts for an existing row
      leads to the content request for that same row, carrying the stored
      layout, and on success to that course's page. */
  lemma FixedReachesContent(form: map<string, Json>, id: string, rows: seq<Course>, signedIn: bool,
                            call: nat -> ModelRetry.Outcome, parse: string -> Option<Json>,
                            image: Json -> Option<Json>, probe: string -> Option<nat>,
                            content: Json -> Option<Json>)
    requires WithCid(rows, id) != []
    requires CourseLayoutRoute.LayoutResult(rows, Some(Obj(form["courseId" := Str(id)])), signedIn, call, parse, image, probe).0.status == 201
    ensures var res := CourseLayoutRoute.LayoutResult(rows, Some(Obj(form["courseId" := Str(id)])), signedIn, call, parse, image, probe).0;
      && res.created.Some? && res.created.value.cid == id
      && ContentFor(GenerateFixed(form, id, RouteLayout(rows, signedIn, call, parse, image, probe), content), id, res.created.value)
  {
    var body := Obj(form["courseId" := Str(id)]);
    LayoutCreatedFound(rows, body, id, signedIn, call, parse, image, probe);
    var res := CourseLayoutRoute.LayoutResult(rows, Some(body), signedIn, call, parse, image, probe).0;
    RouteLayoutAnswer(rows, signedIn, call, parse, image, probe, body);
    FixedRequests(form, id, res.created.value, RouteLayout(rows, signedIn, call, parse, image, probe), content);
  }

  lemma RouteLayoutAnswer(rows: seq<Course>, signedIn: bool, call: nat -> ModelRetry.Outcome,
                          parse: string -> Option<Json>, image: Json -> Option<Json>,
                          probe: string -> Option<nat>, body: Json)
    requires CourseLayoutRoute.LayoutResult(rows, Some(body), signedIn, call, parse, image, probe).0.created.Some?
    requires CourseLayoutRoute.LayoutResult(rows, Some(body), signedIn, call, parse, image, probe).0.status == 201
    ensures RouteLayout(rows, signedIn, call, parse, image, probe)(body).Some?
    ensures Get(RouteLayout(rows, signedIn, call, parse, image, probe)(body).value, "created")
         == Some(RowJson(CourseLayoutRoute.LayoutResult(rows, Some(body), signedIn, call, parse, image, probe).0.created.value))
  {
    var res := CourseLayoutRoute.LayoutResult(rows, Some(body), signedIn, call, parse, image, probe).0;
    assert RouteLayout(rows, signedIn, call, parse, image, probe)(body) == LayoutAnswer(res);
  }

  /** A stored layout with a chapter array passes the content route's
      check on the corrected request. */
  lemma FixedContentHasChapters(g: Generation, id: string, c: Course)
    requires ContentFor(g, id, c)
    requires "courseJson" in c.cols && c.cols["courseJson"].Obj?
    requires Get(c.cols["courseJson"], "chapters").Some? && Get(c.cols["courseJson"], "chapters").value.Arr?
    ensures CourseContentRoute.Chapters(g.requests[1].body).Some?
  {
  }
}
