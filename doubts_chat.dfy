/** `POST /api/doubts-chat`: answer a student's question about one
    chapter through the generative model.  The model is an oracle that
    yields the answer text, or `None` when the call fails. */
module DoubtsChatApi {
  import opened Wrappers
  import opened Json

  datatype ChatAnswer = Failed(status: nat) | Answered(answer: string)

  /** The longest chapter content sent as it is. */
  const MaxContent := 2000

  /** `${content.length > 2000 ? content.substring(0, 2000) + '...' :
      content}`.  An array longer than the limit has no `substring`, which
      is a TypeError; other values without a string length are printed
      whole. */
  function ContentText(content: Json): (r: Result<string>)
    ensures content.Str? && |content.s| > MaxContent ==> r == Ok(content.s[..MaxContent] + "...")
    ensures content.Str? && |content.s| <= MaxContent ==> r == Ok(content.s)
    ensures r.Err? <==> content.Arr? && |content.items| > MaxContent
    ensures !content.Str? && r.Ok? ==> r.value == JsString(content)
  {
    match content
    case Str(s) => if |s| > MaxContent then Ok(s[..MaxContent] + "...") else Ok(s)
    case Arr(items) => if |items| > MaxContent then Err("TypeError") else Ok(JsString(content))
    case _ => Ok(JsString(content))
  }

  /** Long content keeps its first 2000 characters and gains an ellipsis:
      2003 characters, starting with a prefix of the original. */
  lemma TruncatedContent(s: string)
    requires |s| > MaxContent
    ensures |ContentText(Str(s)).value| == MaxContent + 3
    ensures ContentText(Str(s)).value[..MaxContent] == s[..MaxContent]
    ensures StartsWith(ContentText(Str(s)).value, s[..MaxContent])
    ensures ContentText(Str(s)).value[MaxContent..] == "..."
  {
  }

  /** `array.join(', ')`: `null` elements print as the empty string. */
  function ListText(items: seq<Json>): string {
    Join(seq(|items|, i requires 0 <= i < |items| => if items[i] == Null then "" else JsString(items[i])), ", ")
  }

  /** `chapter.topics?.join(', ') || 'Not specified'`: a value that is not
      an array and not `null` has no `join`, which is a TypeError. */
  function TopicsText(topics: Option<Json>): (r: Result<string>)
    ensures topics.None? || topics == Some(Null) ==> r == Ok("Not specified")
    ensures r.Err? <==> topics.Some? && topics.value != Null && !topics.value.Arr?
    ensures r.Ok? ==> r.value != ""
  {
    match topics
    case None => Ok("Not specified")
    case Some(Null) => Ok("Not specified")
    case Some(Arr(items)) => var t := ListText(items); if t == "" then Ok("Not specified") else Ok(t)
    case Some(_) => Err("TypeError")
  }

  /** A list of topics is listed with ", " between them. */
  lemma TopicsListed(a: string, b: string)
    requires a != ""
    ensures TopicsText(Some(Arr([Str(a), Str(b)]))) == Ok(a + ", " + b)
    ensures TopicsText(Some(Arr([]))) == Ok("Not specified")
  {
    var items := [Str(a), Str(b)];
    var parts := seq(|items|, i requires 0 <= i < |items| => if items[i] == Null then "" else JsString(items[i]));
    assert parts == [a, b];
    assert parts[1..] == [b];
    assert Join(parts[1..], ", ") == b;
    assert ListText(items) == a + ", " + b;
  }

  /** The fixed text of a prompt around the four values it carries. */
  datatype PromptText = PromptText(intro: string, content: string, topics: string, question: string, outro: string)

  /** The tutor prompt of the route.  The properties below hold for every
      prompt text, so they are stated over a parameter `t`. */
  const Tutor := PromptText(
    "\nYou are an expert AI tutor helping students understand course material. A student has asked a question about a specific chapter.\n\nChapter Title: ",
    "\nChapter Content: ",
    "\nChapter Topics: ",
    "\n\nStudent's Question: ",
    "\n\nPlease provide a clear, helpful, and accurate answer that:\n1. Directly addresses the student's question\n2. Uses the chapter content as the primary source of information\n3. Explains concepts in an easy-to-understand way\n4. Provides examples when helpful\n5. Stays focused on the chapter's material\n6. Is concise but comprehensive\n\nIf the question is not directly related to this chapter's content, politely redirect the student to ask about the chapter material.\n\nAnswer as a knowledgeable and patient tutor.\n")

  /** A prompt text filled in with a title, content, topics and question. */
  function Prompt(t: PromptText, title: string, content: string, topics: string, question: string): string {
    t.intro + title + t.content + content + t.topics + topics + t.question + question + t.outro
  }

  lemma HasAtMiddle(a: string, b: string, c: string)
    ensures HasAt(a + b + c, |a|, b)
  {
    assert (a + b + c)[|a|..|a| + |b|] == b;
  }

  lemma ContainsMiddle(a: string, b: string, c: string)
    ensures Contains(a + b + c, b)
  {
    HasAtMiddle(a, b, c);
  }

  /** The prompt contains the title, the (truncated) content, the topics
      and the question. */
  lemma PromptContains(t: PromptText, title: string, content: string, topics: string, question: string)
    ensures var p := Prompt(t, title, content, topics, question);
      Contains(p, title) && Contains(p, content) && Contains(p, topics) && Contains(p, question)
  {
    var p := Prompt(t, title, content, topics, question);
    var a1 := t.intro;
    var a2 := a1 + title + t.content;
    var a3 := a2 + content + t.topics;
    var a4 := a3 + topics + t.question;
    var t4 := t.outro;
    var t3 := t.question + question + t4;
    var t2 := t.topics + topics + t3;
    var t1 := t.content + content + t2;
    assert p == a1 + title + t1;
    ContainsMiddle(a1, title, t1);
    assert p == a2 + content + t2;
    ContainsMiddle(a2, content, t2);
    assert p == a3 + topics + t3;
    ContainsMiddle(a3, topics, t3);
    assert p == a4 + question + t4;
    ContainsMiddle(a4, question, t4);
  }

  /** The request has a truthy question, chapter, title and content. */
  predicate Complete(body: Json) {
    && Present(Get(body, "question"))
    && Present(Get(body, "chapter"))
    && Present(Get(Get(body, "chapter").value, "title"))
    && Present(Get(Get(body, "chapter").value, "content"))
  }

  /** The prompt a complete request leads to, or the TypeError it raises. */
  function PromptOf(t: PromptText, body: Json): (r: Result<string>)
    requires Complete(body)
  {
    var chapter := Get(body, "chapter").value;
    var content := ContentText(Get(chapter, "content").value);
    var topics := TopicsText(Get(chapter, "topics"));
    if content.Err? then Err(content.reason)
    else if topics.Err? then Err(topics.reason)
    else Ok(Prompt(t, JsString(Get(chapter, "title").value), content.value, topics.value,
                   JsString(Get(body, "question").value)))
  }

  /** The route with prompt text `t`.  `body` is `None` when the request is
      not JSON. */
  function ChatResult(t: PromptText, hasKey: bool, body: Option<Json>, generate: string -> Option<string>): ChatAnswer {
    if !hasKey then Failed(500)
    else if body.None? || body.value == Null then Failed(500)
    else if !Complete(body.value) then Failed(400)
    else
      match PromptOf(t, body.value)
      case Err(_) => Failed(500)
      case Ok(prompt) =>
        match generate(prompt)
        case None => Failed(500)
        case Some(answer) => Answered(answer)
  }

  /** Without a key the answer is 500 whatever the request; with one, a
      readable request is refused with 400 exactly when a field is
      missing. */
  lemma Validation(t: PromptText, hasKey: bool, body: Option<Json>, generate: string -> Option<string>)
    ensures !hasKey ==> ChatResult(t, hasKey, body, generate) == Failed(500)
    ensures hasKey && body.Some? && body.value != Null ==>
      (ChatResult(t, hasKey, body, generate) == Failed(400) <==> !Complete(body.value))
  {
  }

  /** A complete request is answered with what the model returns, from a
      prompt that holds the title, the content (cut to 2000 characters),
      the topics and the question; a failing model call gives 500. */
  lemma Answering(t: PromptText, body: Json, generate: string -> Option<string>)
    requires body != Null && Complete(body)
    requires PromptOf(t, body).Ok?
    ensures var chapter := Get(body, "chapter").value;
      var prompt := PromptOf(t, body).value;
      && ChatResult(t, true, Some(body), generate) == (if generate(prompt).Some? then Answered(generate(prompt).value) else Failed(500))
      && Contains(prompt, JsString(Get(chapter, "title").value))
      && Contains(prompt, ContentText(Get(chapter, "content").value).value)
      && Contains(prompt, TopicsText(Get(chapter, "topics")).value)
      && Contains(prompt, JsString(Get(body, "question").value))
  {
    var chapter := Get(body, "chapter").value;
    PromptContains(t, JsString(Get(chapter, "title").value), ContentText(Get(chapter, "content").value).value,
                   TopicsText(Get(chapter, "topics")).value, JsString(Get(body, "question").value));
  }

  /** A complete request fails only through its content or topics. */
  lemma PromptFailure(t: PromptText, body: Json)
    requires Complete(body)
    ensures var chapter := Get(body, "chapter").value;
      var content := Get(chapter, "content").value;
      var topics := Get(chapter, "topics");
      PromptOf(t, body).Err? <==>
        (content.Arr? && |content.items| > MaxContent) || (topics.Some? && topics.value != Null && !topics.value.Arr?)
  {
  }

  /** `POST /api/doubts-chat`. */
  function Route(hasKey: bool, body: Option<Json>, generate: string -> Option<string>): ChatAnswer {
    ChatResult(Tutor, hasKey, body, generate)
  }
}
