/**
 * `POST /api/analyze`: check that the body's `text` is a non-empty string,
 * wrap it in the analysis prompt, and return the model's trimmed answer.
 * The route checks no session and writes nothing.
 */
module Analyze {

  import opened Wrappers
  import opened JsString
  import opened Chat
  import opened Http

  const InvalidText := "Missing or invalid \"text\""
  const NoAnalysis := "No analysis produced"
  const AnalystRole := "You are a precise SEO and tone analyst."

  /** The `text` member of the parsed body. */
  datatype TextField =
    | Absent             // undefined or null
    | Text(s: string)    // a JSON string
    | NotText            // a number, boolean, array or object

  /** The request body: JSON whose parse threw (with the error's message), or a parsed object. */
  datatype AnalyzeBody =
    | Unparsable(message: string)
    | Parsed(text: TextField)

  /** `!text || typeof text !== 'string'` fails exactly for a non-empty string. */
  predicate ValidText(t: TextField) {
    t.Text? && t.s != ""
  }

  /** The instructions before the copy, and the closing delimiter after it. */
  const PromptHead :=
    "\nAnalyze the following marketing copy for SEO and tone.\n"
    + "Return concise, structured feedback including:\n"
    + "- Strengths & weaknesses (bulleted)\n"
    + "- Recommended keywords (comma-separated)\n"
    + "- Suggested title (<= 60 chars)\n"
    + "- Meta description (<= 160 chars)\n"
    + "- 3 specific improvement tips\n"
    + "\n"
    + "Content:\n"
    + "\"\"\""
  const PromptTail := "\"\"\"\n"

  function Prompt(text: string): string {
    PromptHead + text + PromptTail
  }

  /** Reads the copy back out of a prompt. */
  function CopyOf(prompt: string): (r: Option<string>)
    ensures r.Some? ==> Prompt(r.value) == prompt
  {
    if |prompt| >= |PromptHead| + |PromptTail|
       && prompt[..|PromptHead|] == PromptHead
       && prompt[|prompt| - |PromptTail|..] == PromptTail
    then
      var copy := prompt[|PromptHead|..|prompt| - |PromptTail|];
      assert prompt == prompt[..|PromptHead|] + copy + prompt[|prompt| - |PromptTail|..];
      Some(copy)
    else None
  }

  /** The prompt holds the copy verbatim, between `"""` delimiters after `Content:`, whatever the copy contains. */
  lemma CopyRoundTrip(text: string)
    ensures CopyOf(Prompt(text)) == Some(text)
    ensures HasInfix(Prompt(text), "Content:\n\"\"\"" + text + "\"\"\"")
  {
    var p := Prompt(text);
    assert p[..|PromptHead|] == PromptHead;
    assert p[|p| - |PromptTail|..] == PromptTail;
    assert p[|PromptHead|..|p| - |PromptTail|] == text;
    var k := |PromptHead| - |"Content:\n\"\"\""|;
    var pat := "Content:\n\"\"\"" + text + "\"\"\"";
    assert PromptHead[k..] == "Content:\n\"\"\"";
    assert p[k..][..|pat|] == pat;
  }

  datatype Outcome = Outcome(response: Response, chat: Option<ChatRequest>)

  /** The handler, with the model's answer `reply` as an input. */
  function Handle(body: AnalyzeBody, reply: Completion): (o: Outcome)
    ensures body.Unparsable? ==> o == Outcome(Response(500, ErrorBody(body.message)), None)
    ensures body.Parsed? && !ValidText(body.text) ==> o == Outcome(Response(400, ErrorBody(InvalidText)), None)
    ensures o.chat.Some? <==> body.Parsed? && ValidText(body.text)
    ensures o.chat.Some? ==> o.chat.value.system == AnalystRole && CopyOf(o.chat.value.user) == Some(body.text.s)
    ensures o.chat.Some? && reply.Threw? ==>
      o.response == Response(reply.status.GetOr(500), ErrorBody(reply.message.GetOr(InternalError)))
    ensures o.response.status == 502 && o.chat.Some? ==> reply.Threw? || o.response.payload == ErrorBody(NoAnalysis)
    ensures o.chat.Some? && reply.Replied? ==>
      (o.response.status == 502 <==> Trim(reply.content.GetOr("")) == "")
    ensures o.chat.Some? && reply.Replied? && Trim(reply.content.GetOr("")) != "" ==>
      o.response == Response(200, AnalysisBody(Trim(reply.content.GetOr(""))))
    ensures o.response.payload.AnalysisBody? <==> o.chat.Some? && reply.Replied? && o.response.status == 200
    ensures o.response.payload.AnalysisBody? ==>
      var a := o.response.payload.analysis;
      a != "" && Trimmed(a) && a == Trim(reply.content.value)
  {
    match body
    case Unparsable(m) => Outcome(Response(500, ErrorBody(m)), None)
    case Parsed(t) =>
      if !ValidText(t) then Outcome(Response(400, ErrorBody(InvalidText)), None)
      else
        CopyRoundTrip(t.s);
        var chat := Some(ChatRequest(AnalystRole, Prompt(t.s)));
        match reply
        case Threw(m, status) => Outcome(Response(status.GetOr(500), ErrorBody(m.GetOr(InternalError))), chat)
        case Replied(content) =>
          if content.None? || Trim(content.value) == "" then Outcome(Response(502, ErrorBody(NoAnalysis)), chat)
          else Outcome(Response(200, AnalysisBody(Trim(content.value))), chat)
  }
}
