/**
 * The language-model call, seen from the routes: the request they build and
 * the reply they receive, which the model takes as an input.
 */
module Chat {

  import opened Wrappers

  /** The system and user messages of `openai.chat.completions.create`. */
  datatype ChatRequest = ChatRequest(system: string, user: string)

  /**
   * What the call gave: the first choice's message content (None when there
   * is no choice or no content), or a thrown error with its optional
   * `message` and `status`.
   */
  datatype Completion =
    | Replied(content: Option<string>)
    | Threw(message: Option<string>, status: Option<int>)
}
