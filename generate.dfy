/**
 * `POST /api/generate`: authenticate, normalise and validate the body, read
 * the caller's brand profile, ask the language model for a draft, and save
 * the trimmed reply by updating the caller's draft or inserting a new one.
 * `Handle` is the decision logic as a function of its inputs; `Post` runs it
 * against the draft table.
 */
module Generate {

  import opened Wrappers
  import opened Time
  import opened JsString
  import opened Auth
  import opened Drafts
  import opened Profiles
  import opened Chat
  import opened Http

  const AuthSessionMissing := "Auth session missing!"
  const FieldsRequired := "contentType and topic are required"
  const NoContent := "No content generated"
  /** The store's error when `.update(...).select().single()` matches no row. */
  const NoSingleRow := "Cannot coerce the result to a single JSON object"

  /** The parsed JSON body; a field is None when absent or null. */
  datatype GenerateBody = GenerateBody(
    draftId: Option<string>,
    contentType: Option<string>,
    topic: Option<string>,
    keywords: Option<string>)

  /** The request after normalisation. */
  datatype Request = Request(draftId: string, contentType: Option<string>, topic: string, keywords: string)

  /**
   * `draftId` and `topic` default to "" and are trimmed; `keywords`
   * defaults to "" and is kept as sent; `contentType` is kept as sent. A
   * body that is not JSON reads as null.
   */
  function Normalize(body: Option<GenerateBody>): (r: Request)
    ensures Trimmed(r.draftId) && Trimmed(r.topic)
    ensures body.None? ==> r == Request("", None, "", "")
    ensures body.Some? ==> r.contentType == body.value.contentType
    ensures body.Some? ==> r.draftId == Trim(body.value.draftId.GetOr(""))
    ensures body.Some? ==> r.keywords == body.value.keywords.GetOr("")
    ensures body.Some? ==> r.topic == Trim(body.value.topic.GetOr(""))
  {
    match body
    case None => Request("", None, "", "")
    case Some(b) =>
      Request(Trim(b.draftId.GetOr("")), b.contentType, Trim(b.topic.GetOr("")), b.keywords.GetOr(""))
  }

  /** `contentType` is only checked for truthiness: any non-empty string passes. */
  predicate Complete(r: Request) {
    r.contentType.Some? && r.contentType.value != "" && r.topic != ""
  }

  /** A topic of spaces alone is missing, whatever the other fields hold. */
  lemma BlankTopicIncomplete(body: GenerateBody)
    requires body.topic.Some? && AllSpace(body.topic.value)
    ensures !Complete(Normalize(Some(body)))
  {
    TrimEmptyIff(body.topic.value);
  }

  /** JavaScript's `s || fallback` on a string. */
  function OrElse(s: string, fallback: string): (r: string)
    ensures r != "" <== fallback != ""
    ensures s != "" ==> r == s
    ensures s == "" ==> r == fallback
  {
    if s == "" then fallback else s
  }

  function ToneOf(p: Option<BrandProfile>): string {
    OrElse(if p.Some? then p.value.brandTone else "", "friendly")
  }

  function IndustryOf(p: Option<BrandProfile>): string {
    OrElse(if p.Some? then p.value.industry else "", "general")
  }

  function AudienceOf(p: Option<BrandProfile>): string {
    OrElse(if p.Some? then p.value.targetAudience else "", "customers")
  }

  function SystemHead(contentType: string): string {
    "You are an assistant that writes " + contentType + " for a small business.\n"
  }

  function ToneClause(p: Option<BrandProfile>): string {
    "Tone: " + ToneOf(p) + ";"
  }

  function IndustryClause(p: Option<BrandProfile>): string {
    "Industry: " + IndustryOf(p) + "."
  }

  function AudienceClause(p: Option<BrandProfile>): string {
    "Audience: " + AudienceOf(p) + "."
  }

  function AudienceTail(p: Option<BrandProfile>): string {
    "\n" + AudienceClause(p) + " Use Australian spelling."
  }

  function SystemTail(p: Option<BrandProfile>): string {
    " " + IndustryClause(p) + AudienceTail(p)
  }

  /** The system message: the content type, then tone, industry and audience with their fallbacks. */
  function SystemPrompt(contentType: string, p: Option<BrandProfile>): string {
    SystemHead(contentType) + ToneClause(p) + SystemTail(p)
  }

  function TopicClause(topic: string): string {
    "Topic: " + topic + "."
  }

  function KeywordsClause(keywords: string): string {
    "Keywords: " + keywords + "."
  }

  /** The user message: topic, keywords, then the fixed instruction. */
  function UserPrompt(topic: string, keywords: string): string {
    TopicClause(topic) + "\n" + KeywordsClause(keywords) + "\nWrite one high-quality draft with a short CTA."
  }

  /**
   * A missing profile and a profile whose tone, industry and audience are
   * empty give the same system prompt, the one with the defaults written
   * in; the product list is never part of it.
   */
  lemma SystemPromptDefaults(contentType: string, productList: string, other: string)
    ensures SystemPrompt(contentType, None) == SystemPrompt(contentType, Some(BrandProfile("", "", productList, "")))
    ensures SystemPrompt(contentType, None)
         == SystemPrompt(contentType, Some(BrandProfile("friendly", "general", other, "customers")))
  {
  }

  /** The system prompt names the profile's tone when it has one, and `friendly` otherwise. */
  lemma SystemPromptTone(contentType: string, p: Option<BrandProfile>)
    ensures var tone := if p.Some? && p.value.brandTone != "" then p.value.brandTone else "friendly";
      HasInfix(SystemPrompt(contentType, p), "Tone: " + tone + ";")
  {
    InfixMiddle(SystemHead(contentType), ToneClause(p), SystemTail(p));
  }

  /** The system prompt names the profile's industry when it has one, and `general` otherwise. */
  lemma SystemPromptIndustry(contentType: string, p: Option<BrandProfile>)
    ensures var industry := if p.Some? && p.value.industry != "" then p.value.industry else "general";
      HasInfix(SystemPrompt(contentType, p), "Industry: " + industry + ".")
  {
    InfixMiddle(" ", IndustryClause(p), AudienceTail(p));
    InfixWithin(SystemHead(contentType) + ToneClause(p), SystemTail(p), IndustryClause(p));
  }

  /** The system prompt names the profile's audience when it has one, and `customers` otherwise. */
  lemma SystemPromptAudience(contentType: string, p: Option<BrandProfile>)
    ensures var audience := if p.Some? && p.value.targetAudience != "" then p.value.targetAudience else "customers";
      HasInfix(SystemPrompt(contentType, p), "Audience: " + audience + ".")
  {
    InfixMiddle("\n", AudienceClause(p), " Use Australian spelling.");
    InfixWithin(" " + IndustryClause(p), AudienceTail(p), AudienceClause(p));
    InfixWithin(SystemHead(contentType) + ToneClause(p), SystemTail(p), AudienceClause(p));
  }

  /** The user prompt starts with the trimmed topic and carries the keywords as sent. */
  lemma UserPromptCarries(topic: string, keywords: string)
    ensures StartsWith(UserPrompt(topic, keywords), "Topic: " + topic + ".")
    ensures HasInfix(UserPrompt(topic, keywords), "Keywords: " + keywords + ".")
  {
    var s := UserPrompt(topic, keywords);
    assert s[..|TopicClause(topic)|] == TopicClause(topic);
    InfixMiddle(TopicClause(topic) + "\n", KeywordsClause(keywords), "\nWrite one high-quality draft with a short CTA.");
  }

  /** What one request does: the response, the draft table after it, and the chat request sent, if any. */
  datatype Outcome = Outcome(response: Response, rows: seq<Draft>, chat: Option<ChatRequest>)

  /** A row that `user` owns has the id `id`. */
  predicate HasOwnedRow(rows: seq<Draft>, id: DraftId, user: UserId) {
    exists i :: 0 <= i < |rows| && Owned(rows[i], id, user)
  }

  /**
   * The save step, reached with a complete request and a non-empty reply
   * `text`: a non-empty `draftId` updates the caller's row with that id, an
   * empty one inserts a new row; a store error gives 500 and no change.
   */
  function Save(user: UserId, req: Request, text: string, rows: seq<Draft>,
                writeFault: Option<string>, newId: DraftId, now: Timestamp): (s: (Response, seq<Draft>))
    requires Complete(req) && IsFreshId(rows, newId)
    ensures s.0.status == 200 <==> writeFault.None? && (req.draftId == "" || HasOwnedRow(rows, req.draftId, user))
    ensures s.0.status != 200 ==>
      s.0.status == 500 && s.1 == rows
      && s.0.payload == ErrorBody(if writeFault.Some? then writeFault.value else NoSingleRow)
    ensures s.0.status == 200 ==>
      && s.0.payload.DraftBody?
      && s.0.payload.draft.owner == user
      && s.0.payload.draft.contentType == req.contentType
      && s.0.payload.draft.contentText == Some(text)
      && s.0.payload.draft in s.1
    ensures s.0.status == 200 && req.draftId != "" ==>
      s.1 == UpdateOwned(rows, req.draftId, user, req.contentType.value, text, now)
      && s.0.payload.draft.id == req.draftId && s.0.payload.draft.updatedAt == Some(now)
    ensures s.0.status == 200 && req.draftId == "" ==>
      s.1 == rows + [Draft(newId, user, req.contentType, Some(text), now, None)]
      && s.0.payload.draft == Draft(newId, user, req.contentType, Some(text), now, None)
  {
    if writeFault.Some? then (Response(500, ErrorBody(writeFault.value)), rows)
    else if req.draftId != "" then
      match IndexOfOwned(rows, req.draftId, user)
      case None => (Response(500, ErrorBody(NoSingleRow)), rows)
      case Some(k) =>
        var row := Patched(rows[k], req.contentType.value, text, now);
        assert rows[k := row][k] == row;
        (Response(200, DraftBody(row)), rows[k := row])
    else
      var row := Draft(newId, user, req.contentType, Some(text), now, None);
      (Response(200, DraftBody(row)), rows + [row])
  }

  /**
   * With unique ids, a successful update leaves every row the filter does
   * not select as it was, and a successful insert appends exactly one row
   * with an id not seen before; the ids stay unique either way.
   */
  lemma SaveTouchesOnlyTheCallersDraft(user: UserId, req: Request, text: string, rows: seq<Draft>,
                                       writeFault: Option<string>, newId: DraftId, now: Timestamp)
    requires Complete(req) && IsFreshId(rows, newId) && UniqueIds(rows)
    ensures var s := Save(user, req, text, rows, writeFault, newId, now);
      && UniqueIds(s.1)
      && (req.draftId != "" ==>
            |s.1| == |rows|
            && forall i :: 0 <= i < |rows| && !Owned(rows[i], req.draftId, user) ==> s.1[i] == rows[i])
      && (req.draftId == "" ==>
            s.1 == rows || (|s.1| == |rows| + 1 && s.1[..|rows|] == rows && s.1[|rows|].id == newId))
  {
    var s := Save(user, req, text, rows, writeFault, newId, now);
    if s.0.status != 200 {
    } else if req.draftId != "" {
      UpdateOwnedSpec(rows, req.draftId, user, req.contentType.value, text, now);
    } else {
      assert s.1[..|rows|] == rows;
    }
  }

  /** The chat request for a complete request and the profile read for it. */
  function Ask(req: Request, profile: Option<BrandProfile>): ChatRequest
    requires Complete(req)
  {
    ChatRequest(SystemPrompt(req.contentType.value, profile), UserPrompt(req.topic, req.keywords))
  }

  /**
   * What follows the model call: a thrown error gives 500 with its message
   * or `Internal error`; a reply that is empty once trimmed gives 502;
   * otherwise the trimmed reply is saved. Only the save writes.
   */
  function Respond(user: UserId, req: Request, reply: Completion, rows: seq<Draft>,
                   writeFault: Option<string>, newId: DraftId, now: Timestamp): (s: (Response, seq<Draft>))
    requires Complete(req) && IsFreshId(rows, newId)
    ensures s.0.status == 200 || s.0.status == 500 || s.0.status == 502
    ensures reply.Threw? ==> s == (Response(500, ErrorBody(reply.message.GetOr(InternalError))), rows)
    ensures s.0.status == 502 <==> reply.Replied? && Trim(reply.content.GetOr("")) == ""
    ensures s.0.status == 502 ==> s == (Response(502, ErrorBody(NoContent)), rows)
    ensures reply.Replied? && Trim(reply.content.GetOr("")) != "" ==>
      s == Save(user, req, Trim(reply.content.GetOr("")), rows, writeFault, newId, now)
  {
    match reply
    case Threw(m, _) => (Response(500, ErrorBody(m.GetOr(InternalError))), rows)
    case Replied(content) =>
      var text := Trim(content.GetOr(""));
      if text == "" then (Response(502, ErrorBody(NoContent)), rows)
      else Save(user, req, text, rows, writeFault, newId, now)
  }

  /** The checks before the model call: a refusal, or the caller, the request and their profile. */
  datatype Admission =
    | Refused(response: Response)
    | Admitted(user: UserId, req: Request, profile: Option<BrandProfile>)

  /**
   * 401 first, with the auth error's message or `Auth session missing!`,
   * whatever the body holds; then 400 for an incomplete request; then 500
   * when the profile read fails. A request that passes is complete.
   */
  function Admit(session: Session, body: Option<GenerateBody>, profiles: map<UserId, ProfileRow>,
                 profileFault: Option<string>): (a: Admission)
    ensures !Authenticated(session) ==> a == Refused(Response(401, ErrorBody(session.error.GetOr(AuthSessionMissing))))
    ensures Authenticated(session) && !Complete(Normalize(body)) ==> a == Refused(Response(400, ErrorBody(FieldsRequired)))
    ensures Authenticated(session) && Complete(Normalize(body)) && profileFault.Some? ==>
      a == Refused(Response(500, ErrorBody(profileFault.value)))
    ensures a.Admitted? <==> Authenticated(session) && Complete(Normalize(body)) && profileFault.None?
    ensures a.Admitted? ==>
      && a.user == session.user.value.id && a.req == Normalize(body) && Complete(a.req)
      && a.profile == ReadProfile(profiles, a.user, None).row
  {
    if !Authenticated(session) then
      Refused(Response(401, ErrorBody(session.error.GetOr(AuthSessionMissing))))
    else
      var user := session.user.value.id;
      var req := Normalize(body);
      if !Complete(req) then Refused(Response(400, ErrorBody(FieldsRequired)))
      else match ReadProfile(profiles, user, profileFault)
        case ReadFailed(m) => Refused(Response(500, ErrorBody(m)))
        case ReadOk(profile) => Admitted(user, req, profile)
  }

  /**
   * The handler. `session` is what `auth.getUser()` returned for the
   * client built from the Authorization header; `profiles`/`profileFault`
   * the profile read; `reply` the model's answer; `writeFault` an error the
   * store reports on the write; `newId` and `now` the id and time the store
   * gives a new row. A refused request reaches neither the model nor the
   * table; an admitted one asks the model and responds to its reply.
   */
  function Handle(session: Session, body: Option<GenerateBody>, profiles: map<UserId, ProfileRow>,
                  profileFault: Option<string>, reply: Completion, rows: seq<Draft>,
                  writeFault: Option<string>, newId: DraftId, now: Timestamp): (o: Outcome)
    requires IsFreshId(rows, newId)
    ensures o.response.status == 401 <==> !Authenticated(session)
    ensures o.chat.None? ==> o.rows == rows
  {
    match Admit(session, body, profiles, profileFault)
    case Refused(response) => Outcome(response, rows, None)
    case Admitted(user, req, profile) =>
      var s := Respond(user, req, reply, rows, writeFault, newId, now);
      Outcome(s.0, s.1, Some(Ask(req, profile)))
  }

  /**
   * The model is asked exactly when the caller is signed in, the request is
   * complete and the profile read succeeded, with the prompts built from
   * that request and profile; a request refused before that gets the
   * refusal as its response and leaves the table alone.
   */
  lemma HandleAsksOnlyWhenAdmitted(session: Session, body: Option<GenerateBody>, profiles: map<UserId, ProfileRow>,
                                   profileFault: Option<string>, reply: Completion, rows: seq<Draft>,
                                   writeFault: Option<string>, newId: DraftId, now: Timestamp)
    requires IsFreshId(rows, newId)
    ensures var o := Handle(session, body, profiles, profileFault, reply, rows, writeFault, newId, now);
      && (o.chat.Some? <==> Authenticated(session) && Complete(Normalize(body)) && profileFault.None?)
      && (o.chat.None? ==> o.response == Admit(session, body, profiles, profileFault).response && o.rows == rows)
      && (o.chat.Some? ==>
            o.chat.value == Ask(Normalize(body), ReadProfile(profiles, session.user.value.id, None).row)
            && (o.response, o.rows) == Respond(session.user.value.id, Normalize(body), reply, rows, writeFault, newId, now))
  {
  }

  /**
   * The status order of the route: 502 exactly when the model was asked and
   * its trimmed reply is empty; and the draft table changes only with a 200
   * response, which carries a row owned by the caller whose text is the
   * trimmed, non-empty reply.
   */
  lemma HandleWritesOnlyOnSuccess(session: Session, body: Option<GenerateBody>, profiles: map<UserId, ProfileRow>,
                                  profileFault: Option<string>, reply: Completion, rows: seq<Draft>,
                                  writeFault: Option<string>, newId: DraftId, now: Timestamp)
    requires IsFreshId(rows, newId)
    ensures var o := Handle(session, body, profiles, profileFault, reply, rows, writeFault, newId, now);
      && (o.response.status == 502 <==> o.chat.Some? && reply.Replied? && Trim(reply.content.GetOr("")) == "")
      && (o.rows != rows ==> o.response.status == 200)
      && (o.response.status == 200 ==>
            o.chat.Some? && o.response.payload.DraftBody? && o.response.payload.draft in o.rows
            && o.response.payload.draft.owner == session.user.value.id
            && o.response.payload.draft.contentText == Some(Trim(reply.content.GetOr("")))
            && Trim(reply.content.GetOr("")) != "")
  {
    var o := Handle(session, body, profiles, profileFault, reply, rows, writeFault, newId, now);
    HandleAsksOnlyWhenAdmitted(session, body, profiles, profileFault, reply, rows, writeFault, newId, now);
    if o.chat.Some? {
      var user := session.user.value.id;
      var req := Normalize(body);
      if reply.Replied? && Trim(reply.content.GetOr("")) != "" {
        assert (o.response, o.rows) == Save(user, req, Trim(reply.content.GetOr("")), rows, writeFault, newId, now);
      }
    }
  }

  /**
   * The body's `draftId` picks the write of a successful request: absent or
   * white space alone inserts one new row owned by the caller; anything else
   * updates the caller's row whose id is the trimmed `draftId`.
   */
  lemma HandleSavesByDraftId(session: Session, body: Option<GenerateBody>, profiles: map<UserId, ProfileRow>,
                             profileFault: Option<string>, reply: Completion, rows: seq<Draft>,
                             writeFault: Option<string>, newId: DraftId, now: Timestamp)
    requires IsFreshId(rows, newId)
    ensures var o := Handle(session, body, profiles, profileFault, reply, rows, writeFault, newId, now);
      o.response.status == 200 ==>
        && Authenticated(session) && body.Some? && body.value.contentType.Some? && reply.Replied?
        && var user := session.user.value.id;
           var text := Trim(reply.content.GetOr(""));
           if AllSpace(body.value.draftId.GetOr("")) then
             o.rows == rows + [Draft(newId, user, body.value.contentType, Some(text), now, None)]
             && o.response.payload == DraftBody(Draft(newId, user, body.value.contentType, Some(text), now, None))
           else
             o.rows == UpdateOwned(rows, Trim(body.value.draftId.value), user, body.value.contentType.value, text, now)
  {
    var o := Handle(session, body, profiles, profileFault, reply, rows, writeFault, newId, now);
    var a := Admit(session, body, profiles, profileFault);
    if a.Admitted? {
      var s := Respond(a.user, a.req, reply, rows, writeFault, newId, now);
      assert o.response == s.0 && o.rows == s.1;
      RespondSavesByDraftId(a.user, a.req, reply, rows, writeFault, newId, now);
      BlankDraftIdIff(body.value);
    } else {
      assert o.response == a.response;
    }
  }

  /** A body's `draftId` normalises to "" exactly when it is absent or white space alone. */
  lemma BlankDraftIdIff(body: GenerateBody)
    ensures Normalize(Some(body)).draftId == "" <==> AllSpace(body.draftId.GetOr(""))
  {
    TrimEmptyIff(body.draftId.GetOr(""));
  }

  /** `HandleSavesByDraftId` one stage down, in terms of the normalised request. */
  lemma RespondSavesByDraftId(user: UserId, req: Request, reply: Completion, rows: seq<Draft>,
                              writeFault: Option<string>, newId: DraftId, now: Timestamp)
    requires Complete(req) && IsFreshId(rows, newId)
    ensures var s := Respond(user, req, reply, rows, writeFault, newId, now);
      s.0.status == 200 ==>
        && reply.Replied?
        && var text := Trim(reply.content.GetOr(""));
        if req.draftId == "" then
          s.1 == rows + [Draft(newId, user, req.contentType, Some(text), now, None)]
          && s.0.payload == DraftBody(Draft(newId, user, req.contentType, Some(text), now, None))
        else s.1 == UpdateOwned(rows, req.draftId, user, req.contentType.value, text, now)
  {
    var s := Respond(user, req, reply, rows, writeFault, newId, now);
    if s.0.status == 200 {
      assert s == Save(user, req, Trim(reply.content.GetOr("")), rows, writeFault, newId, now);
    }
  }

  /** The save step against the draft table. */
  method SaveTo(table: DraftTable, user: UserId, req: Request, text: string,
                writeFault: Option<string>, newId: DraftId, now: Timestamp)
    returns (response: Response)
    requires table.Valid() && Complete(req) && IsFreshId(table.rows, newId)
    modifies table
    ensures table.Valid()
    ensures (response, table.rows) == Save(user, req, text, old(table.rows), writeFault, newId, now)
  {
    if writeFault.Some? {
      return Response(500, ErrorBody(writeFault.value));
    }
    if req.draftId != "" {
      var row := table.UpdateOwnedRow(req.draftId, user, req.contentType.value, text, now);
      if row.None? {
        return Response(500, ErrorBody(NoSingleRow));
      }
      response := Response(200, DraftBody(row.value));
    } else {
      var row := table.Insert(newId, user, req.contentType, Some(text), now);
      response := Response(200, DraftBody(row));
    }
  }

  /** What follows the model call, against the draft table. */
  method RespondTo(table: DraftTable, user: UserId, req: Request, reply: Completion,
                   writeFault: Option<string>, newId: DraftId, now: Timestamp)
    returns (response: Response)
    requires table.Valid() && Complete(req) && IsFreshId(table.rows, newId)
    modifies table
    ensures table.Valid()
    ensures (response, table.rows) == Respond(user, req, reply, old(table.rows), writeFault, newId, now)
  {
    if reply.Threw? {
      return Response(500, ErrorBody(reply.message.GetOr(InternalError)));
    }
    var text := Trim(reply.content.GetOr(""));
    if text == "" {
      return Response(502, ErrorBody(NoContent));
    }
    response := SaveTo(table, user, req, text, writeFault, newId, now);
  }

  /** The route against the stored tables. */
  method Post(table: DraftTable, profiles: ProfileTable, session: Session, body: Option<GenerateBody>,
              profileFault: Option<string>, reply: Completion, writeFault: Option<string>,
              newId: DraftId, now: Timestamp)
    returns (response: Response, chat: Option<ChatRequest>)
    requires table.Valid() && IsFreshId(table.rows, newId)
    modifies table
    ensures table.Valid()
    ensures var o := Handle(session, body, profiles.rows, profileFault, reply, old(table.rows), writeFault, newId, now);
      response == o.response && chat == o.chat && table.rows == o.rows
  {
    var admission := Admit(session, body, profiles.rows, profileFault);
    if admission.Refused? {
      return admission.response, None;
    }
    chat := Some(Ask(admission.req, admission.profile));
    response := RespondTo(table, admission.user, admission.req, reply, writeFault, newId, now);
  }
}
