/**
 * The dashboard: the ten most recent drafts the store returns, a button that
 * creates an empty social-post draft, and the text shown for each draft.
 */
module Dashboard {

  import opened Wrappers
  import opened Time
  import opened JsString
  import opened Auth
  import opened Drafts
  import opened Listing
  import opened Routing

  const PreviewLength: nat := 160
  const EmptyPreview := "— Empty draft —"
  const DefaultLabel := "draft"
  const CreateFailed := "Could not create draft"
  const NewDraftType := "social"

  /**
   * `d.content_text?.trim() ? d.content_text.slice(0, 160) : '— Empty draft —'`:
   * the first 160 characters of the text as stored, unless the text is
   * null or only white space.
   */
  function Preview(text: Option<string>): (r: string)
    ensures text.None? || AllSpace(text.value) ==> r == EmptyPreview
    ensures text.Some? && !AllSpace(text.value) ==>
      |r| == (if |text.value| < PreviewLength then |text.value| else PreviewLength)
      && r == text.value[..|r|]
    ensures r != ""
  {
    match text
    case None => EmptyPreview
    case Some(t) =>
      TrimEmptyIff(t);
      if Trim(t) == "" then EmptyPreview else Take(t, PreviewLength)
  }

  /** `d.content_type ?? 'draft'`. */
  function TypeLabel(contentType: Option<string>): (r: string)
    ensures contentType.Some? ==> r == contentType.value
    ensures contentType.None? ==> r == DefaultLabel
  {
    contentType.GetOr(DefaultLabel)
  }

  class DashboardPage {
    var loading: bool
    var drafts: seq<Draft>
    var email: Option<string>
    var navigation: Navigation
    var alert: Option<string>

    constructor ()
      ensures loading && drafts == [] && email == None && navigation == Stay && alert == None
    {
      loading := true;
      drafts := [];
      email := None;
      navigation := Stay;
      alert := None;
    }

    /**
     * The load effect: without a user, go to the login page and load
     * nothing; otherwise show the recent drafts (none if the query fails)
     * and stop loading.
     */
    method Load(user: Option<User>, table: DraftTable, queryFails: bool)
      modifies this
      ensures user.None? ==>
        navigation == Replaced(LoginPath)
        && drafts == old(drafts) && loading == old(loading) && email == old(email)
      ensures user.Some? ==>
        email == user.value.email && !loading && navigation == old(navigation)
        && drafts == if queryFails then [] else RecentDrafts(table.rows)
      ensures alert == old(alert)
    {
      if user.None? {
        navigation := Replaced(LoginPath);
        return;
      }
      email := user.value.email;
      drafts := if queryFails then [] else RecentDrafts(table.rows);
      loading := false;
    }

    /**
     * `createNewDraft`: only a signed-in user gets a new row, typed
     * `social` with empty text; on success the editor opens on it, on
     * failure an alert shows the store's message.
     */
    method CreateNewDraft(user: Option<User>, table: DraftTable, insertFails: bool, failure: Option<string>,
                          newId: DraftId, now: Timestamp)
      requires table.Valid() && IsFreshId(table.rows, newId)
      modifies this, table
      ensures table.Valid()
      ensures user.None? ==> table.rows == old(table.rows) && navigation == Replaced(LoginPath) && alert == old(alert)
      ensures user.Some? && insertFails ==>
        table.rows == old(table.rows) && navigation == old(navigation) && alert == Some(failure.GetOr(CreateFailed))
      ensures user.Some? && !insertFails ==>
        table.rows == old(table.rows) + [Draft(newId, user.value.id, Some(NewDraftType), Some(""), now, None)]
        && navigation == Pushed(EditorPrefix + newId) && alert == old(alert)
      ensures drafts == old(drafts) && loading == old(loading) && email == old(email)
    {
      if user.None? {
        navigation := Replaced(LoginPath);
        return;
      }
      if insertFails {
        alert := Some(failure.GetOr(CreateFailed));
        return;
      }
      var row := table.Insert(newId, user.value.id, Some(NewDraftType), Some(""), now);
      navigation := Pushed(EditorPrefix + row.id);
    }
  }
}
