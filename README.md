# AI Content Engine — a Dafny model of its deterministic core

The application is a small Next.js site. Signed-in users keep a brand
profile (tone, industry, products, audience). They generate marketing drafts
with a language model, analyse copy for SEO and tone, list, duplicate and
open their drafts, and export a draft as a plain-text file. Every route hands
its real work to a hosted database or to the language-model API. This
project models the logic around those calls:

- **Export** (`ExportTxt`): the filename sanitizer and the eight-line text
  body behind a U+FEFF byte-order mark. It also covers the timestamped
  filename and the quoted `Content-Disposition` value (section 4.1 of
  RFC 6266). The model reads the body back with a decoder and proves that
  the round trip works.
- **Bearer tokens** (`Auth`): the case-insensitive `bearer ` prefix test
  (section 2.1 of RFC 6750; section 11.1 of RFC 9110 makes the scheme
  case-insensitive). Also the token slice, the header re-emitted as
  `Bearer <token>`, and the cookie fallback.
- **Generate** (`Generate`): normalising and validating the body, and the
  error order 401, 400, 500, 502. Also the two prompts with their fallback
  values, trimming the reply, and saving it. The save updates the caller's
  own draft or inserts a new one.
- **Analyze** (`Analyze`): validating `text`, the prompt template (read back
  by `CopyOf`), and mapping the reply or a thrown error to a status.
- **Drafts and listings** (`Drafts`, `Listing`): the `content_drafts` table
  as a class over a sequence of rows with unique ids. The store's two sort
  orders are modelled by a sort proved to return a sorted permutation. The
  dashboard's ten-row limit is included.
- **Pages** (`History`, `Dashboard`, `ProfilePage`, `Register`): the page
  state as classes whose methods update the fields as the components do.
  This covers history's duplicate, the dashboard's load and new-draft
  button, the profile form's load and save, and the registration form's
  checks.
- **Profiles** (`Profiles`): the `profiles` table as a map keyed on the user
  id, with reads and the upsert.

Supporting modules:

- `Wrappers`: `Option`.
- `JsString`: JavaScript's `trim` over its full white-space set, ASCII
  lower-casing, `slice`, `join`, and a first-occurrence split.
- `Time`: timestamps.
- `Chat`: the model's request and reply.
- `Http`: JSON responses.
- `Routing`: navigation outcomes.

The model takes as parameters everything the code gets from outside:

- the session returned by `auth.getUser()`;
- the language model's reply, or the error it threw;
- errors the store reports;
- the id and time the store gives a new row;
- the clock's strings.

The export's text layout cannot round-trip every title, prompt and output:

- `DecodeText` proves the round trip when the title and the timestamp are
  single lines and the prompt does not contain the output separator.
- `AmbiguousWhenPromptHoldsMarker` proves that two different
  prompt/output pairs give the same file when the prompt does contain the
  separator.

## Model

| member | source | states |
|---|---|---|
| `ExportTxt.ReplaceFrom` | src/app/api/export/txt/route.ts:7 | the global replace yields only `[A-Za-z0-9_-]` characters and is never longer than its input |
| `ExportTxt.ReplaceRunsOfRun` | src/app/api/export/txt/route.ts:7 | a non-empty run of disallowed characters becomes exactly one `_` |
| `ExportTxt.ReplaceRunsKeepsNameChars` | src/app/api/export/txt/route.ts:7 | allowed characters pass through unchanged and in order |
| `ExportTxt.ReplaceFromAppend` | src/app/api/export/txt/route.ts:7 | the replace of a concatenation is the replace of each part, the second resumed in the state the first ended in |
| `ExportTxt.ReplaceRunsAppend` | src/app/api/export/txt/route.ts:7 | cutting the input between runs replaces each part separately, so the replace works maximal run by maximal run |
| `ExportTxt.Sanitize` | src/app/api/export/txt/route.ts:6-8 | `sanitize` yields only `[A-Za-z0-9_-]` characters, at most 60 of them |
| `ExportTxt.SanitizeIdentity` | src/app/api/export/txt/route.ts:7 | `sanitize` is the identity on names of at most 60 allowed characters |
| `ExportTxt.SanitizeIdempotent` | src/app/api/export/txt/route.ts:7 | `sanitize` applied twice equals `sanitize` applied once |
| `ExportTxt.TextLayout` | src/app/api/export/txt/route.ts:13-26 | the text `Text` builds is the BOM, then `Title: `, title, newline, `Exported: `, timestamp, blank line, `--- Prompt ---`, prompt, blank line, `--- Output ---`, output, in that order |
| `ExportTxt.OutputIsFinal` | src/app/api/export/txt/route.ts:20-21 | the output is the final segment of the text, right after the output heading line |
| `ExportTxt.DecodeText` | src/app/api/export/txt/route.ts:13-26 | decoding the text gives back title, timestamp, prompt and output verbatim, when title and timestamp are single lines and the prompt does not contain the output separator |
| `ExportTxt.AmbiguousWhenPromptHoldsMarker` | src/app/api/export/txt/route.ts:17-21 | a prompt containing the output separator makes two different prompt/output pairs give the same text |
| `ExportTxt.FileTimestamp` | src/app/api/export/txt/route.ts:28 | the timestamp keeps its length, with every `:` and `.` mapped to `-` and every other character kept |
| `ExportTxt.FilenameShape` | src/app/api/export/txt/route.ts:28-29 | for an ISO timestamp the filename `Filename` builds is the sanitized title, `_`, then name characters only, then `.txt`; its only `.` is the one before `txt` |
| `ExportTxt.DispositionWellFormed` | src/app/api/export/txt/route.ts:35 | for a timestamp without `"` or `\`, in the header `ContentDisposition` builds, the quoted `filename` parameter holds no `"` or `\` and reads back as the filename |
| `ExportTxt.Post` | src/app/api/export/txt/route.ts:11-37 | the response is 200, `text/plain; charset=utf-8`, and its text starts with U+FEFF |
| `ExportTxt.PostRoundTrip` | src/app/api/export/txt/route.ts:11-35 | missing title, prompt and output default to `content`, `` and ``; when the title and the timestamp are single lines, the prompt followed by a newline does not contain the output separator, and the ISO timestamp holds only digits and `-:.TZ`, the response text decodes back to those fields and the header carries the filename built from the title |
| `Auth.BearerTokenSpec` | src/lib/auth.ts:9-10 | in `BearerToken`, the token branch is taken exactly when the header starts with `bearer ` in any ASCII case; the token is the header minus exactly its first seven characters |
| `Auth.TokenAfterAnyCasing` | src/lib/auth.ts:8-22 | any casing of the scheme yields the token after it, and `CreateServerClient` builds a client that forwards `Bearer <token>` |
| `Auth.TokenExamples` | src/lib/auth.ts:9-10 | `Bearer x`, `BEARER x` and `bearer x` give `x`; `Bearer ` gives the empty token and `Bearer  x` gives ` x` |
| `Auth.CookieFallbackExamples` | src/lib/auth.ts:21-22 | a missing header, `Bearer` with no space and a `Basic` header fall back to the cookie client |
| `Auth.ForwardedHeaderCanonical` | src/lib/auth.ts:16 | the forwarded header is always `Bearer ` plus the token, and reading it back gives the same client |
| `Drafts.IndexOfOwned` | src/app/api/generate/route.ts:70-71 | the first row whose `draft_id` and `user_id` both match, or none when no row matches |
| `Drafts.OwnedRowUnique` | src/app/api/generate/route.ts:70-73 | with unique ids the filter selects at most one row |
| `Drafts.FirstWithId` | src/app/dashboard/history/page.tsx:12 | `rows.find` gives the first row with the id, or none when no row has it |
| `Drafts.UpdateOwnedSpec` | src/app/api/generate/route.ts:63-73 | the update `UpdateOwned` patches type, text and `updated_at` of exactly the row the filter selects; every other row, every id, owner and creation time is unchanged; ids stay unique |
| `Drafts.DraftTable.Insert` | src/app/api/generate/route.ts:78-86 | one row is appended with the given owner, type and text, a fresh id and a null `updated_at` |
| `Drafts.DraftTable.UpdateOwnedRow` | src/app/api/generate/route.ts:63-73 | the table becomes the filtered update; the row comes back, or none when the filter selects no row |
| `Listing.BeforeTotal` | src/app/dashboard/page.tsx:36-37 | both orders are total |
| `Listing.BeforeTransitive` | src/app/dashboard/page.tsx:36-37 | both orders are transitive |
| `Listing.UpdatedBeforeNeverUpdated` | src/app/dashboard/page.tsx:36 | with nulls last, an updated row comes strictly before a never-updated one |
| `Listing.InsertSorted` | src/app/dashboard/history/page.tsx:8 | inserting into a sorted listing keeps it sorted and adds exactly that row |
| `Listing.SortBy` | src/app/dashboard/history/page.tsx:8 | the store's ORDER BY returns a sorted permutation of the table |
| `Listing.HistoryRows` | src/app/dashboard/history/page.tsx:8 | the history listing holds every row, newest `created_at` first |
| `Listing.RecentDrafts` | src/app/dashboard/page.tsx:33-38 | the dashboard lists min(10, table size) rows, ordered by `updated_at` descending with nulls last and then `created_at` descending; every row left out comes after every row listed |
| `Profiles.ReadProfile` | src/app/dashboard/profile/page.tsx:36-40 | a read fails exactly when the store reports an error, and otherwise finds the user's row exactly when one exists |
| `Profiles.Upserted` | src/app/dashboard/profile/page.tsx:55-63 | after the upsert keyed on `user_id` the user has exactly one profile, holding the fields and `updated_at`; other users' profiles are unchanged |
| `Profiles.UpsertThenRead` | src/app/dashboard/profile/page.tsx:55-63 | the written profile reads back, other users read as before, and repeating the upsert changes nothing |
| `Profiles.ProfileTable.Upsert` | src/app/dashboard/profile/page.tsx:61-65 | the table becomes the upserted map |
| `Generate.Normalize` | src/app/api/generate/route.ts:20-24 | `draftId` and `topic` are the sent values (or empty) trimmed; `keywords` are the sent value or empty, untrimmed; `contentType` is kept as sent; an unreadable body reads as all empty |
| `Generate.BlankTopicIncomplete` | src/app/api/generate/route.ts:23-26 | a topic of white space alone fails the required check |
| `Generate.OrElse` | src/app/api/generate/route.ts:40-41 | the or-default keeps a non-empty `s`, gives the fallback for an empty one, and is never empty when the fallback is not |
| `Generate.SystemPromptDefaults` | src/app/api/generate/route.ts:39-41 | no profile and empty fields both give `friendly`, `general`, `customers`; the product list is not used |
| `Generate.SystemPromptTone` | src/app/api/generate/route.ts:39-40 | the system prompt `SystemPrompt` builds names the profile's tone when it is non-empty, and `friendly` otherwise |
| `Generate.SystemPromptIndustry` | src/app/api/generate/route.ts:39-40 | the system prompt names the profile's industry when it is non-empty, and `general` otherwise, whatever the other fields hold |
| `Generate.SystemPromptAudience` | src/app/api/generate/route.ts:39-41 | the system prompt names the profile's target audience when it is non-empty, and `customers` otherwise, whatever the other fields hold |
| `Generate.UserPromptCarries` | src/app/api/generate/route.ts:43-45 | the user prompt `UserPrompt` builds carries the trimmed topic and the keywords as sent |
| `Generate.Save` | src/app/api/generate/route.ts:62-89 | 200 exactly when the store does not fail and either no `draftId` was given or the caller owns that draft; then the row holds the caller's id, type and text, an insert answers with exactly the row it appended, and the table is the filtered update or gains one new row; otherwise 500 and no change |
| `Generate.SaveTouchesOnlyTheCallersDraft` | src/app/api/generate/route.ts:62-89 | an update leaves every row the filter does not select as it was; an insert appends one row with a new id; ids stay unique |
| `Generate.Admit` | src/app/api/generate/route.ts:14-36 | 401 exactly without a user, with the auth message or `Auth session missing!`, whatever the body holds; then 400 for a request `Complete` rejects (`contentType` checked only for truthiness, the trimmed topic for being non-empty); then 500 with the message of a failed profile read; a request that passes is complete and carries the caller's profile |
| `Generate.Respond` | src/app/api/generate/route.ts:58-92 | after the model call: a thrown error gives 500 with its message or `Internal error` and no write; 502 exactly when the trimmed reply is empty, with no write; otherwise the trimmed reply is saved |
| `Generate.Handle` | src/app/api/generate/route.ts:7-94 | 401 exactly when no user is signed in; a request that never reaches the model leaves the table alone |
| `Generate.HandleAsksOnlyWhenAdmitted` | src/app/api/generate/route.ts:14-56 | the model is asked exactly when the caller is signed in, the request is complete and the profile read succeeded, with the chat request `Ask` builds from them; otherwise the refusal is the response and nothing is written |
| `Generate.HandleWritesOnlyOnSuccess` | src/app/api/generate/route.ts:58-89 | 502 exactly when the model was asked and its trimmed reply is empty; the table changes only with a 200 response, which carries a row owned by the caller whose text is the non-empty trimmed reply |
| `Generate.HandleSavesByDraftId` | src/app/api/generate/route.ts:21-89 | on a 200, a `draftId` absent or of white space alone inserts exactly one new row owned by the caller with the type and trimmed reply, and the response carries that row; any other `draftId` updates the caller's row whose id is the trimmed `draftId` |
| `Generate.SaveTo` | src/app/api/generate/route.ts:62-89 | the save against the draft table does what `Save` says |
| `Generate.RespondTo` | src/app/api/generate/route.ts:58-89 | the steps after the model call, against the draft table, do what `Respond` says |
| `Generate.Post` | src/app/api/generate/route.ts:7-94 | the route against the tables returns the response and makes the write that `Handle` says |
| `Analyze.CopyOf` | src/app/api/analyze/route.ts:14-25 | a copy read out of a prompt rebuilds that prompt |
| `Analyze.CopyRoundTrip` | src/app/api/analyze/route.ts:14-25 | the prompt `Prompt` builds holds the text verbatim between `"""` delimiters after `Content:`, and the text reads back out whatever it contains |
| `Analyze.Handle` | src/app/api/analyze/route.ts:7-46 | a missing, empty or non-string `text` (what `ValidText` rejects) gives 400 with no model call; a thrown error gives its own status or 500; a missing or blank reply gives 502; a valid text with a non-blank reply gives 200 with exactly the trimmed analysis |
| `History.DuplicateSpec` | src/app/dashboard/history/page.tsx:11-17 | the duplicate `Duplicated` keeps every existing row and adds at most one, and adds one exactly when the page shows the id and the insert succeeds; an id not shown adds nothing; the copy carries the first shown row's owner, type and text |
| `History.HistoryPage.constructor` | src/app/dashboard/history/page.tsx:6 | the page starts with no rows and no navigation |
| `History.HistoryPage.Load` | src/app/dashboard/history/page.tsx:7-10 | the page shows the history listing, or nothing when the query fails |
| `History.HistoryPage.Duplicate` | src/app/dashboard/history/page.tsx:11-18 | the table becomes the duplicated one; the page reloads whenever a source row was found, whether or not the insert succeeded |
| `Dashboard.Preview` | src/app/dashboard/page.tsx:141 | a null or all-white-space text shows `— Empty draft —`; any other text shows its first 160 characters untrimmed |
| `Dashboard.TypeLabel` | src/app/dashboard/page.tsx:138 | the label is the content type, or `draft` when it is null |
| `Dashboard.DashboardPage.constructor` | src/app/dashboard/page.tsx:18-20 | the page starts loading, with no drafts, no email, no navigation and no alert |
| `Dashboard.DashboardPage.Load` | src/app/dashboard/page.tsx:22-43 | without a user the page goes to `/auth/login` and loads nothing; otherwise it shows the recent drafts (none on a failed query) and stops loading |
| `Dashboard.DashboardPage.CreateNewDraft` | src/app/dashboard/page.tsx:45-66 | only a signed-in user gets one new row typed `social` with empty text, then the editor opens on its id; a failure alerts the store's message or `Could not create draft` and does not navigate |
| `ProfilePage.Loaded` | src/app/dashboard/profile/page.tsx:42-43 | a row found replaces the form's fields wholesale; otherwise they stay |
| `ProfilePage.SaveThenLoad` | src/app/dashboard/profile/page.tsx:18-23 | a saved profile loads back exactly; with no saved profile the form shows `friendly` and empty fields |
| `ProfilePage.ProfileForm.constructor` | src/app/dashboard/profile/page.tsx:18-27 | the form starts with the default profile, loading, not saving, no messages |
| `ProfilePage.ProfileForm.Load` | src/app/dashboard/profile/page.tsx:29-46 | an auth error is shown and loading stops; no user goes to login; a read error is shown; a row found replaces the fields |
| `ProfilePage.ProfileForm.Save` | src/app/dashboard/profile/page.tsx:48-76 | messages cleared first; no user shows the auth message or `Not authenticated` and writes nothing; a store error is shown, resets `saving` and writes nothing; success upserts under the user's id, shows `Profile saved!` and goes to `/dashboard` |
| `Register.Validate` | src/app/auth/register/page.tsx:20-21 | the required check comes before the match check; the form passes exactly when email and password are non-empty and the password equals the confirmation |
| `Register.RegisterForm.constructor` | src/app/auth/register/page.tsx:8-13 | the form starts with empty email, password and confirmation, not loading, with no messages |
| `Register.RegisterForm.Submit` | src/app/auth/register/page.tsx:15-25 | both messages are cleared; a failed check sets its error and leaves `loading` alone; otherwise loading starts and exactly the email and password are sent |
| `Register.RegisterForm.SignUpFinished` | src/app/auth/register/page.tsx:26-31 | loading stops; an error sets `err` to its message; success sets the confirm-your-email message |

## Left out

- The language-model calls: model name, temperature and token cap. The reply is an input (`Chat.Completion`).
- Supabase itself: client construction, sessions and cookies, row-level security, and unique-constraint enforcement.
  - Listings range over the whole table, as the queries themselves do.
  - The id and creation time of a new row are parameters, with the id required to be fresh.
  - A store error is a parameter.
  - The error text `.single()` gives when an update matches no row is a constant (`Generate.NoSingleRow`). Its wording belongs to the store library and is not part of this model.
- The clock and locale (`new Date()`, `toISOString`, `toLocaleString`): their strings and timestamps are parameters.
- JSON parsing:
  - Bodies are given already parsed, as optional string fields.
  - `.toString()` on non-string JSON values in the generate body is not modelled.
  - A failed parse in the export route is not modelled. A failed parse in the analyze route is modelled, as `Unparsable`.
- Strings are sequences of characters, not UTF-16 code units, so `slice` counts characters. Lower-casing and `\w` are ASCII only.
- Concurrency: React effects, async interleaving, and races between writes to one row. Each method runs to completion.
- Rendering, `alert` and `location.reload` are recorded as state (`alert`, `navigation`), not performed.
- The landing page, the login page, the ping route, the editor page and the log-out button are not part of this model.
- Listing.SortBy: rows with equal keys come out in one particular order, while the store promises no order among them. Every property stated holds for any order among ties.
