# Company registry console — Dafny model

A model of the logic inside a small React console for a registry of
companies. The console lists companies fetched from a remote registry
service, filters them with a search box, shows one in a detail panel, deletes
them after a confirmation, and edits or creates them in a form with a list of
document attachments. The model covers three parts of the console:

- **The registry client** (`company_service.dfy`, module `CompanyService`).
  It builds the HTTP requests for list, create, update and delete. It shapes
  their payloads to the six editable fields. It keeps a nine-field record of
  a created company. Its response interceptor folds every transport failure
  into one of three failure shapes. The HTTP call itself is a parameter of
  type `Transport`: either a 2xx body or a library error.
- **The editor form** (`company_editor.dfy`, module `CompanyEditor`). It
  covers the mode choice and initial draft, the field-name aliases, clearing
  an error on edit, and the document-slot list (add, remove, edit; one to
  ten slots). It also covers `validateForm` and the submit lifecycle. The
  lifecycle has a re-entrancy guard, aborts on errors, picks create or
  update by mode, and replaces the draft on success or re-enables
  submission on failure.
- **The list page** (`company_list.dfy`, module `CompanyList`). It covers
  loading, the case-insensitive search over name, PAN and GST number,
  selection and the detail panel, the edit navigation, the delete key and
  the delete sequence (guard, confirmation, delete, refetch).

Supporting modules: `Values` (`values.dfy`) holds optional values and
JavaScript objects as string maps. `Text` (`text.dfy`) holds trim,
lower-case and substring search. `Scenarios` (`scenarios.dfy`) holds
end-to-end walks that use both pages.

Modelling conventions:

- A JavaScript object is a `Record = map<string, string>`. A property that
  is missing, `undefined` or `null` is simply absent from the map. "Truthy"
  for an optional string means present and non-empty.
- A response body is an array of objects, an object, other text, or `null`.
  Reading a property of `null` raises a `TypeError` (`TypeFault`). Reading
  one of an array or a string gives `undefined`.
- Each event handler is one pure step from a state record to the next. The
  HTTP outcomes and the answer of the confirmation dialog are parameters. A
  step returns the requests it sent, in order.
- `trim` strips ASCII whitespace only. `toLowerCase` folds `A`–`Z` only.

Behaviours of the code that the model keeps as they are:

- With the empty search term, companies that lack all three of
  `company_name`, `pan_number` and `gst_number` are dropped. A company with
  any of them, even an empty one, is kept. See
  `CompanyList.EmptyTermKeepsAll`.
- Document slots are never sent to the server. The create and update
  payloads are exactly the six editable fields.
- The routing table in `src/App.js` gives the edit route no `id`
  parameter. The model takes the route parameter as an input
  (`Editor.routeId`).
- After a successful save `isSubmitting` stays set, because the form
  navigates away. So a second submit sends nothing.
- `validateForm` calls `trim` on `company_name` and `address`. If a seeded
  draft lacks either field, this throws, so submit changes nothing and
  sends nothing. In edit mode, a `null` update answer throws inside the
  `try` when its fields are read, so the form takes the failure path.
- A save rejected with a `null` error body makes the `catch` block itself
  throw, so the form stays in the submitting state (see "## Findings").

## Model

| member | source | states |
|---|---|---|
| CompanyService.Classify | src/utils/companyService.js:14-31 | A server answer is rethrown as its body. A request with no answer becomes the error "No response received from server". A request that never went out becomes "Error setting up request". |
| CompanyService.ClassifyIgnoresLibraryMessage | src/utils/companyService.js:24-30 | Failures that differ only in the HTTP library's message are reported identically; the library's message never reaches callers. |
| CompanyService.GetCompanies | src/utils/companyService.js:34-42 | A 2xx array body is returned as the list. Any other 2xx body gives `[]`. A failure rejects with the interceptor's classification. |
| CompanyService.RequestBody | src/utils/companyService.js:65-72 | The create payload holds only editable keys, each with the draft's value. No id, timestamp or document slot is ever sent. |
| CompanyService.RequestBodyDependsOnlyOnEditable | src/utils/companyService.js:96-103 | Two drafts that agree on the six editable fields produce the same create/update payload. |
| CompanyService.ProjectRecord | src/utils/companyService.js:76-86 | The kept record has only the nine record keys, each with the answer's value. |
| CompanyService.ProjectRecordStable | src/components/Company/CreateCompany.jsx:126-137 | Re-projecting a projected record changes nothing. Sending it back sends the same payload as sending the original. |
| CompanyService.Properties | src/utils/companyService.js:77-85 | Reading properties off an object gives its fields. Off an array or a string it gives none. Off `null` it fails with a TypeError, and only then. |
| CompanyService.CreateCompany | src/utils/companyService.js:54-91 | Resolves to the nine-field projection of an object answer. An array or text answer gives the empty record. A `null` answer rejects with a TypeError. A transport failure rejects with its classification. |
| CompanyService.UpdateCompany | src/utils/companyService.js:93-110 | Resolves to the answer body unchanged, whatever its shape; rejects with the classification on failure. |
| CompanyService.DeleteCompany | src/utils/companyService.js:112-122 | Resolves to `true` on every 2xx answer, ignoring the body; rejects with the classification on failure. |
| CompanyService.FailuresPropagate | src/utils/companyService.js:34-122 | No operation swallows a transport failure. List, create, update and delete all reject with the interceptor's classification. |
| Text.Trim | src/components/Company/CreateCompany.jsx:71-74 | The trimmed string is a contiguous slice of the input that neither starts nor ends with whitespace, and everything dropped before and after it is whitespace. |
| Text.TrimEmptyIffAllSpace | src/components/Company/CreateCompany.jsx:71-74 | Trimming leaves nothing exactly when every character is whitespace. |
| Text.Lower | src/components/Company/ViewCompanyPage.jsx:64-66 | Lower-casing keeps the length, maps every character through the letter fold, and leaves no upper-case letter. |
| Text.ContainsIffOccurs | src/components/Company/ViewCompanyPage.jsx:64-66 | The suffix scan of `includes` succeeds exactly when the term occurs at some offset. |
| CompanyEditor.Init | src/components/Company/CreateCompany.jsx:11-26 | The initial draft is the navigation-supplied company, else six empty editable fields. The form starts with one empty slot, no errors, and not submitting. |
| CompanyEditor.FieldKey | src/components/Company/CreateCompany.jsx:28-37 | Each of the five aliases maps to its storage key (`companyName`, `panNumber`, `mcaNumber`, `gstNumber`, `description` to `company_name`, `pan_number`, `mca_reg_details`, `gst_number`, `notes`). Any other name passes through unchanged. |
| CompanyEditor.FieldKeyIdempotent | src/components/Company/CreateCompany.jsx:30-37 | Storage keys map to themselves, so renaming twice is renaming once. |
| CompanyEditor.HandleChange | src/components/Company/CreateCompany.jsx:28-47 | Only the mapped key of the draft changes, to the typed value. That key's error is cleared only if it was set. All other errors and all other state are unchanged. |
| CompanyEditor.HandleChangeOverwrites | src/components/Company/CreateCompany.jsx:28-47 | Typing into the same field twice leaves the form exactly as typing only the second value. |
| CompanyEditor.TypedNameDecidesNameCheck | src/components/Company/CreateCompany.jsx:28-47 | After a company name is typed, its validation check fails exactly when the typed value is all whitespace, whatever the draft held before. |
| CompanyEditor.HandleDocChange | src/components/Company/CreateCompany.jsx:49-53 | Same length. Only slot `i`'s edited property takes the new value. Its other property and every other slot are unchanged. |
| CompanyEditor.AddDocument | src/components/Company/CreateCompany.jsx:55-59 | Below ten slots, exactly one empty slot is appended after the unchanged list; at ten it is a no-op. |
| CompanyEditor.RemoveDocument | src/components/Company/CreateCompany.jsx:61-67 | With more than one slot, exactly slot `i` goes and the rest keep their order (as a multiset, only that slot is lost). With one slot, or an index past the end, it is a no-op. |
| CompanyEditor.SlotCountStaysInRange | src/components/Company/CreateCompany.jsx:55-67 | Any sequence of add, remove and edit actions keeps a list of one to ten slots within one to ten. |
| CompanyEditor.InitialSlotsInRange | src/components/Company/CreateCompany.jsx:23-67 | From the form's single initial slot, the slot count stays within one to ten whatever the user does. |
| CompanyEditor.DocumentsErrorIffPartialSlot | src/components/Company/CreateCompany.jsx:78-82 | Filtering the filled slots and then looking for an incomplete one flags exactly the lists with a slot that has one of {non-blank name, file} but not both. |
| CompanyEditor.ErrorsOf | src/components/Company/CreateCompany.jsx:69-76 | The errors object has the five validated keys, and some value is truthy exactly when some check failed. |
| CompanyEditor.Validate | src/components/Company/CreateCompany.jsx:69-86 | Validation throws iff the name or address is missing. Otherwise: the name or address error is set iff that field is all whitespace. The PAN or MCA error is set iff the raw value is empty, untrimmed. The documents error is set iff some slot is partial. Each error carries the source's message. GST and notes are never checked. |
| CompanyEditor.ValidatePassesIffSubmittable | src/components/Company/CreateCompany.jsx:92-97 | Validation passes with no error exactly for drafts meeting all five rules. |
| CompanyEditor.SavedRecord | src/components/Company/CreateCompany.jsx:112-138 | After a save the draft holds only record keys, with the answer's values. A failed call or a `null` answer fails. |
| CompanyEditor.SavedRecordSameInBothModes | src/components/Company/CreateCompany.jsx:112-138 | The update path and the create path keep the same record for the same answer. |
| CompanyEditor.HandleSubmit | src/components/Company/CreateCompany.jsx:88-151 | While submitting it is a no-op, and so is a draft whose name or address cannot be trimmed. Otherwise the errors become the validation result. A request is sent iff the draft is submittable: PUT to the route id in edit mode (`IsEditMode`: a truthy route id), POST otherwise, carrying the editable fields. Without a request the draft is unchanged. On success the draft becomes the answer's record (empty for an array or text answer), both flags are set, and the form returns to the list. On failure the draft is kept and `submitSuccess` is cleared. `isSubmitting` is cleared too, except after a `null` rejection. |
| CompanyEditor.NoSecondRequestAfterSave | src/components/Company/CreateCompany.jsx:88-90 | After a successful save a second submit sends no request. |
| CompanyEditor.RetryAfterFailureSendsAgain | src/components/Company/CreateCompany.jsx:145-150 | After a failed save that was not a `null` rejection, the same draft can be submitted again and sends a request. |
| CompanyEditor.NullRejectionLocksForm | src/components/Company/CreateCompany.jsx:145-149 | After a `null` rejection the form stays in the submitting state and every later submit sends nothing. |
| CompanyEditor.HandleSubmitFixed | src/components/Company/CreateCompany.jsx:145-150 | A catch block that cannot throw: same requests and navigation as `HandleSubmit`, identical outside `null` rejections, and every failed save re-enables the form. |
| CompanyEditor.RetryAfterAnyFailureSendsAgain | src/components/Company/CreateCompany.jsx:145-150 | With the fixed catch block, every failed save can be submitted again and sends a request. |
| CompanyList.InitialView | src/components/Company/ViewCompanyPage.jsx:9-12 | The page starts with no companies, the spinner on, an empty search and no selection. |
| CompanyList.LoadCompanies | src/components/Company/ViewCompanyPage.jsx:14-29 | After one load the spinner is off on success and on failure. The list is the fetched list on success and empty on failure. Search and selection are untouched. |
| CompanyList.LastLoadWins | src/components/Company/ViewCompanyPage.jsx:14-29 | A second load replaces whatever the first left: loading twice is loading once with the second answer. |
| CompanyList.FilterCompanies | src/components/Company/ViewCompanyPage.jsx:63-67 | The shown rows are exactly the fetched companies that match the term (`Matches`: the lower-cased term occurs in the lower-cased name, PAN or GST number, and a missing property never matches). Every matching row is kept as many times as it was fetched, and no other row appears. |
| CompanyList.FilterIsSubsequence | src/components/Company/ViewCompanyPage.jsx:63-67 | The shown rows keep the order of the fetched list. |
| CompanyList.FilterIdempotent | src/components/Company/ViewCompanyPage.jsx:63-67 | Filtering the shown rows again with the same term changes nothing. |
| CompanyList.FilterIgnoresTermCase | src/components/Company/ViewCompanyPage.jsx:64-66 | Terms that differ only in letter case show the same rows. |
| CompanyList.EmptyTermMatchesPresentFields | src/components/Company/ViewCompanyPage.jsx:63-67 | The empty term matches a company iff it has a name, PAN or GST property, even an empty one; a missing property never matches. |
| CompanyList.EmptyTermKeepsAll | src/components/Company/ViewCompanyPage.jsx:63-67 | With the empty term the whole list shows iff every company has one of the three searched properties. |
| CompanyList.LongerTermNarrows | src/components/Company/ViewCompanyPage.jsx:63-67 | When the new term contains the old one, the rows shown for it are an ordered subsequence of the rows shown before. |
| CompanyList.HandleView | src/components/Company/ViewCompanyPage.jsx:36-38 | Viewing a row selects that row's snapshot, which shows the detail panel; nothing else changes. |
| CompanyList.CloseDetail | src/components/Company/ViewCompanyPage.jsx:71-72 | Closing clears the selection, so the table shows again; nothing else changes. |
| CompanyList.ViewThenClose | src/components/Company/ViewCompanyPage.jsx:36-38 | Viewing and closing returns to the same state without a refetch. A reload leaves the selected snapshot as it was. |
| CompanyList.HandleEdit | src/components/Company/ViewCompanyPage.jsx:31-33 | Editing navigates to `/edit-company/` followed by the row's `company_id`, or by `undefined` when it has none, carrying the row itself as seed. |
| CompanyList.DeleteKey | src/components/Company/ViewCompanyPage.jsx:175 | The delete key is `id` when truthy, else `company_id`. It is truthy iff either one is. |
| CompanyList.DeleteDisabledIffNoKey | src/components/Company/ViewCompanyPage.jsx:175-178 | The delete button is disabled exactly when the key it would pass is falsy. |
| CompanyList.HandleDelete | src/components/Company/ViewCompanyPage.jsx:40-57 | A falsy id gives no dialog, no request and no change. A declined dialog gives no request and no change. A confirmed delete sends the DELETE and, only if it succeeded, exactly one list GET, whose result replaces the list. The list changes only then, and only if the refetch succeeded. |
| CompanyList.DeleteThenRefetchIsLoad | src/components/Company/ViewCompanyPage.jsx:40-57 | After a confirmed, successful delete and a successful refetch, the table holds what a fresh load of that refetch would. |
| CompanyList.EnabledRowReachesDialog | src/components/Company/ViewCompanyPage.jsx:40-48 | A row whose delete button is enabled always reaches the confirmation dialog, and a confirmed delete targets that row's key; a disabled row changes nothing. |
| Scenarios.EditSeedsDraft | src/components/Company/CreateCompany.jsx:14-22 | The editor opened from a row's edit action holds exactly that row as its draft. |
| Scenarios.AcmeIsSaved | src/components/Company/CreateCompany.jsx:88-144 | Saving the Acme form sends one POST with its fields, keeps the server's `company_id` and the company name, and returns to the list. |
| Scenarios.AcmeFoundAfterReload | src/components/Company/ViewCompanyPage.jsx:14-29 | A reloaded one-row list holding "Acme Pvt Ltd" shows that row for the search "acme". |
| Scenarios.AcmeIsCreatedAndFound | src/components/Company/CreateCompany.jsx:88-144 | The "Acme Pvt Ltd" form with one complete slot sends one POST with its fields. It keeps the server's `company_id` and returns to the list. The refetched list shows it for the search "acme". |
| Scenarios.AcmeNullRejectionLocks | src/components/Company/CreateCompany.jsx:145-149 | The Acme form rejected with a `null` error body sends its POST, then stays locked, and a retry sends nothing. With the fixed catch block the retry sends the POST again. |
| Scenarios.EmptyAddressIsRejected | src/components/Company/CreateCompany.jsx:69-97 | With an empty address, submit sends nothing, sets the address error and keeps the draft as typed. |

## Left out

- The HTTP transport, the axios instance, its base URL and headers (src/utils/companyService.js:3-11): each call's outcome is a `Transport` parameter.
- `getCompany` (src/utils/companyService.js:44-52): a pass-through that neither page uses.
- Rendering: JSX, CSS classes, the detail panel's display strings and `||` fallbacks, the success banner.
- `alert`, `console` and `window.confirm` side effects: the dialog's answer is a parameter, and alert texts are not modelled. The one effect of an alert that is modelled is the `TypeError` the failure alert raises on a `null` rejection.
- The detail panel's "Edit Details" button (src/components/Company/ViewCompanyPage.jsx:269): it only logs.
- The search input and its clear button (src/components/Company/ViewCompanyPage.jsx:88-95): they only assign the term. The filter takes the term as an argument.
- Routing (src/App.js), the tab toggle in src/components/Company/PropertyManagement.jsx, and the render smoke test in src/App.test.js.
- Asynchrony: React state batching, stale closures over `isSubmitting`, and responses arriving after the page is gone. Each handler is one sequential step. The missing double-delete guard is a concurrency gap and is not modelled.
- File handles: a document's file is modelled by its presence only; the file name shown under a slot is not modelled.
- Unicode: `trim` and `toLowerCase` are modelled on ASCII whitespace and ASCII letters only.
- Property values other than strings: identifiers and timestamps are strings in the model. A numeric `0` id, falsy in JavaScript, is not modelled.
- Property names that hit `Object.prototype` in the alias lookup (for example `constructor`). The form's inputs never use them.
- CompanyEditor.HandleDocChange: requires an existing slot index. Past the end the source would create a sparse array entry, but the form renders inputs only for existing slots.
- CompanyService.RequestBody: a field that is `null` in the draft is sent by the source as JSON `null`. The model does not tell `null` from missing, so it leaves that field out.
- CompanyList.HandleEdit: a `company_id` that is JSON `null` gives `/edit-company/null` in the source. The model does not tell `null` from missing, so it gives `/edit-company/undefined`.
- A fetched list whose elements are not objects (for example a `null` element): the source's filter then throws while rendering. The model's array body holds objects only, so it cannot represent that input.

## Findings

| source | as written | input that shows it | evidently intended | confidence | as-written member | corrected member |
|---|---|---|---|---|---|---|
| src/components/Company/CreateCompany.jsx:145-149 | The catch block reads `error.message` before it resets the flags. A rejection whose value is `null` (the interceptor rethrows `error.response.data`, src/utils/companyService.js:23) makes that read throw, so `isSubmitting` stays `true` and every later submit returns at line 90. | A submittable draft whose save gets an error response with a JSON `null` body. | Every failed save re-enables the form. | not executed | CompanyEditor.NullRejectionLocksForm | CompanyEditor.RetryAfterAnyFailureSendsAgain |
`CompanyEditor.HandleSubmit` models the code as written. `CompanyEditor.HandleSubmitFixed` is the corrected handler. It sends the same requests and navigates the same way, and it differs only after a `null` rejection. So the scenarios, which never meet that rejection except in `Scenarios.AcmeNullRejectionLocks`, hold for both.
