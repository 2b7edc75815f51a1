/** The company editor form (src/components/Company/CreateCompany.jsx): the
    draft record, the list of document slots, the per-field errors and the
    submit lifecycle. Each event handler is one step from an `Editor` state to
    the next; the outcome of the HTTP call a submit makes is a parameter. */
module CompanyEditor {
  import opened Values
  import opened Text
  import opened CompanyService

  const MaxDocuments := 10

  /** Where a successful save sends the user. */
  const ListPath := "/view-companies"

  const NameRequired := "Company name is required"
  const PanRequired := "PAN number is required"
  const McaRequired := "MCA number is required"
  const AddressRequired := "Address is required"
  const DocumentsIncomplete := "All added documents must have both name and file"

  /** One document attachment row; the chosen file is modelled by its
      presence only. */
  datatype DocSlot = DocSlot(name: string, hasFile: bool)

  const EmptySlot := DocSlot("", false)

  /** The `errors` state: a message per field, `None` once cleared. */
  type Errors = map<string, Option<string>>

  datatype Editor = Editor(
    routeId: Option<string>,
    company: Record,
    documents: seq<DocSlot>,
    errors: Errors,
    isSubmitting: bool,
    submitSuccess: bool)

  /** `errors[key]` is truthy. */
  predicate ErrorSet(errs: Errors, key: string) {
    key in errs && Truthy(errs[key])
  }

  /** `Object.values(errs).some(error => error)`. */
  predicate HasError(errs: Errors) {
    exists k :: k in errs && ErrorSet(errs, k)
  }

  // ---------------------------------------------------------------------
  // Mode and initial state

  /** Edit mode is chosen by a truthy `id` route parameter. */
  predicate IsEditMode(routeId: Option<string>) {
    Truthy(routeId)
  }

  /** The blank draft of create mode: the six editable fields, all empty. */
  function DefaultCompany(): (d: Record)
    ensures d.Keys == EditableKeys
    ensures forall k :: k in d ==> d[k] == ""
  {
    map k | k in EditableKeys :: ""
  }

  /** The state on mount: the draft is the company carried in the
      navigation state when there is one, else the blank draft; one empty
      document slot; no errors; not submitting. */
  function Init(routeId: Option<string>, seed: Option<Record>): (e: Editor)
    ensures e.routeId == routeId
    ensures seed.Some? ==> e.company == seed.value
    ensures seed.None? ==> e.company.Keys == EditableKeys && forall k :: k in e.company ==> e.company[k] == ""
    ensures e.documents == [EmptySlot] && e.errors == map[]
    ensures !e.isSubmitting && !e.submitSuccess
  {
    var company := match seed case Some(c) => c case None => DefaultCompany();
    Editor(routeId, company, [EmptySlot], map[], false, false)
  }

  // ---------------------------------------------------------------------
  // Field edits

  /** Input names the change handler renames before storing. */
  const Aliases: map<string, string> := map[
    "companyName" := "company_name",
    "panNumber" := "pan_number",
    "mcaNumber" := "mca_reg_details",
    "gstNumber" := "gst_number",
    "description" := "notes",
    "address" := "address"]

  /** The storage key an input name writes to: its alias target, or the
      name itself when it has none. */
  function FieldKey(name: string): (k: string)
    ensures name in Aliases ==> k in EditableKeys
    ensures name !in Aliases ==> k == name
    ensures name == "companyName" ==> k == "company_name"
    ensures name == "panNumber" ==> k == "pan_number"
    ensures name == "mcaNumber" ==> k == "mca_reg_details"
    ensures name == "gstNumber" ==> k == "gst_number"
    ensures name == "description" ==> k == "notes"
  {
    if name in Aliases then Aliases[name] else name
  }

  /** Storage keys are written to directly, so renaming is idempotent and
      the form's inputs, which are named by storage key, hit their field. */
  lemma FieldKeyIdempotent(name: string)
    ensures FieldKey(FieldKey(name)) == FieldKey(name)
    ensures name in EditableKeys ==> FieldKey(name) == name
  {
  }

  /** handleChange: store `value` under the input's storage key and clear
      that key's error if it was set; nothing else changes. */
  function HandleChange(e: Editor, name: string, value: string): (e': Editor)
    ensures Get(e'.company, FieldKey(name)) == Some(value)
    ensures forall k :: k != FieldKey(name) ==> Get(e'.company, k) == Get(e.company, k)
    ensures !ErrorSet(e'.errors, FieldKey(name))
    ensures ErrorSet(e.errors, FieldKey(name)) ==> FieldKey(name) in e'.errors && e'.errors[FieldKey(name)] == None
    ensures !ErrorSet(e.errors, FieldKey(name)) ==> e'.errors == e.errors
    ensures e'.errors.Keys == e.errors.Keys
    ensures forall k :: k in e.errors && k != FieldKey(name) ==> e'.errors[k] == e.errors[k]
    ensures e'.(company := e.company, errors := e.errors) == e
  {
    var key := FieldKey(name);
    var errors := if ErrorSet(e.errors, key) then e.errors[key := None] else e.errors;
    e.(company := e.company[key := value], errors := errors)
  }

  /** Typing into a field twice keeps only the second value: the first edit
      already cleared the field's error. */
  lemma HandleChangeOverwrites(e: Editor, name: string, v1: string, v2: string)
    ensures HandleChange(HandleChange(e, name, v1), name, v2) == HandleChange(e, name, v2)
  {
  }

  /** After typing a company name, the name check fails exactly when the
      typed value is all whitespace, whatever the draft held before. */
  lemma TypedNameDecidesNameCheck(e: Editor, name: string, v: string, docs: seq<DocSlot>)
    ensures FieldKey(name) == "company_name" && "address" in e.company ==>
              var c := HandleChange(e, name, v).company;
              Validate(c, docs).Some? && (Validate(c, docs).value.name.Some? <==> AllSpace(v))
  {
  }

  // ---------------------------------------------------------------------
  // Document slots

  /** Which property of a slot a document input writes. */
  datatype SlotEdit = SetName(name: string) | SetFile(hasFile: bool)

  /** handleDocChange: a copy of the list in which only slot `i`'s edited
      property differs. The form renders inputs only for existing slots. */
  function HandleDocChange(docs: seq<DocSlot>, i: nat, edit: SlotEdit): (r: seq<DocSlot>)
    requires i < |docs|
    ensures |r| == |docs|
    ensures forall j :: 0 <= j < |r| && j != i ==> r[j] == docs[j]
    ensures edit.SetName? ==> r[i].name == edit.name && r[i].hasFile == docs[i].hasFile
    ensures edit.SetFile? ==> r[i].hasFile == edit.hasFile && r[i].name == docs[i].name
  {
    var slot := match edit
      case SetName(n) => docs[i].(name := n)
      case SetFile(f) => docs[i].(hasFile := f);
    docs[i := slot]
  }

  /** addDocument: one more empty slot below the limit, else no change. */
  function AddDocument(docs: seq<DocSlot>): (r: seq<DocSlot>)
    ensures |docs| < MaxDocuments ==> |r| == |docs| + 1 && r[..|docs|] == docs && r[|docs|] == EmptySlot
    ensures |docs| >= MaxDocuments ==> r == docs
  {
    if |docs| < MaxDocuments then docs + [EmptySlot] else docs
  }

  /** removeDocument: with more than one slot, `splice(i, 1)` drops slot `i`
      and keeps the others in order (an index past the end drops nothing);
      the last remaining slot is never removed. */
  function RemoveDocument(docs: seq<DocSlot>, i: nat): (r: seq<DocSlot>)
    ensures |docs| > 1 && i < |docs| ==> |r| == |docs| - 1
    ensures |docs| > 1 && i < |docs| ==> forall j :: 0 <= j < i ==> r[j] == docs[j]
    ensures |docs| > 1 && i < |docs| ==> forall j :: i <= j < |r| ==> r[j] == docs[j + 1]
    ensures |docs| > 1 && i < |docs| ==> multiset(r) + multiset{docs[i]} == multiset(docs)
    ensures !(|docs| > 1 && i < |docs|) ==> r == docs
  {
    if |docs| > 1 && i < |docs| then
      assert docs == docs[..i] + [docs[i]] + docs[i + 1..];
      docs[..i] + docs[i + 1..]
    else
      docs
  }

  /** The slot count the form keeps: at least one, at most ten. */
  predicate SlotCountOk(docs: seq<DocSlot>) {
    1 <= |docs| <= MaxDocuments
  }

  /** A user action on the document list. */
  datatype SlotAction = Add | Remove(index: nat) | Edit(index: nat, edit: SlotEdit)

  function ApplySlotAction(docs: seq<DocSlot>, a: SlotAction): seq<DocSlot> {
    match a
    case Add => AddDocument(docs)
    case Remove(i) => RemoveDocument(docs, i)
    case Edit(i, edit) => if i < |docs| then HandleDocChange(docs, i, edit) else docs
  }

  function ApplySlotActions(docs: seq<DocSlot>, acts: seq<SlotAction>): seq<DocSlot>
    decreases |acts|
  {
    if acts == [] then docs else ApplySlotActions(ApplySlotAction(docs, acts[0]), acts[1..])
  }

  /** Whatever the user does to the document list, starting from the form's
      single empty slot, the count stays between one and ten. */
  lemma {:induction false} SlotCountStaysInRange(docs: seq<DocSlot>, acts: seq<SlotAction>)
    requires SlotCountOk(docs)
    ensures SlotCountOk(ApplySlotActions(docs, acts))
    decreases |acts|
  {
    if acts != [] {
      var next := ApplySlotAction(docs, acts[0]);
      assert SlotCountOk(next);
      SlotCountStaysInRange(next, acts[1..]);
    }
  }

  lemma InitialSlotsInRange(acts: seq<SlotAction>)
    ensures SlotCountOk(ApplySlotActions(Init(None, None).documents, acts))
  {
    SlotCountStaysInRange([EmptySlot], acts);
  }

  // ---------------------------------------------------------------------
  // Validation

  /** `!s.trim()`: nothing is left after trimming. */
  predicate Blank(s: string) {
    Trim(s) == ""
  }

  /** The filter of `filledDocs`: a slot the user has started to fill. */
  predicate Filled(d: DocSlot) {
    !Blank(d.name) || d.hasFile
  }

  /** The test applied to filled slots: one of the two parts is missing. */
  predicate Incomplete(d: DocSlot) {
    Blank(d.name) || !d.hasFile
  }

  function FilledSlots(docs: seq<DocSlot>): seq<DocSlot> {
    if docs == [] then []
    else if Filled(docs[0]) then [docs[0]] + FilledSlots(docs[1..])
    else FilledSlots(docs[1..])
  }

  predicate AnyIncomplete(docs: seq<DocSlot>) {
    docs != [] && (Incomplete(docs[0]) || AnyIncomplete(docs[1..]))
  }

  /** Reference definition of the documents error: the slot has exactly one
      of a non-blank name and a file. */
  predicate PartialSlot(d: DocSlot) {
    AllSpace(d.name) == d.hasFile
  }

  /** The filter-then-some computation of the form flags the documents
      exactly when some slot is partial. */
  lemma {:induction false} DocumentsErrorIffPartialSlot(docs: seq<DocSlot>)
    ensures AnyIncomplete(FilledSlots(docs)) <==> exists i :: 0 <= i < |docs| && PartialSlot(docs[i])
  {
    if docs != [] {
      DocumentsErrorIffPartialSlot(docs[1..]);
      TrimEmptyIffAllSpace(docs[0].name);
      assert Filled(docs[0]) && Incomplete(docs[0]) <==> PartialSlot(docs[0]);
      if Filled(docs[0]) {
        assert FilledSlots(docs) == [docs[0]] + FilledSlots(docs[1..]);
      }
      if exists i :: 0 <= i < |docs| && PartialSlot(docs[i]) {
        var i :| 0 <= i < |docs| && PartialSlot(docs[i]);
        if i > 0 {
          assert docs[1..][i - 1] == docs[i];
        }
      }
      if exists i :: 0 <= i < |docs[1..]| && PartialSlot(docs[1..][i]) {
        var i :| 0 <= i < |docs[1..]| && PartialSlot(docs[1..][i]);
        assert docs[i + 1] == docs[1..][i];
      }
    }
  }

  /** The five results validateForm computes, one per checked field: a
      message when the check fails, `None` when it passes. */
  datatype FieldChecks = FieldChecks(
    name: Option<string>,
    pan: Option<string>,
    mca: Option<string>,
    address: Option<string>,
    documents: Option<string>)

  predicate AnyFailed(c: FieldChecks) {
    Truthy(c.name) || Truthy(c.pan) || Truthy(c.mca) || Truthy(c.address) || Truthy(c.documents)
  }

  /** The keys validateForm always writes. */
  const ValidatedKeys: set<string> :=
    {"company_name", "pan_number", "mca_reg_details", "address", "documents"}

  /** The `newErrors` object holding the checks under their storage keys;
      it has an error exactly when some check failed. */
  function ErrorsOf(c: FieldChecks): (errs: Errors)
    ensures errs.Keys == ValidatedKeys
    ensures errs["company_name"] == c.name && errs["pan_number"] == c.pan
    ensures errs["mca_reg_details"] == c.mca && errs["address"] == c.address
    ensures errs["documents"] == c.documents
    ensures HasError(errs) <==> AnyFailed(c)
  {
    var errs := map[
      "company_name" := c.name,
      "pan_number" := c.pan,
      "mca_reg_details" := c.mca,
      "address" := c.address,
      "documents" := c.documents];
    assert AnyFailed(c) ==> HasError(errs) by {
      if Truthy(c.name) { assert ErrorSet(errs, "company_name"); }
      if Truthy(c.pan) { assert ErrorSet(errs, "pan_number"); }
      if Truthy(c.mca) { assert ErrorSet(errs, "mca_reg_details"); }
      if Truthy(c.address) { assert ErrorSet(errs, "address"); }
      if Truthy(c.documents) { assert ErrorSet(errs, "documents"); }
    }
    errs
  }

  /** validateForm. `None` is the `TypeError` raised by calling `trim` on a
      missing company name or address; otherwise each check carries its
      message exactly when its rule fails: name and address must not be all
      whitespace, PAN and MCA must be non-empty (untrimmed), and no document
      slot may be partial. GST and notes are never checked. */
  function Validate(company: Record, docs: seq<DocSlot>): (v: Option<FieldChecks>)
    ensures v.None? <==> "company_name" !in company || "address" !in company
    ensures v.Some? ==> (v.value.name.Some? <==> AllSpace(company["company_name"]))
    ensures v.Some? ==> (v.value.pan.Some? <==> !Truthy(Get(company, "pan_number")))
    ensures v.Some? ==> (v.value.mca.Some? <==> !Truthy(Get(company, "mca_reg_details")))
    ensures v.Some? ==> (v.value.address.Some? <==> AllSpace(company["address"]))
    ensures v.Some? ==>
              (v.value.documents.Some? <==> exists i :: 0 <= i < |docs| && PartialSlot(docs[i]))
    ensures v.Some? ==> v.value.name.Some? ==> v.value.name.value == NameRequired
    ensures v.Some? ==> v.value.pan.Some? ==> v.value.pan.value == PanRequired
    ensures v.Some? ==> v.value.mca.Some? ==> v.value.mca.value == McaRequired
    ensures v.Some? ==> v.value.address.Some? ==> v.value.address.value == AddressRequired
    ensures v.Some? ==> v.value.documents.Some? ==> v.value.documents.value == DocumentsIncomplete
  {
    if "company_name" !in company || "address" !in company then
      None
    else
      TrimEmptyIffAllSpace(company["company_name"]);
      TrimEmptyIffAllSpace(company["address"]);
      DocumentsErrorIffPartialSlot(docs);
      Some(FieldChecks(
        if Blank(company["company_name"]) then Some(NameRequired) else None,
        if Truthy(Get(company, "pan_number")) then None else Some(PanRequired),
        if Truthy(Get(company, "mca_reg_details")) then None else Some(McaRequired),
        if Blank(company["address"]) then Some(AddressRequired) else None,
        if AnyIncomplete(FilledSlots(docs)) then Some(DocumentsIncomplete) else None))
  }

  /** A draft the form will send: name and address present and not all
      whitespace, PAN and MCA non-empty, and no partial document slot. */
  predicate Submittable(company: Record, docs: seq<DocSlot>) {
    && "company_name" in company && !AllSpace(company["company_name"])
    && "address" in company && !AllSpace(company["address"])
    && Truthy(Get(company, "pan_number"))
    && Truthy(Get(company, "mca_reg_details"))
    && !(exists i :: 0 <= i < |docs| && PartialSlot(docs[i]))
  }

  /** Validation passes without any error exactly for submittable drafts. */
  lemma ValidatePassesIffSubmittable(company: Record, docs: seq<DocSlot>)
    ensures (Validate(company, docs).Some? && !AnyFailed(Validate(company, docs).value))
            <==> Submittable(company, docs)
  {
  }

  // ---------------------------------------------------------------------
  // Submit

  /** The result of one submit: the next state, the request sent (if any)
      and the route navigated to (if any). */
  datatype SubmitStep = SubmitStep(editor: Editor, request: Option<Request>, navigateTo: Option<string>)

  /** The record the form stores after its service call: the nine-field
      projection of the answer. Update mode reads the fields off the raw
      answer itself, so a `null` answer fails there too. */
  function SavedRecord(editMode: bool, t: Transport): (r: Result<Record>)
    ensures r.Ok? <==> t.Responded? && !t.data.NullBody?
    ensures r.Ok? ==> r.value.Keys <= RecordKeys
    ensures r.Ok? && t.data.ObjectBody? ==>
              forall k :: k in RecordKeys ==> Get(r.value, k) == Get(t.data.fields, k)
    ensures r.Ok? && !t.data.ObjectBody? ==> r.value == map[]
  {
    if editMode then
      match UpdateCompany(t)
      case Err(f) => Err(f)
      case Ok(body) =>
        match Properties(body)
        case Err(f) => Err(f)
        case Ok(fields) => Ok(ProjectRecord(fields))
    else
      match CreateCompany(t)
      case Err(f) => Err(f)
      case Ok(created) => Ok(ProjectRecord(created))
  }

  /** Both modes keep the same record for the same answer: re-projecting the
      created record adds nothing to the update path's projection. */
  lemma SavedRecordSameInBothModes(t: Transport)
    ensures SavedRecord(true, t) == SavedRecord(false, t)
  {
    if t.Responded? && t.data.ObjectBody? {
      ProjectRecordStable(t.data.fields);
    }
  }

  /** A save rejected with the server's `null` error body: the catch block
      reads `error.message` off `null`, which throws before the flags are
      reset. */
  predicate NullRejection(t: Transport) {
    t.TransportFailed? && t.error.response == Some(NullBody)
  }

  /** handleSubmit. A submit in flight ignores the event; a draft whose
      fields cannot be trimmed aborts it; a draft with errors only records
      them. Otherwise it sends exactly one request (update in edit mode,
      create otherwise) carrying the editable fields; on success the draft
      becomes the saved record and the form returns to the list, on failure
      the draft is kept and the form can be submitted again, except after a
      `null` rejection, whose catch block throws and leaves the form in the
      submitting state. */
  function HandleSubmit(e: Editor, t: Transport): (s: SubmitStep)
    ensures e.isSubmitting ==> s == SubmitStep(e, None, None)
    ensures !e.isSubmitting && Validate(e.company, e.documents).None? ==> s == SubmitStep(e, None, None)
    ensures !e.isSubmitting && Validate(e.company, e.documents).Some? ==>
              s.editor.errors == ErrorsOf(Validate(e.company, e.documents).value)
    ensures s.request.Some? <==> !e.isSubmitting && Submittable(e.company, e.documents)
    ensures s.request.Some? && IsEditMode(e.routeId) ==> s.request == Some(UpdateRequest(e.routeId.value, e.company))
    ensures s.request.Some? && !IsEditMode(e.routeId) ==> s.request == Some(CreateRequest(e.company))
    ensures s.request.None? ==> s.editor.company == e.company && s.navigateTo.None?
    ensures s.request.None? ==> s.editor.isSubmitting == e.isSubmitting && s.editor.submitSuccess == e.submitSuccess
    ensures s.navigateTo.Some? ==> s.request.Some? && s.navigateTo == Some(ListPath)
    ensures s.request.Some? ==> (s.navigateTo.Some? <==> t.Responded? && !t.data.NullBody?)
    ensures s.navigateTo.Some? ==> s.editor.isSubmitting && s.editor.submitSuccess
    ensures s.navigateTo.Some? ==> s.editor.company.Keys <= RecordKeys
    ensures s.navigateTo.Some? && t.Responded? && t.data.ObjectBody? ==>
              forall k :: k in RecordKeys ==> Get(s.editor.company, k) == Get(t.data.fields, k)
    ensures s.navigateTo.Some? && t.Responded? && !t.data.ObjectBody? ==> s.editor.company == map[]
    ensures s.request.Some? && s.navigateTo.None? ==> s.editor.company == e.company && !s.editor.submitSuccess
    ensures s.request.Some? && s.navigateTo.None? ==> (s.editor.isSubmitting <==> NullRejection(t))
    ensures s.editor.routeId == e.routeId && s.editor.documents == e.documents
  {
    if e.isSubmitting then
      SubmitStep(e, None, None)
    else
      ValidatePassesIffSubmittable(e.company, e.documents);
      match Validate(e.company, e.documents)
      case None => SubmitStep(e, None, None)
      case Some(checks) =>
        var errs := ErrorsOf(checks);
        if HasError(errs) then
          SubmitStep(e.(errors := errs), None, None)
        else
          var editMode := IsEditMode(e.routeId);
          var request := if editMode then UpdateRequest(e.routeId.value, e.company) else CreateRequest(e.company);
          match SavedRecord(editMode, t)
          case Ok(saved) =>
            SubmitStep(e.(company := saved, errors := errs, isSubmitting := true, submitSuccess := true),
                       Some(request), Some(ListPath))
          case Err(f) =>
            // `${error.message}` throws when the rejection value is `null`
            var caught := f != Rethrown(NullBody);
            SubmitStep(e.(errors := errs, isSubmitting := !caught, submitSuccess := false), Some(request), None)
  }

  /** After a successful save the form stays in the submitting state, so a
      second submit sends nothing; after a failed one it can send again,
      unless the failure was a `null` rejection. */
  lemma NoSecondRequestAfterSave(e: Editor, t: Transport, t2: Transport)
    ensures HandleSubmit(e, t).navigateTo.Some? ==> HandleSubmit(HandleSubmit(e, t).editor, t2).request.None?
  {
  }

  lemma RetryAfterFailureSendsAgain(e: Editor, t: Transport, t2: Transport)
    ensures HandleSubmit(e, t).request.Some? && HandleSubmit(e, t).navigateTo.None? && !NullRejection(t) ==>
              HandleSubmit(HandleSubmit(e, t).editor, t2).request.Some?
  {
  }

  /** A `null` rejection locks the form: it stays in the submitting state and
      no later submit sends anything, however the retry would be answered. */
  lemma NullRejectionLocksForm(e: Editor, t: Transport, t2: Transport)
    ensures HandleSubmit(e, t).request.Some? && NullRejection(t) ==>
              && HandleSubmit(e, t).editor.isSubmitting
              && HandleSubmit(HandleSubmit(e, t).editor, t2) == SubmitStep(HandleSubmit(e, t).editor, None, None)
  {
  }

  /** handleSubmit with a catch block that cannot throw (`error?.message`):
      every failed save re-enables the form. It agrees with `HandleSubmit`
      on every other outcome. */
  function HandleSubmitFixed(e: Editor, t: Transport): (s: SubmitStep)
    ensures s.request == HandleSubmit(e, t).request && s.navigateTo == HandleSubmit(e, t).navigateTo
    ensures !NullRejection(t) ==> s == HandleSubmit(e, t)
    ensures s.request.Some? && s.navigateTo.None? ==>
              s.editor == e.(errors := s.editor.errors, isSubmitting := false, submitSuccess := false)
  {
    var s := HandleSubmit(e, t);
    if s.request.Some? && s.navigateTo.None? then
      s.(editor := s.editor.(isSubmitting := false))
    else
      s
  }

  /** With the fixed catch block, any failed save can be retried. */
  lemma RetryAfterAnyFailureSendsAgain(e: Editor, t: Transport, t2: Transport)
    ensures HandleSubmitFixed(e, t).request.Some? && HandleSubmitFixed(e, t).navigateTo.None? ==>
              HandleSubmitFixed(HandleSubmitFixed(e, t).editor, t2).request.Some?
  {
  }
}
