/** End-to-end walks through the editor and the list page together. */
module Scenarios {
  import opened Values
  import opened Text
  import opened CompanyService
  import opened CompanyEditor
  import opened CompanyList

  /** Editing a row from the list opens the editor on exactly that row. */
  lemma EditSeedsDraft(c: Record, routeId: Option<string>)
    ensures Init(routeId, HandleEdit(c).seed).company == c
  {
  }

  /** The create form filled in for "Acme Pvt Ltd" with one complete
      document slot. */
  function AcmeForm(): Editor {
    var e := Init(None, None);
    var e := HandleChange(e, "company_name", "Acme Pvt Ltd");
    var e := HandleChange(e, "pan_number", "ABCDE1234F");
    var e := HandleChange(e, "mca_reg_details", "MCA123456789");
    var e := HandleChange(e, "address", "12 MG Road");
    var docs := HandleDocChange(e.documents, 0, SetName("Invoice"));
    e.(documents := HandleDocChange(docs, 0, SetFile(true)))
  }

  lemma AcmeFormFields()
    ensures var f := AcmeForm();
            && !f.isSubmitting && !IsEditMode(f.routeId)
            && Get(f.company, "company_name") == Some("Acme Pvt Ltd")
            && Get(f.company, "pan_number") == Some("ABCDE1234F")
            && Get(f.company, "mca_reg_details") == Some("MCA123456789")
            && Get(f.company, "address") == Some("12 MG Road")
            && f.documents == [DocSlot("Invoice", true)]
  {
  }

  lemma AcmeFormSubmittable()
    ensures Submittable(AcmeForm().company, AcmeForm().documents)
  {
    var f := AcmeForm();
    AcmeFormFields();
    assert !IsSpace(f.company["company_name"][0]);
    assert !IsSpace(f.company["address"][0]);
    assert !IsSpace(f.documents[0].name[0]);
    assert !PartialSlot(f.documents[0]);
  }

  /** The search "acme" finds a record named "Acme Pvt Ltd". */
  lemma AcmeMatches(c: Record)
    requires Get(c, "company_name") == Some("Acme Pvt Ltd")
    ensures Matches(c, "acme")
  {
    assert Lower("acme") == "acme";
    assert Lower("Acme Pvt Ltd")[..4] == "acme";
    assert "acme" <= Lower("Acme Pvt Ltd");
  }

  /** Saving the Acme form sends one POST with its editable fields, keeps
      the server's identifier and name in the draft, and returns to the list. */
  lemma AcmeIsSaved(serverId: string)
    ensures var answer := RequestBody(AcmeForm().company)["company_id" := serverId];
            var step := HandleSubmit(AcmeForm(), Responded(ObjectBody(answer)));
            && step.request == Some(CreateRequest(AcmeForm().company))
            && step.navigateTo == Some(ListPath)
            && Get(step.editor.company, "company_id") == Some(serverId)
            && Get(step.editor.company, "company_name") == Some("Acme Pvt Ltd")
  {
    AcmeFormFields();
    AcmeFormSubmittable();
    var answer := RequestBody(AcmeForm().company)["company_id" := serverId];
    assert Get(answer, "company_name") == Some("Acme Pvt Ltd");
  }

  /** A reloaded list holding a record named "Acme Pvt Ltd" shows it under
      the search "acme". */
  lemma AcmeFoundAfterReload(c: Record)
    requires Get(c, "company_name") == Some("Acme Pvt Ltd")
    ensures FilterCompanies(LoadCompanies(InitialView(), Responded(ArrayBody([c]))).companies, "acme") == [c]
  {
    AcmeMatches(c);
    assert FilterCompanies([c], "acme") == [c] + FilterCompanies([], "acme");
  }

  /** Saving the Acme form creates it: one POST with its editable fields,
      the server's identifier kept in the draft, a return to the list, and
      the refetched list showing it under the search "acme". */
  lemma AcmeIsCreatedAndFound(serverId: string)
    ensures var answer := RequestBody(AcmeForm().company)["company_id" := serverId];
            var step := HandleSubmit(AcmeForm(), Responded(ObjectBody(answer)));
            && step.request == Some(CreateRequest(AcmeForm().company))
            && step.navigateTo == Some(ListPath)
            && Get(step.editor.company, "company_id") == Some(serverId)
            && FilterCompanies(LoadCompanies(InitialView(), Responded(ArrayBody([step.editor.company]))).companies, "acme")
               == [step.editor.company]
  {
    AcmeIsSaved(serverId);
    var answer := RequestBody(AcmeForm().company)["company_id" := serverId];
    AcmeFoundAfterReload(HandleSubmit(AcmeForm(), Responded(ObjectBody(answer))).editor.company);
  }

  /** The Acme form rejected by the server with a `null` error body: the
      code as written leaves the form locked, so a retry sends nothing; with
      the fixed catch block the retry sends the POST again. */
  lemma AcmeNullRejectionLocks(m: string, t2: Transport)
    ensures var t := TransportFailed(HttpError(Some(NullBody), true, m));
            var step := HandleSubmit(AcmeForm(), t);
            && step.request == Some(CreateRequest(AcmeForm().company))
            && step.editor.isSubmitting
            && HandleSubmit(step.editor, t2).request.None?
            && HandleSubmitFixed(HandleSubmitFixed(AcmeForm(), t).editor, t2).request
               == Some(CreateRequest(AcmeForm().company))
  {
    AcmeFormFields();
    AcmeFormSubmittable();
  }

  /** Saving a form whose address is empty sends nothing, flags the
      address, and keeps the draft as typed. */
  lemma EmptyAddressIsRejected(t: Transport)
    ensures var e := HandleChange(AcmeForm(), "address", "");
            var step := HandleSubmit(e, t);
            && step.request.None?
            && ErrorSet(step.editor.errors, "address")
            && step.editor.company == e.company
  {
    AcmeFormFields();
    var e := HandleChange(AcmeForm(), "address", "");
    assert e.company["address"] == "";
    assert AllSpace(e.company["address"]);
  }
}
