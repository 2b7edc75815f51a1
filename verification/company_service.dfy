/** The registry client (src/utils/companyService.js): it turns the five
    logical operations into HTTP requests, shapes their bodies and results,
    and folds every transport failure into one error value. The transport
    itself is not modelled: each operation receives the outcome of its HTTP
    call as a `Transport` value and returns what the JavaScript function
    resolves to (`Ok`) or rejects with (`Err`). */
module CompanyService {
  import opened Values

  const CollectionPath := "/api/companies"

  /** The six fields a user can edit, the only ones ever sent. */
  const EditableKeys: set<string> :=
    {"company_name", "pan_number", "gst_number", "mca_reg_details", "address", "notes"}

  /** The nine fields of a company record as the client keeps it. */
  const RecordKeys: set<string> := EditableKeys + {"company_id", "created_at", "updated_at"}

  const NoResponseMessage := "No response received from server"
  const SetupMessage := "Error setting up request"

  datatype Verb = GET | POST | PUT | DELETE

  /** An HTTP request as the client issues it; `body` is the JSON payload. */
  datatype Request = Request(verb: Verb, path: string, body: Option<Record>)

  /** What the HTTP library reports when a call fails: the response when the
      server answered with an error status, whether the request went out at
      all, and the library's own message. */
  datatype HttpError = HttpError(response: Option<Body>, requestSent: bool, message: string)

  /** The outcome of one HTTP call: a 2xx response body, or a failure. */
  datatype Transport = Responded(data: Body) | TransportFailed(error: HttpError)

  /** What a rejected service call carries: the server's error body rethrown
      as is, an `Error` with a message, or the `TypeError` raised by reading a
      property of `null`. */
  datatype Failure = Rethrown(data: Body) | ErrorMessage(message: string) | TypeFault

  datatype Result<+T> = Ok(value: T) | Err(failure: Failure)

  function ItemPath(id: string): string {
    CollectionPath + "/" + id
  }

  /** The response interceptor: a server answer is rethrown as its body; a
      request without an answer and a request that never went out become
      errors with fixed messages. The library's message never gets through. */
  function Classify(e: HttpError): (f: Failure)
    ensures f.Rethrown? <==> e.response.Some?
    ensures f.Rethrown? ==> f.data == e.response.value
    ensures f.ErrorMessage? <==> e.response.None?
    ensures f.ErrorMessage? ==> (f.message == NoResponseMessage <==> e.requestSent)
    ensures f.ErrorMessage? ==> (f.message == SetupMessage <==> !e.requestSent)
  {
    if e.response.Some? then Rethrown(e.response.value)
    else if e.requestSent then ErrorMessage(NoResponseMessage)
    else ErrorMessage(SetupMessage)
  }

  /** Two failures that differ only in the library's message are reported
      identically. */
  lemma ClassifyIgnoresLibraryMessage(e1: HttpError, e2: HttpError)
    requires e1.response == e2.response && e1.requestSent == e2.requestSent
    ensures Classify(e1) == Classify(e2)
  {
  }

  /** Reading properties off a response body: an object exposes its fields,
      an array or a string has none of the record's properties, and `null`
      raises a `TypeError`. */
  function Properties(b: Body): (r: Result<Record>)
    ensures r.Err? <==> b.NullBody?
    ensures r.Err? ==> r.failure == TypeFault
    ensures b.ObjectBody? ==> r == Ok(b.fields)
    ensures b.ArrayBody? || b.TextBody? ==> r == Ok(map[])
  {
    match b
    case ObjectBody(fields) => Ok(fields)
    case ArrayBody(_) => Ok(map[])
    case TextBody(_) => Ok(map[])
    case NullBody => Err(TypeFault)
  }

  /** The payload of a create or update request: the draft's editable fields
      and nothing else, so no identifier, timestamp or form-only state. */
  function RequestBody(draft: Record): (b: Record)
    ensures b.Keys <= EditableKeys
    ensures forall k :: k in EditableKeys ==> Get(b, k) == Get(draft, k)
  {
    Pick(draft, EditableKeys)
  }

  /** The payload depends on the editable fields of the draft only. */
  lemma RequestBodyDependsOnlyOnEditable(d1: Record, d2: Record)
    requires forall k :: k in EditableKeys ==> Get(d1, k) == Get(d2, k)
    ensures RequestBody(d1) == RequestBody(d2)
  {
    var b1, b2 := RequestBody(d1), RequestBody(d2);
    forall k | k in EditableKeys
      ensures k in b1 <==> k in b2
    {
      assert Get(b1, k) == Get(d1, k) == Get(d2, k) == Get(b2, k);
    }
    assert b1.Keys == b2.Keys;
    forall k | k in b1
      ensures b1[k] == b2[k]
    {
      assert Get(b1, k) == Get(b2, k);
    }
  }

  /** The nine-field record the client keeps of a server answer. */
  function ProjectRecord(r: Record): (p: Record)
    ensures p.Keys <= RecordKeys
    ensures forall k :: k in RecordKeys ==> Get(p, k) == Get(r, k)
  {
    Pick(r, RecordKeys)
  }

  /** Projecting a projected record changes nothing, and sending a projected
      record back sends the same fields as sending the original. */
  lemma ProjectRecordStable(r: Record)
    ensures ProjectRecord(ProjectRecord(r)) == ProjectRecord(r)
    ensures RequestBody(ProjectRecord(r)) == RequestBody(r)
  {
    PickTwice(r, RecordKeys, RecordKeys);
    PickTwice(r, EditableKeys, RecordKeys);
  }

  function ListRequest(): Request {
    Request(GET, CollectionPath, None)
  }

  function CreateRequest(draft: Record): Request {
    Request(POST, CollectionPath, Some(RequestBody(draft)))
  }

  function UpdateRequest(id: string, draft: Record): Request {
    Request(PUT, ItemPath(id), Some(RequestBody(draft)))
  }

  function DeleteRequest(id: string): Request {
    Request(DELETE, ItemPath(id), None)
  }

  /** getCompanies: the list, or `[]` when the body is not an array. */
  function GetCompanies(t: Transport): (r: Result<seq<Record>>)
    ensures r.Ok? <==> t.Responded?
    ensures r.Ok? && t.data.ArrayBody? ==> r.value == t.data.items
    ensures r.Ok? && !t.data.ArrayBody? ==> r.value == []
    ensures r.Err? ==> r.failure == Classify(t.error)
  {
    match t
    case TransportFailed(e) => Err(Classify(e))
    case Responded(ArrayBody(items)) => Ok(items)
    case Responded(_) => Ok([])
  }

  /** createCompany: the nine-field projection of the server's answer; a
      `null` answer rejects with the `TypeError` of reading its fields. */
  function CreateCompany(t: Transport): (r: Result<Record>)
    ensures t.TransportFailed? ==> r == Err(Classify(t.error))
    ensures t.Responded? ==> (r.Err? <==> t.data.NullBody?)
    ensures r.Ok? ==> r.value.Keys <= RecordKeys
    ensures r.Ok? && t.data.ObjectBody? ==>
              forall k :: k in RecordKeys ==> Get(r.value, k) == Get(t.data.fields, k)
    ensures r.Ok? && !t.data.ObjectBody? ==> r.value == map[]
  {
    match t
    case TransportFailed(e) => Err(Classify(e))
    case Responded(b) =>
      match Properties(b)
      case Ok(fields) => Ok(ProjectRecord(fields))
      case Err(f) => Err(f)
  }

  /** updateCompany: the server's answer, whatever its shape. */
  function UpdateCompany(t: Transport): (r: Result<Body>)
    ensures r.Ok? <==> t.Responded?
    ensures r.Ok? ==> r.value == t.data
    ensures r.Err? ==> r.failure == Classify(t.error)
  {
    match t
    case TransportFailed(e) => Err(Classify(e))
    case Responded(b) => Ok(b)
  }

  /** deleteCompany: `true` on any 2xx answer; the body is ignored. */
  function DeleteCompany(t: Transport): (r: Result<bool>)
    ensures r.Ok? <==> t.Responded?
    ensures r.Ok? ==> r.value
    ensures r.Err? ==> r.failure == Classify(t.error)
  {
    match t
    case TransportFailed(e) => Err(Classify(e))
    case Responded(_) => Ok(true)
  }

  /** No operation swallows a transport failure: each rejects with the
      interceptor's classification of it. */
  lemma FailuresPropagate(t: Transport)
    requires t.TransportFailed?
    ensures GetCompanies(t) == Err(Classify(t.error))
    ensures CreateCompany(t) == Err(Classify(t.error))
    ensures UpdateCompany(t) == Err(Classify(t.error))
    ensures DeleteCompany(t) == Err(Classify(t.error))
  {
  }
}
