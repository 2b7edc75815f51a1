/** The list, search and detail page (src/components/Company/ViewCompanyPage.jsx):
    the fetched companies, a client-side search filter, a single selected
    company shown in a detail panel, and the delete sequence. The answers of
    the HTTP calls and of the confirmation dialog are parameters. */
module CompanyList {
  import opened Values
  import opened Text
  import opened CompanyService

  datatype ListView = ListView(
    companies: seq<Record>,
    loading: bool,
    searchTerm: string,
    selected: Option<Record>)

  /** The state on mount: nothing fetched yet, the spinner showing. */
  function InitialView(): (v: ListView)
    ensures v.companies == [] && v.loading && v.searchTerm == "" && v.selected.None?
  {
    ListView([], true, "", None)
  }

  // ---------------------------------------------------------------------
  // Loading

  /** loadCompanies: the spinner always stops; the list becomes what
      getCompanies resolved to, or empty when it rejected. */
  function LoadCompanies(v: ListView, t: Transport): (v': ListView)
    ensures !v'.loading
    ensures GetCompanies(t).Ok? ==> v'.companies == GetCompanies(t).value
    ensures GetCompanies(t).Err? ==> v'.companies == []
    ensures t.Responded? && t.data.ArrayBody? ==> v'.companies == t.data.items
    ensures t.Responded? && !t.data.ArrayBody? ==> v'.companies == []
    ensures v'.searchTerm == v.searchTerm && v'.selected == v.selected
  {
    match GetCompanies(t)
    case Ok(data) => v.(companies := data, loading := false)
    case Err(_) => v.(companies := [], loading := false)
  }

  /** Only the last load counts: a reload replaces whatever an earlier load
      left, without merging. */
  lemma LastLoadWins(v: ListView, t1: Transport, t2: Transport)
    ensures LoadCompanies(LoadCompanies(v, t1), t2) == LoadCompanies(v, t2)
  {
  }

  // ---------------------------------------------------------------------
  // Search

  /** `company[key]?.toLowerCase().includes(term.toLowerCase())`: a missing
      property never matches. */
  predicate FieldMatches(c: Record, key: string, term: string) {
    key in c && Contains(Lower(c[key]), Lower(term))
  }

  /** The filter callback: the term occurs, ignoring case, in the name, the
      PAN or the GST number. */
  predicate Matches(c: Record, term: string) {
    FieldMatches(c, "company_name", term)
    || FieldMatches(c, "pan_number", term)
    || FieldMatches(c, "gst_number", term)
  }

  /** filteredCompanies: the companies that match, in their original order. */
  function FilterCompanies(cs: seq<Record>, term: string): (r: seq<Record>)
    ensures |r| <= |cs|
    ensures forall c :: c in r <==> c in cs && Matches(c, term)
    ensures forall c :: multiset(r)[c] == if Matches(c, term) then multiset(cs)[c] else 0
  {
    if cs == [] then []
    else
      var rest := FilterCompanies(cs[1..], term);
      assert multiset(cs) == multiset{cs[0]} + multiset(cs[1..]) by {
        assert cs == [cs[0]] + cs[1..];
      }
      if Matches(cs[0], term) then [cs[0]] + rest else rest
  }

  /** `sub` is `s` with some elements left out, the rest kept in order. */
  predicate IsSubsequence<T(==)>(sub: seq<T>, s: seq<T>)
    decreases |s|
  {
    if sub == [] then true
    else if s == [] then false
    else if sub[0] == s[0] then IsSubsequence(sub[1..], s[1..])
    else IsSubsequence(sub, s[1..])
  }

  lemma {:induction false} IsSubsequenceLength<T>(sub: seq<T>, s: seq<T>)
    requires IsSubsequence(sub, s)
    ensures |sub| <= |s|
    decreases |s|
  {
    if sub != [] && s != [] {
      if sub[0] == s[0] {
        IsSubsequenceLength(sub[1..], s[1..]);
      } else {
        IsSubsequenceLength(sub, s[1..]);
      }
    }
  }

  /** The filtered list keeps the order of the fetched list. */
  lemma {:induction false} FilterIsSubsequence(cs: seq<Record>, term: string)
    ensures IsSubsequence(FilterCompanies(cs, term), cs)
    decreases |cs|
  {
    if cs != [] {
      FilterIsSubsequence(cs[1..], term);
      if !Matches(cs[0], term) {
        Prepend(cs[0], FilterCompanies(cs[1..], term), cs[1..]);
        assert [cs[0]] + cs[1..] == cs;
      }
    }
  }

  /** Filtering twice with the same term is filtering once. */
  lemma {:induction false} FilterIdempotent(cs: seq<Record>, term: string)
    ensures FilterCompanies(FilterCompanies(cs, term), term) == FilterCompanies(cs, term)
    decreases |cs|
  {
    if cs != [] {
      FilterIdempotent(cs[1..], term);
      if Matches(cs[0], term) {
        assert ([cs[0]] + FilterCompanies(cs[1..], term))[1..] == FilterCompanies(cs[1..], term);
      }
    }
  }

  /** Case is ignored in the term. */
  lemma FilterIgnoresTermCase(cs: seq<Record>, t1: string, t2: string)
    requires Lower(t1) == Lower(t2)
    ensures FilterCompanies(cs, t1) == FilterCompanies(cs, t2)
  {
    assert forall c :: Matches(c, t1) == Matches(c, t2);
    FilterSameWhenMatchesAgree(cs, t1, t2);
  }

  lemma {:induction false} FilterSameWhenMatchesAgree(cs: seq<Record>, t1: string, t2: string)
    requires forall c :: Matches(c, t1) == Matches(c, t2)
    ensures FilterCompanies(cs, t1) == FilterCompanies(cs, t2)
    decreases |cs|
  {
    if cs != [] {
      FilterSameWhenMatchesAgree(cs[1..], t1, t2);
    }
  }

  /** The empty term matches a company exactly when it has at least one of
      the three searched properties, even an empty one. */
  lemma EmptyTermMatchesPresentFields(c: Record)
    ensures Matches(c, "") <==> "company_name" in c || "pan_number" in c || "gst_number" in c
  {
    assert Lower("") == "";
    if "company_name" in c { ContainsEmpty(Lower(c["company_name"])); }
    if "pan_number" in c { ContainsEmpty(Lower(c["pan_number"])); }
    if "gst_number" in c { ContainsEmpty(Lower(c["gst_number"])); }
  }

  /** So with the empty term the whole list shows exactly when every company
      has one of the searched properties. */
  lemma {:induction false} EmptyTermKeepsAll(cs: seq<Record>)
    ensures FilterCompanies(cs, "") == cs
            <==> forall i :: 0 <= i < |cs| ==> ("company_name" in cs[i] || "pan_number" in cs[i] || "gst_number" in cs[i])
    decreases |cs|
  {
    if cs != [] {
      EmptyTermKeepsAll(cs[1..]);
      EmptyTermMatchesPresentFields(cs[0]);
      if !Matches(cs[0], "") {
        FilterIsSubsequence(cs[1..], "");
        IsSubsequenceLength(FilterCompanies(cs[1..], ""), cs[1..]);
        assert |FilterCompanies(cs, "")| < |cs|;
      } else {
        EmptyTermKeepsFirst(cs);
      }
    }
  }

  lemma EmptyTermKeepsFirst(cs: seq<Record>)
    requires cs != [] && Matches(cs[0], "")
    ensures FilterCompanies(cs, "") == cs <==> FilterCompanies(cs[1..], "") == cs[1..]
  {
    assert FilterCompanies(cs, "") == [cs[0]] + FilterCompanies(cs[1..], "");
    assert cs == [cs[0]] + cs[1..];
  }

  /** Typing more narrows the list: when the new term contains the old one
      (ignoring case), every company still shown was shown before, in the
      same order. */
  lemma {:induction false} LongerTermNarrows(cs: seq<Record>, shorter: string, longer: string)
    requires Contains(Lower(longer), Lower(shorter))
    ensures IsSubsequence(FilterCompanies(cs, longer), FilterCompanies(cs, shorter))
    decreases |cs|
  {
    if cs != [] {
      LongerTermNarrows(cs[1..], shorter, longer);
      var c := cs[0];
      if Matches(c, longer) {
        forall key | key in c && Contains(Lower(c[key]), Lower(longer))
          ensures Contains(Lower(c[key]), Lower(shorter))
        {
          ContainsTransitive(Lower(c[key]), Lower(longer), Lower(shorter));
        }
        assert Matches(c, shorter);
      } else {
        var r := FilterCompanies(cs[1..], longer);
        if Matches(c, shorter) {
          Prepend(c, r, FilterCompanies(cs[1..], shorter));
        }
      }
    }
  }

  // ---------------------------------------------------------------------
  // Selection and navigation

  /** The detail panel replaces the table while a company is selected. */
  predicate ShowsDetail(v: ListView) {
    v.selected.Some?
  }

  /** handleView: select a snapshot of the row; nothing else changes. */
  function HandleView(v: ListView, c: Record): (v': ListView)
    ensures ShowsDetail(v') && v'.selected == Some(c)
    ensures v'.(selected := v.selected) == v
  {
    v.(selected := Some(c))
  }

  /** The detail panel's close action: back to the table, no refetch. */
  function CloseDetail(v: ListView): (v': ListView)
    ensures !ShowsDetail(v')
    ensures v'.(selected := v.selected) == v
  {
    v.(selected := None)
  }

  /** Opening a row and closing it again returns to the very same table;
      the selection is a snapshot that a reload does not touch. */
  lemma ViewThenClose(v: ListView, c: Record, t: Transport)
    requires !ShowsDetail(v)
    ensures CloseDetail(HandleView(v, c)) == v
    ensures LoadCompanies(HandleView(v, c), t).selected == Some(c)
  {
  }

  const EditPathPrefix := "/edit-company/"

  /** A navigation: the route and the company carried in its state. */
  datatype Navigation = Navigation(path: string, seed: Option<Record>)

  /** Template-literal text of an optional property (`undefined` when it is
      missing). */
  function Interpolate(v: Option<string>): string {
    match v
    case Some(s) => s
    case None => "undefined"
  }

  /** handleEdit: open the editor on the row's identifier, carrying the row
      itself as the editor's seed. */
  function HandleEdit(c: Record): (n: Navigation)
    ensures n.seed == Some(c)
    ensures |n.path| >= |EditPathPrefix| && n.path[..|EditPathPrefix|] == EditPathPrefix
    ensures "company_id" in c ==> n.path == EditPathPrefix + c["company_id"]
    ensures "company_id" !in c ==> n.path == EditPathPrefix + "undefined"
  {
    Navigation(EditPathPrefix + Interpolate(Get(c, "company_id")), Some(c))
  }

  // ---------------------------------------------------------------------
  // Delete

  /** The identifier a row's delete button passes: `company.id ||
      company.company_id`. */
  function DeleteKey(c: Record): (k: Option<string>)
    ensures Truthy(k) <==> Truthy(Get(c, "id")) || Truthy(Get(c, "company_id"))
    ensures Truthy(Get(c, "id")) ==> k == Get(c, "id")
    ensures !Truthy(Get(c, "id")) ==> k == Get(c, "company_id")
  {
    OrElse(Get(c, "id"), Get(c, "company_id"))
  }

  /** The row's delete button is disabled when it has neither identifier. */
  predicate DeleteDisabled(c: Record) {
    !Truthy(Get(c, "id")) && !Truthy(Get(c, "company_id"))
  }

  /** The button is disabled exactly when the key it would pass is falsy, so
      an enabled button never hits the handler's missing-id guard. */
  lemma DeleteDisabledIffNoKey(c: Record)
    ensures DeleteDisabled(c) <==> !Truthy(DeleteKey(c))
  {
  }

  /** The result of one delete attempt: the next state, whether the
      confirmation dialog was shown, and the requests sent, in order. */
  datatype DeleteStep = DeleteStep(view: ListView, confirmAsked: bool, requests: seq<Request>)

  /** handleDelete. A falsy id stops before the dialog; a declined dialog
      stops before any request. A confirmed delete is followed by one
      refetch whose list replaces the table; if the delete fails nothing is
      refetched, and if either call fails the table keeps its rows. */
  function HandleDelete(v: ListView, id: Option<string>, confirmed: bool, deleted: Transport, refetched: Transport)
    : (s: DeleteStep)
    ensures !Truthy(id) ==> s == DeleteStep(v, false, [])
    ensures Truthy(id) ==> s.confirmAsked
    ensures !confirmed ==> s.view == v && s.requests == []
    ensures Truthy(id) && confirmed ==> 1 <= |s.requests| <= 2 && s.requests[0] == DeleteRequest(id.value)
    ensures |s.requests| == 2 <==> Truthy(id) && confirmed && deleted.Responded?
    ensures |s.requests| == 2 ==> s.requests[1] == ListRequest()
    ensures s.view != v ==> |s.requests| == 2 && refetched.Responded?
    ensures |s.requests| == 2 && refetched.Responded? ==> s.view == v.(companies := GetCompanies(refetched).value)
    ensures s.view.loading == v.loading && s.view.searchTerm == v.searchTerm && s.view.selected == v.selected
  {
    if !Truthy(id) then
      DeleteStep(v, false, [])
    else if !confirmed then
      DeleteStep(v, true, [])
    else
      match DeleteCompany(deleted)
      case Err(_) => DeleteStep(v, true, [DeleteRequest(id.value)])
      case Ok(_) =>
        var requests := [DeleteRequest(id.value), ListRequest()];
        match GetCompanies(refetched)
        case Ok(updated) => DeleteStep(v.(companies := updated), true, requests)
        case Err(_) => DeleteStep(v, true, requests)
  }

  /** A successful delete followed by a successful refetch leaves the table
      exactly as a fresh load of that refetch would. */
  lemma DeleteThenRefetchIsLoad(v: ListView, id: Option<string>, deleted: Transport, refetched: Transport)
    ensures var s := HandleDelete(v, id, true, deleted, refetched);
            Truthy(id) && deleted.Responded? && refetched.Responded? ==>
              s.view.companies == LoadCompanies(v, refetched).companies
  {
  }

  /** A row whose delete button is enabled always reaches the confirmation
      dialog, and a confirmed delete targets that row's key. */
  lemma EnabledRowReachesDialog(v: ListView, c: Record, confirmed: bool, deleted: Transport, refetched: Transport)
    ensures var s := HandleDelete(v, DeleteKey(c), confirmed, deleted, refetched);
            && (!DeleteDisabled(c) ==> s.confirmAsked)
            && (!DeleteDisabled(c) && confirmed ==> s.requests[0] == DeleteRequest(DeleteKey(c).value))
            && (DeleteDisabled(c) ==> s == DeleteStep(v, false, []))
  {
    DeleteDisabledIffNoKey(c);
  }

  /** Putting one element in front of a sequence keeps every subsequence
      of it a subsequence. */
  lemma {:induction false} Prepend<T>(x: T, sub: seq<T>, t: seq<T>)
    requires IsSubsequence(sub, t)
    ensures IsSubsequence(sub, [x] + t)
    decreases |t|, 1
  {
    assert ([x] + t)[1..] == t;
    if sub != [] && sub[0] == x {
      DropFirst(sub, t);
    }
  }

  /** Dropping the first element of a subsequence keeps it a subsequence. */
  lemma {:induction false} DropFirst<T>(sub: seq<T>, t: seq<T>)
    requires sub != [] && IsSubsequence(sub, t)
    ensures IsSubsequence(sub[1..], t)
    decreases |t|, 0
  {
    assert t != [];
    assert [t[0]] + t[1..] == t;
    if sub[0] != t[0] {
      DropFirst(sub, t[1..]);
    }
    Prepend(t[0], sub[1..], t[1..]);
  }
}
