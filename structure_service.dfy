/**
 * The request `getPageable` of the structure service sends: the endpoint
 * (the base path, or its `/search` variant for a text search) and the query
 * parameters in the order they are added.
 */
module StructureService {
  import opened Js

  const BaseUrl := "/common/administration/structure"

  /** The caller's optional paging, sorting and filtering arguments. */
  datatype PageableParams = PageableParams(
    page: Option<int>, size: Option<int>, sort: Option<string>,
    search: Option<string>, structureTypeId: Option<int>)

  /**
   * The query parameters. Their order on the wire is fixed: page, size,
   * sort, then `structureTypeId` and `q` when present.
   */
  datatype Query = Query(page: int, size: int, sort: string, structureTypeId: Option<int>, q: Option<string>)

  datatype Request = Request(endpoint: string, query: Query)

  /** `n || fallback` on an optional number. */
  function NumberOr(n: Option<int>, fallback: int): (r: int)
    ensures n.Some? && n.value != 0 ==> r == n.value
    ensures n.None? || n.value == 0 ==> r == fallback
  {
    if n.Some? && n.value != 0 then n.value else fallback
  }

  /**
   * The search text the request carries: `search && search.trim()`, the
   * trimmed search when that is not empty (an empty search trims to empty).
   */
  function SearchQuery(search: Option<string>): (r: Option<string>)
    ensures search.None? ==> r.None?
    ensures r.Some? ==> r.value != "" && !IsWhite(r.value[0]) && !IsWhite(r.value[|r.value| - 1])
  {
    if search.Some? && Trim(search.value) != "" then Some(Trim(search.value)) else None
  }

  /** The request `getPageable` sends for its arguments. */
  function RequestFor(params: PageableParams): (r: Request)
    ensures r.endpoint == BaseUrl + "/search" <==> r.query.q.Some?
    ensures r.query.size != 0 && r.query.sort != ""
    ensures r.query.structureTypeId != Some(0)
  {
    var q := SearchQuery(params.search);
    assert BaseUrl + "/search" != BaseUrl by {
      assert |BaseUrl + "/search"| != |BaseUrl|;
    }
    Request(
      if q.Some? then BaseUrl + "/search" else BaseUrl,
      Query(
        NumberOr(params.page, 0),
        NumberOr(params.size, 25),
        if Present(params.sort) then params.sort.value else "code,asc",
        if params.structureTypeId.Some? && params.structureTypeId.value != 0 then params.structureTypeId else None,
        q))
  }

  /**
   * `getPageable(params)` up to the HTTP call: page 0, size 25 and sort
   * `code,asc` unless given (a zero page or size counts as not given), the
   * type filter only when its id is truthy, and the `/search` endpoint with
   * `q` set to the trimmed text exactly when that text is not empty.
   */
  method GetPageable(params: PageableParams) returns (r: Request)
    ensures r == RequestFor(params)
    ensures r.query.page == (if params.page.Some? then params.page.value else 0)
    ensures r.query.size == (if params.size.Some? && params.size.value != 0 then params.size.value else 25)
    ensures r.query.sort == (if params.sort.Some? && params.sort.value != "" then params.sort.value else "code,asc")
    ensures r.query.structureTypeId.Some? <==> params.structureTypeId.Some? && params.structureTypeId.value != 0
    ensures r.query.structureTypeId.Some? ==> r.query.structureTypeId == params.structureTypeId
    ensures r.endpoint == BaseUrl + "/search" <==> r.query.q.Some?
    ensures r.query.q.Some? <==> params.search.Some? && Trim(params.search.value) != ""
    ensures r.query.q.Some? ==> r.query.q.value == Trim(params.search.value)
  {
    var query := Query(
      NumberOr(params.page, 0),
      NumberOr(params.size, 25),
      if Present(params.sort) then params.sort.value else "code,asc",
      None, None);
    if params.structureTypeId.Some? && params.structureTypeId.value != 0 {
      query := query.(structureTypeId := params.structureTypeId);
    }
    var endpoint := if params.search.Some? && Trim(params.search.value) != "" then BaseUrl + "/search" else BaseUrl;
    if params.search.Some? && Trim(params.search.value) != "" {
      query := query.(q := Some(Trim(params.search.value)));
    }
    r := Request(endpoint, query);
    assert BaseUrl + "/search" != BaseUrl by {
      assert |BaseUrl + "/search"| != |BaseUrl|;
    }
  }

  /** A search of white space only sends the same request as no search at all. */
  lemma BlankSearchIsNoSearch(params: PageableParams, blank: string)
    requires forall k :: 0 <= k < |blank| ==> IsWhite(blank[k])
    ensures RequestFor(params.(search := Some(blank))) == RequestFor(params.(search := None))
  {
    TrimEmptyIffAllWhite(blank);
  }

  /** The ideographic space and the line separator are white space too: such a search is no search. */
  lemma UnicodeBlankSearchIsNoSearch(params: PageableParams)
    ensures RequestFor(params.(search := Some("\U{3000}\U{2028}"))) == RequestFor(params.(search := None))
  {
    BlankSearchIsNoSearch(params, "\U{3000}\U{2028}");
  }

  /** A structure type id of 0 is dropped like a missing one. */
  lemma ZeroTypeIdIsDropped(params: PageableParams)
    ensures RequestFor(params.(structureTypeId := Some(0))) == RequestFor(params.(structureTypeId := None))
  {
  }

  /** A search surrounded by white space sends the same request as its trimmed text. */
  lemma SearchIsTrimmed(params: PageableParams, search: string)
    ensures RequestFor(params.(search := Some(search))) == RequestFor(params.(search := Some(Trim(search))))
  {
    SearchQueryTrimmed(search);
    SameQuerySameRequest(params.(search := Some(search)), params.(search := Some(Trim(search))));
  }

  /** Two argument sets that differ only in a search with the same trimmed form send the same request. */
  lemma SameQuerySameRequest(p: PageableParams, p': PageableParams)
    requires p.(search := None) == p'.(search := None)
    requires SearchQuery(p.search) == SearchQuery(p'.search)
    ensures RequestFor(p) == RequestFor(p')
  {
    assert p.page == p'.page && p.size == p'.size && p.sort == p'.sort && p.structureTypeId == p'.structureTypeId;
  }

  lemma SearchQueryTrimmed(search: string)
    ensures SearchQuery(Some(search)) == SearchQuery(Some(Trim(search)))
  {
    TrimIdempotent(search);
  }
}
