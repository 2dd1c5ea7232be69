/**
 * The mail list page: the normalisation of the mail response into a row list
 * and a total row count, the index ids given to rows without one, and the
 * filter by search text, mail nature and mail type.
 */
module MailList {
  import opened Js
  import opened ListOps

  /** A mail nature or mail type embedded in a mail. */
  datatype Ref = Ref(id: Option<int>)

  datatype Mail = Mail(
    id: Option<int>,
    reference: Option<string>, subject: Option<string>, recordNumber: Option<string>,
    mailNatureId: Option<int>, mailNature: Option<Ref>,
    mailTypeId: Option<int>, mailType: Option<Ref>)

  // ---------------------------------------------------------------------------
  // response normalisation

  /** `count || length` for a numeric count: a missing or zero count falls back to the length. */
  function CountOr<T>(count: Json<T>, length: nat): (r: int)
    ensures r == length || (count.Num? && r == count.n && r != 0)
  {
    if count.Num? && count.n != 0 then count.n else length
  }

  /**
   * The mails and the total row count of a response: an array and its length;
   * a page `{content, totalElements}`; `{data: [...], total}`; or
   * `{data: {content, totalElements}}`; anything else gives no rows and 0.
   */
  function Extract(response: Json<Mail>): (r: (seq<Mail>, int))
    ensures response.Arr? ==> r == (response.items, |response.items|)
    ensures !response.Arr? && Get(response, "content").Arr? ==>
      r.0 == Get(response, "content").items
    ensures !response.Arr? && !Get(response, "content").Arr? && !Truthy(Get(response, "data")) ==> r == ([], 0)
    // the rows are one of the response's arrays, or empty with a zero total
    ensures || r == ([], 0)
            || response == Arr(r.0)
            || Get(response, "content") == Arr(r.0)
            || Get(response, "data") == Arr(r.0)
            || Get(Get(response, "data"), "content") == Arr(r.0)
    // without a non-zero `totalElements` or `total`, the total is the number of rows
    ensures (&& (!Get(response, "totalElements").Num? || Get(response, "totalElements").n == 0)
             && (!Get(response, "total").Num? || Get(response, "total").n == 0)
             && (!Get(Get(response, "data"), "totalElements").Num? || Get(Get(response, "data"), "totalElements").n == 0))
            ==> r.1 == |r.0|
  {
    if response.Arr? then (response.items, |response.items|)
    else if Truthy(Get(response, "content")) && Get(response, "content").Arr? then
      var content := Get(response, "content").items;
      (content, CountOr(Get(response, "totalElements"), |content|))
    else if Truthy(Get(response, "data")) then
      var data := Get(response, "data");
      if data.Arr? then (data.items, CountOr(Get(response, "total"), |data.items|))
      else if Truthy(Get(data, "content")) && Get(data, "content").Arr? then
        var content := Get(data, "content").items;
        (content, CountOr(Get(data, "totalElements"), |content|))
      else ([], 0)
    else ([], 0)
  }

  /** The lookup lists: an array, else `data`, else `content`, else nothing; a non-array gives nothing. */
  function LookupRows<T>(response: Json<T>): (r: seq<T>)
    ensures response.Arr? ==> r == response.items
    ensures !response.Arr? && Get(response, "data").Arr? ==> r == Get(response, "data").items
    ensures !response.Arr? && !Truthy(Get(response, "data")) && Get(response, "content").Arr? ==>
      r == Get(response, "content").items
    ensures r == [] || response == Arr(r) || Get(response, "data") == Arr(r) || Get(response, "content") == Arr(r)
  {
    if response.Arr? then response.items
    else
      var picked := Or(Get(response, "data"), Or(Get(response, "content"), Arr([])));
      if picked.Arr? then picked.items else []
  }

  // ---------------------------------------------------------------------------
  // row ids

  /** `mail.id || index`: a missing or zero id is replaced by the row's index. */
  function RowId(mail: Mail, index: nat): (r: int)
    ensures mail.id.Some? && mail.id.value != 0 ==> r == mail.id.value
    ensures (mail.id.None? || mail.id.value == 0) ==> r == index
  {
    if mail.id.Some? && mail.id.value != 0 then mail.id.value else index
  }

  /** `mails.map((mail, index) => ({...mail, id: mail.id || index}))`. */
  function WithIds(mails: seq<Mail>): (r: seq<Mail>)
    ensures |r| == |mails|
    ensures forall i :: 0 <= i < |mails| ==> r[i] == mails[i].(id := Some(RowId(mails[i], i)))
  {
    seq(|mails|, i requires 0 <= i < |mails| => mails[i].(id := Some(RowId(mails[i], i))))
  }

  /** Rows that all carry distinct non-zero ids keep them, so the ids stay distinct. */
  lemma WithIdsKeepsDistinctIds(mails: seq<Mail>)
    requires forall i :: 0 <= i < |mails| ==> mails[i].id.Some? && mails[i].id.value != 0
    requires forall i, j :: 0 <= i < j < |mails| ==> mails[i].id != mails[j].id
    ensures forall i, j :: 0 <= i < j < |mails| ==> WithIds(mails)[i].id != WithIds(mails)[j].id
  {
    var r := WithIds(mails);
    forall i, j | 0 <= i < j < |mails| ensures r[i].id != r[j].id {
      assert r[i].id == mails[i].id && r[j].id == mails[j].id;
    }
  }

  /** When no row has an id, the ids are the row indexes. */
  lemma WithIdsNumbersRows(mails: seq<Mail>)
    requires forall i :: 0 <= i < |mails| ==> mails[i].id.None?
    ensures forall i :: 0 <= i < |mails| ==> WithIds(mails)[i].id == Some(i)
  {
  }

  /** A row without an id gets its index, which can be the id of another row: here both rows get id 1. */
  lemma IndexIdCanCollide(m: Mail)
    requires m.id.None?
    ensures var r := WithIds([m.(id := Some(1)), m]);
      r[0].id == r[1].id == Some(1)
  {
  }

  // ---------------------------------------------------------------------------
  // filtering

  /** `mail.mailNatureId || mail.mailNature?.id` (and the same for the type). */
  function IdToCheck(direct: Option<int>, nested: Option<Ref>): (r: Option<int>)
    ensures direct.Some? && direct.value != 0 ==> r == direct
    ensures (direct.None? || direct.value == 0) ==> r == (if nested.Some? then nested.value.id else None)
  {
    if direct.Some? && direct.value != 0 then direct
    else if nested.Some? then nested.value.id
    else None
  }

  /** `!selected || (id && id.toString() === selected)`. */
  predicate SelectorMatches(selected: string, id: Option<int>) {
    selected == "" || (id.Some? && id.value != 0 && IntToString(id.value) == selected)
  }

  /** `(field && field.toLowerCase().includes(searchLower))`. */
  predicate FieldHit(field: Option<string>, searchLower: string) {
    Present(field) && Includes(ToLower(field.value), searchLower)
  }

  /** An empty search, or a hit in the reference, subject or record number. */
  predicate MatchesSearch(m: Mail, searchText: string) {
    var lower := ToLower(searchText);
    searchText == "" || FieldHit(m.reference, lower) || FieldHit(m.subject, lower) || FieldHit(m.recordNumber, lower)
  }

  /** The search text and the selected nature and type ids (`""` for none). */
  datatype MailFilters = MailFilters(searchText: string, natureId: string, typeId: string)

  const NoMailFilters := MailFilters("", "", "")

  predicate Keeps(f: MailFilters, m: Mail) {
    && MatchesSearch(m, f.searchText)
    && SelectorMatches(f.natureId, IdToCheck(m.mailNatureId, m.mailNature))
    && SelectorMatches(f.typeId, IdToCheck(m.mailTypeId, m.mailType))
  }

  function MailTest(f: MailFilters): Mail -> bool {
    m => Keeps(f, m)
  }

  /** `filteredMails`. */
  function FilteredMails(mails: seq<Mail>, f: MailFilters): (r: seq<Mail>)
    ensures |r| <= |mails|
    ensures forall m :: m in r ==> m in mails && Keeps(f, m)
  {
    Filter(mails, MailTest(f))
  }

  /** The visible mails keep their order and are exactly the mails passing the search and both selectors. */
  lemma FilteredMailsSpec(mails: seq<Mail>, f: MailFilters)
    ensures IsSubsequence(FilteredMails(mails, f), mails)
    ensures forall m :: m in FilteredMails(mails, f) <==>
      && m in mails
      && MatchesSearch(m, f.searchText)
      && SelectorMatches(f.natureId, IdToCheck(m.mailNatureId, m.mailNature))
      && SelectorMatches(f.typeId, IdToCheck(m.mailTypeId, m.mailType))
  {
    FilterSpec(mails, MailTest(f));
  }

  /** With the filters cleared every mail is shown. */
  lemma NoMailFiltersKeepAll(mails: seq<Mail>)
    ensures FilteredMails(mails, NoMailFilters) == mails
  {
    FilterAll(mails, MailTest(NoMailFilters));
  }

  /** A mail without a nature id (or only a zero one) disappears as soon as a nature is selected. */
  lemma MissingNatureExcluded(mails: seq<Mail>, f: MailFilters, m: Mail)
    requires f.natureId != ""
    requires IdToCheck(m.mailNatureId, m.mailNature) in {None, Some(0)}
    ensures m !in FilteredMails(mails, f)
  {
    FilteredMailsSpec(mails, f);
  }

  /** A mail without a type id (or only a zero one) disappears as soon as a type is selected. */
  lemma MissingTypeExcluded(mails: seq<Mail>, f: MailFilters, m: Mail)
    requires f.typeId != ""
    requires IdToCheck(m.mailTypeId, m.mailType) in {None, Some(0)}
    ensures m !in FilteredMails(mails, f)
  {
    FilteredMailsSpec(mails, f);
  }

  /** With a nature selected, every visible mail has the same nature id. */
  lemma SelectedNatureIsShared(mails: seq<Mail>, f: MailFilters, a: Mail, b: Mail)
    requires f.natureId != ""
    requires a in FilteredMails(mails, f) && b in FilteredMails(mails, f)
    ensures IdToCheck(a.mailNatureId, a.mailNature) == IdToCheck(b.mailNatureId, b.mailNature)
  {
    FilteredMailsSpec(mails, f);
    var x, y := IdToCheck(a.mailNatureId, a.mailNature), IdToCheck(b.mailNatureId, b.mailNature);
    IntToStringInjective(x.value, y.value);
  }

  // ---------------------------------------------------------------------------
  // page state

  /** How the mail request ended: a response body, or a thrown error with its optional message. */
  datatype Loaded = Returned(response: Json<Mail>) | Threw(message: Option<string>)

  /** The mail page's rows, total, error banner and filters. */
  class MailListPage {
    var mails: seq<Mail>
    var rowCount: int
    var error: string
    var filters: MailFilters
    var page: nat
    var pageSize: nat

    constructor()
      ensures mails == [] && rowCount == 0 && error == "" && filters == NoMailFilters
      ensures page == 0 && pageSize == 25
    {
      mails := [];
      rowCount := 0;
      error := "";
      filters := NoMailFilters;
      page := 0;
      pageSize := 25;
    }

    function Visible(): seq<Mail>
      reads this
    {
      FilteredMails(mails, filters)
    }

    /** `loadData`: the extracted rows with ids and their total, or the error with no rows. */
    method Load(outcome: Loaded)
      modifies this
      ensures outcome.Returned? ==>
        && mails == WithIds(Extract(outcome.response).0)
        && rowCount == Extract(outcome.response).1
        && error == ""
      ensures outcome.Threw? ==>
        mails == [] && rowCount == 0 && error == (if Present(outcome.message) then outcome.message.value else "Failed to load mails")
      ensures filters == old(filters) && page == old(page) && pageSize == old(pageSize)
    {
      match outcome
      case Returned(response) =>
        var (data, total) := Extract(response);
        mails := WithIds(data);
        rowCount := total;
        error := "";
      case Threw(message) =>
        error := if Present(message) then message.value else "Failed to load mails";
        mails := [];
        rowCount := 0;
    }

    method SetSearchText(text: string)
      modifies this
      ensures filters == old(filters).(searchText := text)
      ensures mails == old(mails) && rowCount == old(rowCount) && error == old(error)
    {
      filters := filters.(searchText := text);
    }

    /** `handleNatureChange`. */
    method HandleNatureChange(value: string)
      modifies this
      ensures filters == old(filters).(natureId := value)
      ensures mails == old(mails) && rowCount == old(rowCount) && error == old(error)
    {
      filters := filters.(natureId := value);
    }

    /** `handleTypeChange`. */
    method HandleTypeChange(value: string)
      modifies this
      ensures filters == old(filters).(typeId := value)
      ensures mails == old(mails) && rowCount == old(rowCount) && error == old(error)
    {
      filters := filters.(typeId := value);
    }

    /** `handleClearFilters`: every mail is shown again. */
    method HandleClearFilters()
      modifies this
      ensures filters == NoMailFilters
      ensures mails == old(mails) && rowCount == old(rowCount) && error == old(error)
      ensures Visible() == mails
    {
      filters := NoMailFilters;
      NoMailFiltersKeepAll(mails);
    }

    /** `handlePaginationModelChange`. */
    method HandlePaginationModelChange(newPage: nat, newPageSize: nat)
      modifies this
      ensures page == newPage && pageSize == newPageSize
      ensures mails == old(mails) && rowCount == old(rowCount) && error == old(error) && filters == old(filters)
    {
      page, pageSize := newPage, newPageSize;
    }
  }
}
