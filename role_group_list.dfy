/**
 * The role list and the group list pages of the security section. The two
 * pages are the same program over a named record: a search box and a
 * sortable header choose the shown records, a paginator slices them, a
 * delete button removes one, and the shown records export to CSV. They
 * differ only in the member column (a role's permissions, a group's roles)
 * and in their texts.
 */
module RoleGroupList {
  import opened Js
  import opened ListOps
  import opened SortKeys
  import opened Csv

  /** A role or a group: optional id and description, and the names of its permissions or roles. */
  datatype Named = Named(id: Option<int>, name: string, description: Option<string>, members: Option<seq<string>>)

  /** Which of the two pages. */
  datatype Kind = Roles | Groups

  datatype SortField = Name | Description

  /** The outcome of the service's delete call. */
  datatype Outcome = Deleted | Failed(message: string) | FailedWithoutError

  /** `x || ''` on an optional string. */
  function OrEmpty(s: Option<string>): (r: string)
    ensures Present(s) ==> r == s.value
    ensures !Present(s) ==> r == ""
  {
    if s.Some? then s.value else ""
  }

  /** The search: the name, or a non-empty description, contains the term, ignoring case. */
  predicate Matches(n: Named, term: string) {
    ContainsIgnoreCase(n.name, term) || (Present(n.description) && ContainsIgnoreCase(n.description.value, term))
  }

  /** The lowercased name, or the lowercased description with an absent one read as empty. */
  function SortKey(n: Named, field: SortField): (k: Key)
    ensures k.Text?
  {
    match field
    case Name => Text(ToLower(n.name))
    case Description => Text(ToLower(OrEmpty(n.description)))
  }

  function KeyOf(field: SortField): Named -> Key {
    (n: Named) => SortKey(n, field)
  }

  function Comparator(field: SortField, order: Direction): (Named, Named) -> int {
    CmpByLess(ByKey(KeyOf(field)), order == Desc)
  }

  /** The records the table shows, before paging. */
  function FilterAndSort(items: seq<Named>, term: string, field: SortField, order: Direction): (r: seq<Named>)
    ensures |r| <= |items|
    ensures forall n :: n in r ==> n in items && Matches(n, term)
  {
    var filtered := Filter(items, (n: Named) => Matches(n, term));
    SortMembers(filtered, Comparator(field, order));
    Sort(filtered, Comparator(field, order))
  }

  /** The shown records are exactly the matching ones, each as often as in the loaded list. */
  lemma FilterAndSortMembers(items: seq<Named>, term: string, field: SortField, order: Direction)
    ensures multiset(FilterAndSort(items, term, field, order)) == multiset(Filter(items, (n: Named) => Matches(n, term)))
    ensures forall n :: n in FilterAndSort(items, term, field, order) <==> n in items && Matches(n, term)
  {
    var filtered := Filter(items, (n: Named) => Matches(n, term));
    var r := FilterAndSort(items, term, field, order);
    FilterSpec(items, (n: Named) => Matches(n, term));
    forall n ensures n in r <==> n in filtered {
      assert n in r <==> n in multiset(r);
      assert n in filtered <==> n in multiset(filtered);
    }
  }

  /** The shown records are ordered by the sort key in the chosen direction. */
  lemma FilterAndSortOrdered(items: seq<Named>, term: string, field: SortField, order: Direction)
    ensures var r := FilterAndSort(items, term, field, order);
      forall i, j :: 0 <= i < j < |r| ==>
        if order == Desc then !KeyLess(SortKey(r[i], field), SortKey(r[j], field))
        else !KeyLess(SortKey(r[j], field), SortKey(r[i], field))
  {
    var key := KeyOf(field);
    assert OneKind(key);
    SortByKey(Filter(items, (n: Named) => Matches(n, term)), key, order == Desc);
  }

  /** A record whose description is absent or empty is found by its name alone. */
  lemma NoDescriptionMatchesByName(n: Named, term: string)
    requires !Present(n.description)
    ensures Matches(n, term) <==> ContainsIgnoreCase(n.name, term)
  {
  }

  /** An empty search term shows every loaded record. */
  lemma EmptySearchShowsAll(items: seq<Named>, field: SortField, order: Direction)
    ensures multiset(FilterAndSort(items, "", field, order)) == multiset(items)
  {
    forall n | n in items ensures Matches(n, "") {
      IncludesEmpty(ToLower(n.name));
    }
    FilterAll(items, (n: Named) => Matches(n, ""));
    FilterAndSortMembers(items, "", field, order);
  }

  /** The list after deleting `id`: every record whose id is not `id`, in the same order; records without an id stay. */
  function WithoutId(items: seq<Named>, id: int): (r: seq<Named>)
    ensures |r| <= |items|
    ensures forall n :: n in r ==> n in items && n.id != Some(id)
  {
    Filter(items, (n: Named) => n.id != Some(id))
  }

  lemma WithoutIdSpec(items: seq<Named>, id: int)
    ensures IsSubsequence(WithoutId(items, id), items)
    ensures forall n :: n in WithoutId(items, id) <==> n in items && n.id != Some(id)
    ensures forall n :: n in items && n.id.None? ==> n in WithoutId(items, id)
  {
    FilterSpec(items, (n: Named) => n.id != Some(id));
  }

  // ---------------------------------------------------------------------------
  // CSV export

  function CsvHeaders(kind: Kind): (h: seq<string>)
    ensures |h| == 4
    ensures forall k :: 0 <= k < 4 ==> PlainText(h[k])
  {
    var h := ["ID", "Name", "Description", if kind == Roles then "Permissions" else "Roles"];
    assert forall k :: 0 <= k < 4 ==> PlainText(h[k]) by {
      forall k | 0 <= k < 4 ensures PlainText(h[k]) {
      }
    }
    h
  }

  /** The member column: the names joined by `, `, or `-` when absent or when that text is empty. */
  function MembersText(n: Named): (r: string)
    ensures n.members.None? || n.members.value == [] ==> r == "-"
    ensures r != ""
  {
    if n.members.None? then "-"
    else
      var j := Join(n.members.value, ", ");
      if j == "" then "-" else j
  }

  /** A record's line: its id (or nothing), name, description (or `-`) and members. */
  function CsvFields(n: Named): (f: seq<string>)
    ensures |f| == 4
    ensures f[2] == "-" <==> !Present(n.description) || n.description.value == "-"
  {
    [if n.id.Some? then IntToString(n.id.value) else "", n.name,
     if Present(n.description) then n.description.value else "-", MembersText(n)]
  }

  function CsvRows(items: seq<Named>): (rows: seq<seq<string>>)
    ensures |rows| == |items|
    ensures forall i :: 0 <= i < |items| ==> rows[i] == CsvFields(items[i])
  {
    seq(|items|, i requires 0 <= i < |items| => CsvFields(items[i]))
  }

  /** The exported text as written: every cell wrapped in quotes, nothing escaped. */
  function ExportCsv(kind: Kind, items: seq<Named>): string {
    TableDocument(CsvHeaders(kind), CsvRows(items), (s: string) => Wrapped(s))
  }

  /** The same text with quotes inside cells escaped. */
  function ExportCsvEscaped(kind: Kind, items: seq<Named>): string {
    TableDocument(CsvHeaders(kind), CsvRows(items), (s: string) => Quoted(s))
  }

  /** No quote in the name, the description or any member name. */
  predicate NoQuotes(n: Named) {
    && '"' !in n.name && '"' !in OrEmpty(n.description)
    && (n.members.Some? ==> forall k :: 0 <= k < |n.members.value| ==> '"' !in n.members.value[k])
  }

  /** As written, the export reads back as the records' fields when none holds a quote. */
  lemma ExportCsvReadsBack(kind: Kind, items: seq<Named>)
    requires forall n :: n in items ==> NoQuotes(n)
    ensures Parse(ExportCsv(kind, items)) == [CsvHeaders(kind)] + CsvRows(items)
  {
    var rows := CsvRows(items);
    forall i, k | 0 <= i < |rows| && 0 <= k < |rows[i]| ensures '"' !in rows[i][k] {
      var n := items[i];
      assert n in items;
      if n.id.Some? {
        IntToStringPlain(n.id.value);
      }
      if n.members.Some? {
        JoinAvoids(n.members.value, ", ", '"');
      }
    }
    WrappedTableReadsBack(CsvHeaders(kind), rows);
  }

  /** Escaped, the export reads back as the records' fields whatever they hold. */
  lemma ExportCsvEscapedReadsBack(kind: Kind, items: seq<Named>)
    ensures Parse(ExportCsvEscaped(kind, items)) == [CsvHeaders(kind)] + CsvRows(items)
  {
    QuotedTableReadsBack(CsvHeaders(kind), CsvRows(items));
  }

  /** As written, a description holding a quote is read back as a different text. */
  lemma ExportCsvQuoteInDescription()
    ensures CsvFields(Named(None, "r", Some("a\"b"), None))[2] == "a\"b"
    ensures ReadCell(Encode(Wrapped("a\"b"))).0 != "a\"b"
  {
    WrappedQuoteMisread();
  }

  // ---------------------------------------------------------------------------
  // The page state

  class NamedListPage {
    const kind: Kind
    var items: seq<Named>
    var filtered: seq<Named>
    var error: Option<string>
    var searchTerm: string
    var page: nat
    var rowsPerPage: nat
    var sortField: SortField
    var sortOrder: Direction

    ghost predicate Valid()
      reads this
    {
      filtered == FilterAndSort(items, searchTerm, sortField, sortOrder)
    }

    /** The initial state: nothing loaded, empty search, first page of five, name ascending. */
    constructor(kind: Kind)
      ensures Valid() && this.kind == kind
      ensures items == [] && filtered == [] && error == None && searchTerm == ""
      ensures page == 0 && rowsPerPage == 5 && sortField == Name && sortOrder == Asc
    {
      this.kind := kind;
      items := [];
      filtered := [];
      error := None;
      searchTerm := "";
      page := 0;
      rowsPerPage := 5;
      sortField := Name;
      sortOrder := Asc;
    }

    /** The filter-and-sort effect: recompute the shown records and go back to the first page. */
    method Refresh()
      modifies this
      ensures Valid() && page == 0
      ensures items == old(items) && searchTerm == old(searchTerm) && error == old(error)
      ensures sortField == old(sortField) && sortOrder == old(sortOrder) && rowsPerPage == old(rowsPerPage)
    {
      page := 0;
      filtered := FilterAndSort(items, searchTerm, sortField, sortOrder);
    }

    method SetItems(loaded: seq<Named>)
      modifies this
      ensures Valid() && items == loaded && page == 0
      ensures searchTerm == old(searchTerm) && error == old(error)
      ensures sortField == old(sortField) && sortOrder == old(sortOrder) && rowsPerPage == old(rowsPerPage)
    {
      items := loaded;
      Refresh();
    }

    method HandleSearchChange(term: string)
      modifies this
      ensures Valid() && searchTerm == term && page == 0
      ensures items == old(items) && error == old(error)
      ensures sortField == old(sortField) && sortOrder == old(sortOrder) && rowsPerPage == old(rowsPerPage)
    {
      searchTerm := term;
      Refresh();
    }

    /** A click on a column header: the same column flips direction, another one sorts ascending. */
    method HandleSort(field: SortField)
      modifies this
      ensures Valid() && page == 0
      ensures (sortField, sortOrder) == ToggleSort(old(sortField), old(sortOrder), field)
      ensures items == old(items) && searchTerm == old(searchTerm) && error == old(error)
      ensures rowsPerPage == old(rowsPerPage)
    {
      var (f, o) := ToggleSort(sortField, sortOrder, field);
      sortField := f;
      sortOrder := o;
      Refresh();
    }

    method HandlePageChange(newPage: nat)
      modifies this
      ensures page == newPage
      ensures items == old(items) && filtered == old(filtered) && searchTerm == old(searchTerm)
      ensures error == old(error) && sortField == old(sortField) && sortOrder == old(sortOrder)
      ensures rowsPerPage == old(rowsPerPage)
    {
      page := newPage;
    }

    method HandleRowsPerPageChange(n: nat)
      modifies this
      ensures rowsPerPage == n && page == 0
      ensures items == old(items) && filtered == old(filtered) && searchTerm == old(searchTerm)
      ensures error == old(error) && sortField == old(sortField) && sortOrder == old(sortOrder)
    {
      rowsPerPage := n;
      page := 0;
    }

    /**
     * Delete a record: nothing happens unless confirmed; a successful call
     * drops every record with that id; a failed one reports the error's
     * message, or the page's own text when what was thrown is not an error.
     */
    method HandleDelete(id: int, confirmed: bool, outcome: Outcome)
      modifies this
      ensures !confirmed ==> items == old(items) && error == old(error) && filtered == old(filtered) && page == old(page)
      ensures confirmed && outcome == Deleted ==> Valid() && items == WithoutId(old(items), id) && error == old(error) && page == 0
      ensures confirmed && outcome.Failed? ==> items == old(items) && error == Some(outcome.message)
      ensures confirmed && outcome == FailedWithoutError ==>
                items == old(items) && error == Some(if kind == Roles then "Failed to delete role" else "Failed to delete group")
      ensures outcome != Deleted || !confirmed ==> filtered == old(filtered) && page == old(page)
      ensures searchTerm == old(searchTerm) && sortField == old(sortField) && sortOrder == old(sortOrder)
      ensures rowsPerPage == old(rowsPerPage)
    {
      if !confirmed {
        return;
      }
      match outcome
      case Deleted =>
        items := WithoutId(items, id);
        Refresh();
      case Failed(message) =>
        error := Some(message);
      case FailedWithoutError =>
        error := Some(if kind == Roles then "Failed to delete role" else "Failed to delete group");
    }

    /** The rows on screen: the current page of the shown records. */
    function Paginated(): (r: seq<Named>)
      reads this
      ensures |r| <= rowsPerPage
      ensures forall k :: 0 <= k < |r| ==> page * rowsPerPage + k < |filtered| && r[k] == filtered[page * rowsPerPage + k]
      ensures page * rowsPerPage + rowsPerPage <= |filtered| ==> |r| == rowsPerPage
    {
      var (shown, p, n) := (filtered, page, rowsPerPage);
      PageOfSpec(shown, p, n);
      PageOf(shown, p, n)
    }
  }
}
