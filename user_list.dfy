/**
 * The user list page of the security section: a search box and a sortable
 * column header pick which users are shown, a paginator slices them, a
 * delete button removes one, and the shown users export to CSV.
 */
module UserList {
  import opened Js
  import opened ListOps
  import opened SortKeys
  import opened Csv

  /** A user as the page keeps it; `locked`, `createdAt` and `lastLogin` may be absent. */
  datatype User = User(
    id: int,
    username: string,
    email: string,
    enabled: bool,
    locked: Option<bool>,
    createdAt: Option<string>,
    lastLogin: Option<string>)

  datatype SortField = Username | Enabled | Locked | CreatedAt

  /** The outcome of the DELETE request. */
  datatype Reply = Ok | NotOk | Threw(message: string)

  /** The search: the lowercased username or email contains the lowercased term. */
  predicate Matches(u: User, term: string) {
    ContainsIgnoreCase(u.username, term) || ContainsIgnoreCase(u.email, term)
  }

  /**
   * The value a user is compared by: the lowercased username, 1 or 0 for the
   * two flags, the creation time (`timeOf` reads a date) or 0 when absent.
   */
  function SortKey(u: User, field: SortField, timeOf: string -> int): (k: Key)
    ensures k.Text? <==> field == Username
  {
    match field
    case Username => Text(ToLower(u.username))
    case Enabled => Number(if u.enabled then 1 else 0)
    case Locked => Number(if u.locked == Some(true) then 1 else 0)
    case CreatedAt => Number(if Present(u.createdAt) then timeOf(u.createdAt.value) else 0)
  }

  function KeyOf(field: SortField, timeOf: string -> int): User -> Key {
    (u: User) => SortKey(u, field, timeOf)
  }

  /** The page's comparator: `-1`, `1` or `0` by the sort key, flipped for a descending sort. */
  function Comparator(field: SortField, order: Direction, timeOf: string -> int): (User, User) -> int {
    CmpByLess(ByKey(KeyOf(field, timeOf)), order == Desc)
  }

  /** The users the table shows, before paging: the matching users in sort order. */
  function FilterAndSort(users: seq<User>, term: string, field: SortField, order: Direction, timeOf: string -> int): (r: seq<User>)
    ensures |r| <= |users|
    ensures forall u :: u in r ==> u in users && Matches(u, term)
  {
    var filtered := Filter(users, (u: User) => Matches(u, term));
    SortMembers(filtered, Comparator(field, order, timeOf));
    Sort(filtered, Comparator(field, order, timeOf))
  }

  /** The shown users are exactly the matching ones, each as often as in the loaded list. */
  lemma FilterAndSortMembers(users: seq<User>, term: string, field: SortField, order: Direction, timeOf: string -> int)
    ensures multiset(FilterAndSort(users, term, field, order, timeOf)) == multiset(Filter(users, (u: User) => Matches(u, term)))
    ensures forall u :: u in FilterAndSort(users, term, field, order, timeOf) <==> u in users && Matches(u, term)
  {
    var filtered := Filter(users, (u: User) => Matches(u, term));
    var r := FilterAndSort(users, term, field, order, timeOf);
    FilterSpec(users, (u: User) => Matches(u, term));
    forall u ensures u in r <==> u in filtered {
      assert u in r <==> u in multiset(r);
      assert u in filtered <==> u in multiset(filtered);
    }
  }

  /** The shown users are ordered by the sort key in the chosen direction. */
  lemma FilterAndSortOrdered(users: seq<User>, term: string, field: SortField, order: Direction, timeOf: string -> int)
    ensures var r := FilterAndSort(users, term, field, order, timeOf);
      forall i, j :: 0 <= i < j < |r| ==>
        if order == Desc then !KeyLess(SortKey(r[i], field, timeOf), SortKey(r[j], field, timeOf))
        else !KeyLess(SortKey(r[j], field, timeOf), SortKey(r[i], field, timeOf))
  {
    var key := KeyOf(field, timeOf);
    assert OneKind(key);
    SortByKey(Filter(users, (u: User) => Matches(u, term)), key, order == Desc);
  }

  /** An empty search term shows every loaded user. */
  lemma EmptySearchShowsAll(users: seq<User>, field: SortField, order: Direction, timeOf: string -> int)
    ensures multiset(FilterAndSort(users, "", field, order, timeOf)) == multiset(users)
  {
    forall u | u in users ensures Matches(u, "") {
      IncludesEmpty(ToLower(u.username));
    }
    FilterAll(users, (u: User) => Matches(u, ""));
    FilterAndSortMembers(users, "", field, order, timeOf);
  }

  /** The list after deleting `id`: every other user, in the same order. */
  function WithoutId(users: seq<User>, id: int): (r: seq<User>)
    ensures |r| <= |users|
    ensures forall u :: u in r ==> u in users && u.id != id
  {
    Filter(users, (u: User) => u.id != id)
  }

  lemma WithoutIdSpec(users: seq<User>, id: int)
    ensures IsSubsequence(WithoutId(users, id), users)
    ensures forall u :: u in WithoutId(users, id) <==> u in users && u.id != id
  {
    FilterSpec(users, (u: User) => u.id != id);
  }

  // ---------------------------------------------------------------------------
  // CSV export

  const CsvHeaders: seq<string> := ["ID", "Username", "Email", "Enabled", "Locked", "Created", "Last Login"]

  function YesNo(b: bool): (r: string)
    ensures r == "Yes" <==> b
  {
    if b then "Yes" else "No"
  }

  /** A user's line; `localeOf` renders a date the way the browser's locale does. */
  function CsvFields(u: User, localeOf: string -> string): (f: seq<string>)
    ensures |f| == |CsvHeaders|
  {
    [IntToString(u.id), u.username, u.email, YesNo(u.enabled), YesNo(u.locked == Some(true)),
     if Present(u.createdAt) then localeOf(u.createdAt.value) else "-",
     if Present(u.lastLogin) then localeOf(u.lastLogin.value) else "-"]
  }

  function CsvRows(users: seq<User>, localeOf: string -> string): (rows: seq<seq<string>>)
    ensures |rows| == |users|
    ensures forall i :: 0 <= i < |users| ==> rows[i] == CsvFields(users[i], localeOf)
  {
    seq(|users|, i requires 0 <= i < |users| => CsvFields(users[i], localeOf))
  }

  /** The exported text as written: every cell wrapped in quotes, nothing escaped. */
  function ExportCsv(users: seq<User>, localeOf: string -> string): string {
    TableDocument(CsvHeaders, CsvRows(users, localeOf), (s: string) => Wrapped(s))
  }

  /** The same text with quotes inside cells escaped. */
  function ExportCsvEscaped(users: seq<User>, localeOf: string -> string): string {
    TableDocument(CsvHeaders, CsvRows(users, localeOf), (s: string) => Quoted(s))
  }

  lemma CsvHeadersPlain()
    ensures forall k :: 0 <= k < |CsvHeaders| ==> PlainText(CsvHeaders[k])
  {
    forall k | 0 <= k < |CsvHeaders| ensures PlainText(CsvHeaders[k]) {
    }
  }

  /** As written, the export reads back as the users' fields when no username, email or date holds a quote. */
  lemma ExportCsvReadsBack(users: seq<User>, localeOf: string -> string)
    requires forall s :: '"' !in localeOf(s)
    requires forall u :: u in users ==> '"' !in u.username && '"' !in u.email
    ensures Parse(ExportCsv(users, localeOf)) == [CsvHeaders] + CsvRows(users, localeOf)
  {
    var rows := CsvRows(users, localeOf);
    CsvHeadersPlain();
    forall i, k | 0 <= i < |rows| && 0 <= k < |rows[i]| ensures '"' !in rows[i][k] {
      assert users[i] in users;
      IntToStringPlain(users[i].id);
    }
    WrappedTableReadsBack(CsvHeaders, rows);
  }

  /** Escaped, the export reads back as the users' fields whatever they hold. */
  lemma ExportCsvEscapedReadsBack(users: seq<User>, localeOf: string -> string)
    ensures Parse(ExportCsvEscaped(users, localeOf)) == [CsvHeaders] + CsvRows(users, localeOf)
  {
    CsvHeadersPlain();
    QuotedTableReadsBack(CsvHeaders, CsvRows(users, localeOf));
  }

  /** As written, a username holding a quote is read back as a different text. */
  lemma ExportCsvQuoteInUsername(localeOf: string -> string)
    ensures CsvFields(User(1, "a\"b", "", true, None, None, None), localeOf)[1] == "a\"b"
    ensures ReadCell(Encode(Wrapped("a\"b"))).0 != "a\"b"
  {
    WrappedQuoteMisread();
  }

  // ---------------------------------------------------------------------------
  // The page state

  class UserListPage {
    var users: seq<User>
    var filteredUsers: seq<User>
    var error: Option<string>
    var searchTerm: string
    var page: nat
    var rowsPerPage: nat
    var sortField: SortField
    var sortOrder: Direction
    /** How the page turns a date string into a time, for the creation-time sort. */
    const timeOf: string -> int

    /** The shown list is always the filter-and-sort of the current users, search and sort. */
    ghost predicate Valid()
      reads this
    {
      filteredUsers == FilterAndSort(users, searchTerm, sortField, sortOrder, timeOf)
    }

    /** The initial state: nothing loaded, empty search, first page of five, username ascending. */
    constructor(timeOf: string -> int)
      ensures Valid()
      ensures users == [] && filteredUsers == [] && error == None && searchTerm == ""
      ensures page == 0 && rowsPerPage == 5 && sortField == Username && sortOrder == Asc
      ensures this.timeOf == timeOf
    {
      users := [];
      filteredUsers := [];
      error := None;
      searchTerm := "";
      page := 0;
      rowsPerPage := 5;
      sortField := Username;
      sortOrder := Asc;
      this.timeOf := timeOf;
    }

    /** The filter-and-sort effect: recompute the shown users and go back to the first page. */
    method Refresh()
      modifies this
      ensures Valid() && page == 0
      ensures users == old(users) && searchTerm == old(searchTerm) && error == old(error)
      ensures sortField == old(sortField) && sortOrder == old(sortOrder) && rowsPerPage == old(rowsPerPage)
    {
      page := 0;
      filteredUsers := FilterAndSort(users, searchTerm, sortField, sortOrder, timeOf);
    }

    /** A list arrives from the server. */
    method SetUsers(loaded: seq<User>)
      modifies this
      ensures Valid() && users == loaded && page == 0
      ensures searchTerm == old(searchTerm) && error == old(error)
      ensures sortField == old(sortField) && sortOrder == old(sortOrder) && rowsPerPage == old(rowsPerPage)
    {
      users := loaded;
      Refresh();
    }

    method HandleSearchChange(term: string)
      modifies this
      ensures Valid() && searchTerm == term && page == 0
      ensures users == old(users) && error == old(error)
      ensures sortField == old(sortField) && sortOrder == old(sortOrder) && rowsPerPage == old(rowsPerPage)
    {
      searchTerm := term;
      Refresh();
    }

    /** A click on a column header: the same column flips direction, another one sorts ascending. */
    method HandleSort(field: SortField)
      modifies this
      ensures Valid() && page == 0
      ensures (sortField, sortOrder) == ToggleSort(old(sortField), old(sortOrder), field)
      ensures users == old(users) && searchTerm == old(searchTerm) && error == old(error)
      ensures rowsPerPage == old(rowsPerPage)
    {
      var (f, o) := ToggleSort(sortField, sortOrder, field);
      sortField := f;
      sortOrder := o;
      Refresh();
    }

    method HandlePageChange(newPage: nat)
      modifies this
      ensures page == newPage
      ensures users == old(users) && filteredUsers == old(filteredUsers) && searchTerm == old(searchTerm)
      ensures error == old(error) && sortField == old(sortField) && sortOrder == old(sortOrder)
      ensures rowsPerPage == old(rowsPerPage)
    {
      page := newPage;
    }

    /** A new page size (the parsed value of the selector) sends the view back to the first page. */
    method HandleRowsPerPageChange(n: nat)
      modifies this
      ensures rowsPerPage == n && page == 0
      ensures users == old(users) && filteredUsers == old(filteredUsers) && searchTerm == old(searchTerm)
      ensures error == old(error) && sortField == old(sortField) && sortOrder == old(sortOrder)
    {
      rowsPerPage := n;
      page := 0;
    }

    /**
     * Delete a user: nothing happens unless confirmed; a successful request
     * drops every user with that id, a refused one reports
     * 'Failed to delete user', a failed one reports its message.
     */
    method HandleDeleteUser(userId: int, confirmed: bool, reply: Reply)
      modifies this
      ensures Valid() == old(Valid()) || (confirmed && reply == Ok && Valid())
      ensures !confirmed ==> users == old(users) && error == old(error) && page == old(page)
      ensures confirmed && reply == Ok ==> users == WithoutId(old(users), userId) && error == old(error) && page == 0
      ensures confirmed && reply == NotOk ==> users == old(users) && error == Some("Failed to delete user")
      ensures confirmed && reply.Threw? ==> users == old(users) && error == Some(reply.message)
      ensures reply != Ok || !confirmed ==> filteredUsers == old(filteredUsers) && page == old(page)
      ensures searchTerm == old(searchTerm) && sortField == old(sortField) && sortOrder == old(sortOrder)
      ensures rowsPerPage == old(rowsPerPage)
    {
      if !confirmed {
        return;
      }
      match reply
      case Ok =>
        users := WithoutId(users, userId);
        Refresh();
      case NotOk =>
        error := Some("Failed to delete user");
      case Threw(message) =>
        error := Some(message);
    }

    /** The rows on screen: the current page of the shown users. */
    function PaginatedUsers(): (r: seq<User>)
      reads this
      ensures |r| <= rowsPerPage
      ensures forall k :: 0 <= k < |r| ==> page * rowsPerPage + k < |filteredUsers| && r[k] == filteredUsers[page * rowsPerPage + k]
      ensures page * rowsPerPage + rowsPerPage <= |filteredUsers| ==> |r| == rowsPerPage
    {
      var (shown, p, n) := (filteredUsers, page, rowsPerPage);
      PageOfSpec(shown, p, n);
      PageOf(shown, p, n)
    }
  }

  /** After a successful delete the user with that id is on no page. */
  lemma DeletedUserNotShown(users: seq<User>, id: int, term: string, field: SortField, order: Direction, timeOf: string -> int)
    ensures forall u :: u in FilterAndSort(WithoutId(users, id), term, field, order, timeOf) ==> u.id != id
  {
    WithoutIdSpec(users, id);
    FilterAndSortMembers(WithoutId(users, id), term, field, order, timeOf);
  }
}
