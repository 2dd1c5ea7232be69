/**
 * `exportToCSV` and the row mapping of `exportToExcel` in the security
 * module's export utilities: a fixed header of eight columns and one line
 * per user.
 */
module SecurityExport {
  import opened Js
  import opened Csv

  /** The user fields the exporters read; optional ones may be absent. */
  datatype User = User(
    id: int,
    username: string,
    email: Option<string>,
    firstName: Option<string>,
    lastName: Option<string>,
    enabled: Option<bool>,
    roleNames: Option<seq<string>>,
    createdAt: Option<string>)

  /** `x || ''` on an optional string. */
  function TextOf(s: Option<string>): (r: string)
    ensures s.None? ==> r == ""
    ensures s.Some? ==> r == s.value
  {
    if s.Some? then s.value else ""
  }

  /** `user.enabled ? 'Enabled' : 'Disabled'`. */
  function Status(u: User): (r: string)
    ensures r == "Enabled" <==> u.enabled == Some(true)
    ensures r == "Enabled" || r == "Disabled"
  {
    if u.enabled == Some(true) then "Enabled" else "Disabled"
  }

  /** `user.roles?.map(r => r.name).join(', ') || ''`. */
  function RolesText(u: User): (r: string)
    ensures u.roleNames.None? || u.roleNames.value == [] ==> r == ""
  {
    if u.roleNames.Some? then Join(u.roleNames.value, ", ") else ""
  }

  const Headers: seq<string> := ["ID", "Username", "Email", "First Name", "Last Name", "Status", "Roles", "Created At"]

  /** The texts a user's line carries, column by column. */
  function Fields(u: User): (f: seq<string>)
    ensures |f| == |Headers|
  {
    [IntToString(u.id), u.username, TextOf(u.email), TextOf(u.firstName), TextOf(u.lastName),
     Status(u), RolesText(u), TextOf(u.createdAt)]
  }

  /** The cells of a user's line; `textCell` is how the five free-text columns are written, `dateCell` the created-at column. */
  function UserCells(u: User, textCell: string -> Cell, dateCell: string -> Cell): (cs: seq<Cell>)
    ensures |cs| == |Headers|
  {
    [Plain(IntToString(u.id)), textCell(u.username), textCell(TextOf(u.email)), textCell(TextOf(u.firstName)),
     textCell(TextOf(u.lastName)), Plain(Status(u)), textCell(RolesText(u)), dateCell(TextOf(u.createdAt))]
  }

  function HeaderCells(): (cs: seq<Cell>)
    ensures |cs| == |Headers|
  {
    seq(|Headers|, k requires 0 <= k < |Headers| => Plain(Headers[k]))
  }

  function CsvLines(users: seq<User>, textCell: string -> Cell, dateCell: string -> Cell): (ls: seq<seq<Cell>>)
    ensures |ls| == |users| + 1
    ensures ls[0] == HeaderCells()
    ensures forall i :: 1 <= i <= |users| ==> ls[i] == UserCells(users[i - 1], textCell, dateCell)
  {
    [HeaderCells()] + seq(|users|, i requires 0 <= i < |users| => UserCells(users[i], textCell, dateCell))
  }

  /** `exportToCSV(users)` as written: the text columns are wrapped in quotes with nothing escaped, and the created-at text is written bare. */
  function ExportCsv(users: seq<User>): string {
    Document(CsvLines(users, (s: string) => Wrapped(s), (s: string) => Plain(s)))
  }

  /** The same export with the text columns and the created-at text quoted and escaped. */
  function ExportCsvEscaped(users: seq<User>): string {
    Document(CsvLines(users, (s: string) => Quoted(s), (s: string) => Quoted(s)))
  }

  /** What reading an export back should give: the eight headers, then each user's fields. */
  function Table(users: seq<User>): (t: seq<seq<string>>)
    ensures |t| == |users| + 1 && t[0] == Headers
    ensures forall i :: 1 <= i <= |users| ==> t[i] == Fields(users[i - 1])
  {
    [Headers] + seq(|users|, i requires 0 <= i < |users| => Fields(users[i]))
  }

  /** The created-at text is written without quotes, so it must hold no separator or quote to read back. */
  predicate PlainCreatedAt(u: User) {
    var c := TextOf(u.createdAt);
    ',' !in c && '\n' !in c && '"' !in c
  }

  /** No quote in any of the five wrapped columns. */
  predicate NoQuotes(u: User) {
    && '"' !in u.username && '"' !in TextOf(u.email) && '"' !in TextOf(u.firstName)
    && '"' !in TextOf(u.lastName) && '"' !in RolesText(u)
  }

  /** The five text columns of `u`, written by `textCell`, read back as themselves. */
  predicate TextsReadable(u: User, textCell: string -> Cell) {
    && Readable(textCell(u.username)) && Readable(textCell(TextOf(u.email)))
    && Readable(textCell(TextOf(u.firstName))) && Readable(textCell(TextOf(u.lastName)))
    && Readable(textCell(RolesText(u)))
  }

  lemma UserLine(u: User, textCell: string -> Cell, dateCell: string -> Cell)
    requires forall s :: textCell(s).text == s && dateCell(s).text == s
    requires Readable(dateCell(TextOf(u.createdAt))) && TextsReadable(u, textCell)
    ensures forall k :: 0 <= k < |UserCells(u, textCell, dateCell)| ==> Readable(UserCells(u, textCell, dateCell)[k])
    ensures Texts(UserCells(u, textCell, dateCell)) == Fields(u)
  {
    UserCellsReadable(u, textCell, dateCell);
    UserCellsTexts(u, textCell, dateCell);
  }

  lemma UserCellsReadable(u: User, textCell: string -> Cell, dateCell: string -> Cell)
    requires Readable(dateCell(TextOf(u.createdAt))) && TextsReadable(u, textCell)
    ensures forall k :: 0 <= k < |UserCells(u, textCell, dateCell)| ==> Readable(UserCells(u, textCell, dateCell)[k])
  {
    var cs := UserCells(u, textCell, dateCell);
    IntToStringPlain(u.id);
    assert Readable(cs[0]);
    assert Readable(cs[5]) by { assert Status(u) == "Enabled" || Status(u) == "Disabled"; }
    assert Readable(cs[7]);
  }

  lemma UserCellsTexts(u: User, textCell: string -> Cell, dateCell: string -> Cell)
    requires forall s :: textCell(s).text == s && dateCell(s).text == s
    ensures Texts(UserCells(u, textCell, dateCell)) == Fields(u)
  {
    var cs := UserCells(u, textCell, dateCell);
    forall k | 0 <= k < |cs| ensures Texts(cs)[k] == Fields(u)[k] {
    }
  }

  lemma ExportReadsBack(users: seq<User>, textCell: string -> Cell, dateCell: string -> Cell)
    requires forall s :: textCell(s).text == s && dateCell(s).text == s
    requires forall u :: u in users ==> Readable(dateCell(TextOf(u.createdAt))) && TextsReadable(u, textCell)
    ensures Parse(Document(CsvLines(users, textCell, dateCell))) == Table(users)
  {
    CsvLinesReadable(users, textCell, dateCell);
    CsvLinesTexts(users, textCell, dateCell);
    ParseDocumentTable(CsvLines(users, textCell, dateCell));
  }

  lemma HeaderReadable()
    ensures forall k :: 0 <= k < |HeaderCells()| ==> Readable(HeaderCells()[k])
  {
    forall k | 0 <= k < |Headers| ensures ',' !in Headers[k] && '\n' !in Headers[k] && '"' !in Headers[k] {
    }
  }

  lemma CsvLinesReadable(users: seq<User>, textCell: string -> Cell, dateCell: string -> Cell)
    requires forall s :: textCell(s).text == s && dateCell(s).text == s
    requires forall u :: u in users ==> Readable(dateCell(TextOf(u.createdAt))) && TextsReadable(u, textCell)
    ensures AllReadable(CsvLines(users, textCell, dateCell))
    ensures forall i :: 0 <= i < |CsvLines(users, textCell, dateCell)| ==> |CsvLines(users, textCell, dateCell)[i]| >= 1
  {
    var lines := CsvLines(users, textCell, dateCell);
    HeaderReadable();
    forall i, k | 0 <= i < |lines| && 0 <= k < |lines[i]| ensures Readable(lines[i][k]) {
      if i > 0 {
        assert users[i - 1] in users;
        UserLine(users[i - 1], textCell, dateCell);
      }
    }
  }

  lemma CsvLinesTexts(users: seq<User>, textCell: string -> Cell, dateCell: string -> Cell)
    requires forall s :: textCell(s).text == s && dateCell(s).text == s
    requires forall u :: u in users ==> Readable(dateCell(TextOf(u.createdAt))) && TextsReadable(u, textCell)
    ensures TextTable(CsvLines(users, textCell, dateCell)) == Table(users)
  {
    var lines := CsvLines(users, textCell, dateCell);
    forall i | 0 <= i < |lines| ensures TextTable(lines)[i] == Table(users)[i] {
      if i > 0 {
        assert users[i - 1] in users;
        UserLine(users[i - 1], textCell, dateCell);
      }
    }
  }

  /** As written, the export reads back as the users' fields when none of the quoted columns holds a quote. */
  lemma ExportCsvReadsBack(users: seq<User>)
    requires forall u :: u in users ==> PlainCreatedAt(u) && NoQuotes(u)
    ensures Parse(ExportCsv(users)) == Table(users)
  {
    ExportReadsBack(users, (s: string) => Wrapped(s), (s: string) => Plain(s));
  }

  /** With the text columns and the created-at text escaped, the export reads back as the users' fields whatever they hold. */
  lemma ExportCsvEscapedReadsBack(users: seq<User>)
    ensures Parse(ExportCsvEscaped(users)) == Table(users)
  {
    ExportReadsBack(users, (s: string) => Quoted(s), (s: string) => Quoted(s));
  }

  /** As written, a username holding a quote does not read back: `a"b` comes back as `ab"`. */
  lemma ExportCsvQuoteInUsername()
    ensures UserCells(User(1, "a\"b", None, None, None, None, None, None), (s: string) => Wrapped(s), (s: string) => Plain(s))[1] == Wrapped("a\"b")
    ensures ReadCell(Encode(Wrapped("a\"b"))).0 != "a\"b"
  {
    WrappedQuoteMisread();
  }

  // ---------------------------------------------------------------------------
  // Excel rows

  datatype ExcelRow = ExcelRow(
    id: int, username: string, email: string, firstName: string, lastName: string,
    status: string, roles: string, createdAt: string)

  /** The object `exportToExcel` builds for a user. */
  function ToExcelRow(u: User): ExcelRow {
    ExcelRow(u.id, u.username, TextOf(u.email), TextOf(u.firstName), TextOf(u.lastName), Status(u), RolesText(u), TextOf(u.createdAt))
  }

  /** The spreadsheet row carries, column by column, exactly the texts the CSV line carries. */
  lemma ExcelRowMatchesCsv(u: User)
    ensures var r := ToExcelRow(u);
      [IntToString(r.id), r.username, r.email, r.firstName, r.lastName, r.status, r.roles, r.createdAt] == Fields(u)
  {
  }
}
