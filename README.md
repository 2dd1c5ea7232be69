# iaas-web core, modelled in Dafny

This project models the logic at the core of the iaas-web administration front end and its map-tile downloader.

- **Tile downloader** (`scripts/download-tiles.py`): the Web-Mercator tile arithmetic (`deg2num`, `get_tile_range`, `calculate_total_tiles`), the `--zoom` argument, and the download run.
  - The run creates the `z/x` directories, skips tiles already on disk, fetches missing ones and writes them only on a successful reply, and counts downloaded, skipped and failed tiles.
  - The disk is a `TileStore` class whose fields the methods update. The three nested loops are three methods, each proved equal to a fold `Run` over the list of submitted downloads.
- **CSV exports**:
  - the security user export (`exportToCSV`, plus the Excel row mapping);
  - the generic network exporter;
  - the CSV buttons of the user, role and group list pages.

  Each export is read back by an independent RFC 4180 reader (`Csv.Parse`). This proves which exports read back as the table they were built from, and which do not.
- **List pages**:
  - security users, roles and groups: search, sort, pagination, delete;
  - pipelines, terminals, stations and hydrocarbon fields: response normalisation, localised option lists, filters, clearing the filters;
  - mails: response extraction, row ids, nature and type filters;
  - the dashboard pipeline status table: search and the column comparator.
- **Helpers and services**:
  - localisation helpers (network and administration variants);
  - dashboard formatters;
  - nested navbar grouping, icons and menu state;
  - sidebar expansion; the map layer filters;
  - the geo service's bounding-box query;
  - the structure service's pageable request;
  - the protected-route guard;
  - the reset-password form;
  - the role and group edit pages.

JavaScript values are modelled explicitly:

- `undefined`/`null`/empty string are `Option` plus the `Present` and `Truthy` predicates (module `Js`).
- `a || b` is `OrElse`/`Or`; `String.prototype.includes` is `Includes`; `toLowerCase` is `ToLower`.
- `trim` is `Trim`; `length` is `Length` and the default string order `<` is `LexLess`, both over the UTF-16 encoding `Utf16`; `localeCompare` is a comparator parameter; `Array.prototype.sort` is a stable insertion sort (`ListOps.Sort`).
- A loosely typed JSON reply is the `Json` datatype.
- Python's `int()` on a float truncates toward zero, and `TileMath.Trunc` does the same on reals.
- Network replies, the tile server and the clock are parameters (`fetch`, `Loaded`, `Reply`, `timeOf`).

The role and group edit pages (`src/pages/Security/RoleEdit.tsx` and `src/pages/Security/GroupEdit.tsx`) are line-for-line the same program over permissions and roles. Module `EditPages` models both; the table cites `RoleEdit.tsx`. In the same way, `TerminalList.tsx`, `StationList.tsx` and `HydrocarbonFieldList.tsx` are one program (`NetworkLists.AssetListPage`), and `RoleList.tsx` and `GroupList.tsx` are one program (`RoleGroupList.NamedListPage`).

## Model

| member | source | states |
|---|---|---|
| TileMath.Trunc | scripts/download-tiles.py:41-42 | `int()` of a float rounds toward zero: below or equal for non-negative values, above or equal for negative ones, within one |
| TileMath.TruncMonotone | scripts/download-tiles.py:41-42 | truncation never reverses the order of two values |
| TileMath.Column | scripts/download-tiles.py:41 | `int((lon + 180) / 360 * n)`; its bounds are stated by ColumnInGrid, ColumnAtAntimeridian and ColumnMonotone |
| TileMath.Row | scripts/download-tiles.py:42 | `int((1 - merc(lat)) / 2 * n)`; its order is stated by RowAntitone |
| TileMath.Deg2Num | scripts/download-tiles.py:37-43 | the tile of a point is its column and its row at that zoom, and a longitude in [-180, 180) lands in one of the 2^zoom columns |
| TileMath.ColumnInGrid | scripts/download-tiles.py:41 | every longitude in [-180, 180) falls in a column between 0 and 2^zoom - 1 |
| TileMath.ColumnAtAntimeridian | scripts/download-tiles.py:41 | longitude 180 gives column 2^zoom, one past the grid |
| TileMath.ColumnAtZoomZero | scripts/download-tiles.py:41 | at zoom 0 every longitude is in column 0 |
| TileMath.ColumnMonotone | scripts/download-tiles.py:41 | moving east never decreases the column |
| TileMath.TileIndexMonotone | scripts/download-tiles.py:41-42 | scaling a fraction by 2^zoom and truncating keeps the order |
| TileMath.RowAntitone | scripts/download-tiles.py:42 | moving north never increases the row, for any non-decreasing Mercator function |
| TileMath.GetTileRangeAsWritten | scripts/download-tiles.py:45-49 | the script's range: x from west and east, y_max from the north edge and y_min from the south edge |
| TileMath.GetTileRange | scripts/download-tiles.py:45-49 | the corrected range: y_min from the north edge and y_max from the south edge |
| TileMath.GetTileRangeOrdered | scripts/download-tiles.py:45-49 | for a well-formed box the corrected range has x_min <= x_max and y_min <= y_max |
| TileMath.AsWrittenRowsReversed | scripts/download-tiles.py:45-49 | for any box the script's y_max is at most its y_min |
| TileMath.ColumnTiles | scripts/download-tiles.py:121-123 | the inner loop visits y_min..y_max in order, one task each |
| TileMath.LevelTilesCount | scripts/download-tiles.py:113-123 | one zoom level yields (columns) x (rows) tasks, none when a range is empty |
| TileMath.ProgressTotalMatchesTasks | scripts/download-tiles.py:82-88 | with ordered ranges, the progress total equals the number of tasks submitted |
| TileMath.CorrectedTotalMatchesTasks | scripts/download-tiles.py:82-88 | with the corrected range, the total always equals the tasks submitted |
| TileMath.AsWrittenLevelSubmitsNothing | scripts/download-tiles.py:45-49 | with the script's range, a level whose rows differ submits no task; when they differ by 2 or more the level adds a negative count to the total |
| TileMath.AlgeriaRowsApart | scripts/download-tiles.py:30-35 | with the default Algeria box, from zoom 6 the north row is at least 2 below the south row |
| TileMath.TruncGap | scripts/download-tiles.py:42 | truncation keeps a gap of 2 between two scaled fractions 0.055 apart, from scale 64 |
| TileMath.AlgeriaDefaultFetchesNothing | scripts/download-tiles.py:30-35 | at every zoom from 6 the default box yields an empty row range in the script |
| TileMath.AlgeriaDefaultRun | scripts/download-tiles.py:154-158 | the default run (zoom 6 upwards) submits no task and reports a negative total |
| TileMath.EmptyZoomRange | scripts/download-tiles.py:82-88 | a minimum zoom above the maximum means no task and a total of 0 |
| TileMath.SingleLevelTotal | scripts/download-tiles.py:82-88 | for one zoom level the total is the product of the column and row spans |
| TileMath.CalculateTotalTiles | scripts/download-tiles.py:82-88 | the loop's sum equals the total over all levels of the script's range |
| TileMath.ParseInt | scripts/download-tiles.py:173-176 | a parsed integer comes from a non-empty argument |
| TileMath.ParseIntOfNat | scripts/download-tiles.py:173-176 | the decimal text of n parses back to n |
| TileMath.ParseZoom | scripts/download-tiles.py:173-176 | an argument without '-' is a single level (min = max) |
| TileMath.ParseZoomRange | scripts/download-tiles.py:173-176 | "a-b" parses to the range (a, b) |
| TileMath.ParseZoomSingle | scripts/download-tiles.py:173-176 | "n" parses to (n, n) |
| TileMath.ParseZoomRefusesLeadingMinus | scripts/download-tiles.py:173-176 | "-3" splits into an empty first half and is refused |
| TileDownload.ExistingTileSkipped | scripts/download-tiles.py:60-61 | a tile already on disk is reported "exists", is not requested, and leaves the files unchanged |
| TileDownload.MissingTileFetched | scripts/download-tiles.py:66-77 | a missing tile with a successful reply is requested once and written with the reply's bytes |
| TileDownload.FailedTileNotWritten | scripts/download-tiles.py:79-80 | a failed request reports failure and writes nothing |
| TileDownload.DownloadTileSpec | scripts/download-tiles.py:51-80 | `download_tile` as a step on the disk; what it does is stated by DownloadTileSpecFrame, ExistingTileSkipped, MissingTileFetched and FailedTileNotWritten |
| TileDownload.DownloadTileSpecFrame | scripts/download-tiles.py:51-80 | one download creates the tile's z/x directory, never changes a file already on disk, and makes at most one request, for this tile |
| TileDownload.Tally | scripts/download-tiles.py:125-137 | each outcome adds one to exactly the matching counter: skipped for "exists", downloaded for other successes, failed otherwise |
| TileDownload.RunCountsEveryTask | scripts/download-tiles.py:125-137 | after a run the three counters add up to the number of tasks |
| TileDownload.Run | scripts/download-tiles.py:113-137 | the tasks downloaded one after the other in submission order; its effect is stated by RunCountsEveryTask, RunKeepsExistingFiles and RunRequestsOnlyMissing |
| TileDownload.RunKeepsExistingFiles | scripts/download-tiles.py:60-61 | a run never changes or removes a file that was on disk |
| TileDownload.RunRequestsOnlyMissing | scripts/download-tiles.py:60-66 | every request a run makes is for a task that was not on disk |
| TileDownload.RunCreatesDirectories | scripts/download-tiles.py:54-55 | every task's z/x directory exists after the run; no directory is removed |
| TileDownload.RunOverPresentTiles | scripts/download-tiles.py:60-61 | over tiles all present, a run changes nothing, requests nothing and counts them all as skipped |
| TileDownload.RerunFetchesNothing | scripts/download-tiles.py:60-61 | after a fully successful run, running the same tasks again makes no request |
| TileDownload.RunFetchesAll | scripts/download-tiles.py:66-77 | if every request succeeds, every task's tile is on disk afterwards |
| TileDownload.RunSnoc | scripts/download-tiles.py:113-123 | running one more task is the old run followed by that task's download |
| TileDownload.RunAppend | scripts/download-tiles.py:113-123 | running two task lists in a row is the run of their concatenation |
| TileDownload.CountersMatchTasks | scripts/download-tiles.py:125-137 | starting from zero, downloaded + skipped + failed is the number of submitted downloads |
| TileDownload.AlgeriaDefaultDownloadsNothing | scripts/download-tiles.py:154-188 | the default run leaves the disk untouched and every counter at zero |
| TileDownload.TileStore.constructor | scripts/download-tiles.py:90-112 | the store starts with the given files, no directory created and no request made |
| TileDownload.TileStore.DownloadTile | scripts/download-tiles.py:51-80 | one call changes the store exactly as the download specification says and returns its outcome |
| TileDownload.TileStore.RunColumn | scripts/download-tiles.py:121-123 | the inner loop's store and counters equal the run over one column's tasks |
| TileDownload.TileStore.RunLevel | scripts/download-tiles.py:120-123 | the column loop equals the run over one level's tasks |
| TileDownload.TileStore.RunLevels | scripts/download-tiles.py:113-123 | the zoom loop equals the run over all tasks, from zeroed counters |
| TileDownload.TileStore.DownloadTiles | scripts/download-tiles.py:90-137 | the reported total is the progress total, and the final store and counters are the run over all tasks |
| Csv.Escape | src/modules/network/core/utils/exportUtils.ts:22-25 | doubling quotes never shortens a value, and changes it exactly when it holds a quote, then making it longer |
| Csv.WrapIsQuoteWithoutQuotes | src/modules/system/security/utils/exportUtils.ts:20-28 | wrapping a value in quotes without escaping writes the same cell as quoting it exactly when the value has no quote |
| Csv.ReadQuotedEscape | src/modules/network/core/utils/exportUtils.ts:22-25 | an escaped, quoted value reads back as the value, leaving the rest of the line |
| Csv.ReadCellEncode | src/modules/network/core/utils/exportUtils.ts:22-25 | every readable cell reads back as its text at a cell boundary |
| Csv.ReadLineEncode | src/modules/network/core/utils/exportUtils.ts:20-26 | a line of readable cells joined by commas reads back as their texts |
| Csv.ParseDocument | src/modules/network/core/utils/exportUtils.ts:18-27 | lines of readable cells joined by newlines parse back line by line |
| Csv.TableDocumentReadsBack | src/pages/Security/UserList.tsx:253-256 | a header row of plain names and rows of readable cells parse back as header plus rows |
| Csv.WrappedTableReadsBack | src/pages/Security/UserList.tsx:253-256 | rows wrapped in quotes read back when no value holds a quote |
| Csv.QuotedTableReadsBack | src/pages/Security/UserList.tsx:253-256 | rows quoted with escaping always read back |
| Csv.WrappedQuoteMisread | src/pages/Security/UserList.tsx:253-256 | a wrapped value with a quote in it reads back as a different value |
| Csv.PlainCommaSplits | src/modules/network/core/utils/exportUtils.ts:24 | an unquoted value with a comma reads back as two cells |
| SecurityExport.Status | src/modules/system/security/utils/exportUtils.ts:25 | the status column is "Enabled" exactly when `enabled` is true, otherwise "Disabled" |
| SecurityExport.RolesText | src/modules/system/security/utils/exportUtils.ts:26 | no roles, or an empty role list, gives an empty roles column |
| SecurityExport.CsvLines | src/modules/system/security/utils/exportUtils.ts:18-29 | the header line comes first, then one line per user, in order |
| SecurityExport.ExportCsv | src/modules/system/security/utils/exportUtils.ts:14-30 | `exportToCSV` as written, text columns wrapped in quotes and the created-at text bare; what it reads back as is stated by ExportCsvReadsBack and ExportCsvQuoteInUsername |
| SecurityExport.ExportCsvEscaped | src/modules/system/security/utils/exportUtils.ts:14-30 | the same export with inner quotes doubled and the created-at text quoted as well; it reads back as the table by ExportCsvEscapedReadsBack |
| SecurityExport.ExportReadsBack | src/modules/system/security/utils/exportUtils.ts:18-29 | with any text encoding whose cells are readable, the document parses back as the table of headers and user fields |
| SecurityExport.ExportCsvReadsBack | src/modules/system/security/utils/exportUtils.ts:14-30 | the export as written reads back as the table when no text field contains a quote and no created-at text contains a comma, line break or quote |
| SecurityExport.ExportCsvEscapedReadsBack | src/modules/system/security/utils/exportUtils.ts:14-30 | with quotes doubled in the text columns and the created-at text quoted too, the export reads back as the table for every user list |
| SecurityExport.ExportCsvQuoteInUsername | src/modules/system/security/utils/exportUtils.ts:21 | a username containing a quote is exported in a cell that reads back differently |
| SecurityExport.ExcelRowMatchesCsv | src/modules/system/security/utils/exportUtils.ts:53-62 | the Excel row carries the same eight values as the CSV row |
| SecurityExport.ToExcelRow | src/modules/system/security/utils/exportUtils.ts:53-62 | the Excel object of a user; its eight values are those of the CSV line by ExcelRowMatchesCsv |
| NetworkExport.Keys | src/modules/network/core/utils/exportUtils.ts:17 | the header is the first record's keys, in order |
| NetworkExport.ValueAt | src/modules/network/core/utils/exportUtils.ts:22-23 | a key the row lacks reads as null; any other value is the row's own value for that key |
| NetworkExport.WrittenCell | src/modules/network/core/utils/exportUtils.ts:22-25 | each cell's text is the value's text: empty for null, quoted and escaped for strings, raw JSON for objects |
| NetworkExport.QuotedObjectCell | src/modules/network/core/utils/exportUtils.ts:24 | the corrected object cell keeps the JSON text and is always readable |
| NetworkExport.Lines | src/modules/network/core/utils/exportUtils.ts:18-27 | the header line, then one line per record with one cell per header key |
| NetworkExport.ExportWith | src/modules/network/core/utils/exportUtils.ts:11-28 | none exactly when the data is missing or empty; otherwise the document of Lines |
| NetworkExport.ExportCsv | src/modules/network/core/utils/exportUtils.ts:12-15 | no file is produced exactly when the data is missing or empty |
| NetworkExport.ExportWithReadsBack | src/modules/network/core/utils/exportUtils.ts:11-28 | with readable cells and plain keys, the file parses back as the keys followed by each record's values |
| NetworkExport.ExportCsvReadsBack | src/modules/network/core/utils/exportUtils.ts:11-28 | the exporter as written reads back when no object value's JSON contains a comma, newline or quote |
| NetworkExport.QuotedExportReadsBack | src/modules/network/core/utils/exportUtils.ts:11-28 | with object cells quoted, every export with plain keys reads back |
| NetworkExport.MissingKeyEmptyCell | src/modules/network/core/utils/exportUtils.ts:22-23 | a later record lacking a header key gets an empty cell |
| NetworkExport.ObjectCellSplits | src/modules/network/core/utils/exportUtils.ts:24 | an object whose JSON holds a comma is written raw and reads back as two cells |
| UserList.SortKey | src/pages/Security/UserList.tsx:127-156 | username sorts as text; every other column sorts as a number |
| UserList.FilterAndSort | src/pages/Security/UserList.tsx:121-160 | at most as many users as loaded, each a loaded user that matches the search |
| UserList.FilterAndSortMembers | src/pages/Security/UserList.tsx:122-156 | the shown users are a permutation of the users matching the search, and a user is shown exactly when it is loaded and matches |
| UserList.FilterAndSortOrdered | src/pages/Security/UserList.tsx:127-156 | the shown users are ordered by the chosen column and direction |
| UserList.EmptySearchShowsAll | src/pages/Security/UserList.tsx:122-125 | an empty search shows every user |
| UserList.WithoutId | src/pages/Security/UserList.tsx:222 | at most as many users, each a loaded user whose id is not the deleted one |
| UserList.WithoutIdSpec | src/pages/Security/UserList.tsx:202-227 | deleting keeps the other users in order and drops exactly those with the id |
| UserList.DeletedUserNotShown | src/pages/Security/UserList.tsx:202-227 | after a delete no shown user has the deleted id |
| UserList.YesNo | src/pages/Security/UserList.tsx:247-248 | a flag is exported as "Yes" exactly when it is true |
| UserList.CsvRows | src/pages/Security/UserList.tsx:243-251 | one exported row per shown user, in order |
| UserList.ExportCsv | src/pages/Security/UserList.tsx:241-256 | the CSV button as written: the header line, then one line per shown user with every cell wrapped in quotes and nothing escaped |
| UserList.ExportCsvEscaped | src/pages/Security/UserList.tsx:241-256 | the same CSV with inner quotes doubled; it always reads back by ExportCsvEscapedReadsBack |
| UserList.ExportCsvReadsBack | src/pages/Security/UserList.tsx:241-256 | the CSV as written reads back as header plus rows when no username, email or formatted date contains a quote |
| UserList.ExportCsvEscapedReadsBack | src/pages/Security/UserList.tsx:241-256 | with quotes doubled, the CSV always reads back |
| UserList.ExportCsvQuoteInUsername | src/pages/Security/UserList.tsx:253-256 | a quote in a username breaks the read-back of its cell |
| UserList.UserListPage.constructor | src/pages/Security/UserList.tsx:57-67 | empty list, no error, page 0, 5 rows per page, sorted by username ascending |
| UserList.UserListPage.Refresh | src/pages/Security/UserList.tsx:121-160 | the filter-and-sort effect: the shown list is recomputed and the page returns to 0; everything else is kept |
| UserList.UserListPage.SetUsers | src/pages/Security/UserList.tsx:158-159 | loading users recomputes the view and returns to page 0 |
| UserList.UserListPage.HandleSearchChange | src/pages/Security/UserList.tsx:162-164 | a new search term returns to page 0 and keeps the loaded users |
| UserList.UserListPage.HandleSort | src/pages/Security/UserList.tsx:180-192 | clicking the sorted column flips its direction; clicking another column sorts by it ascending |
| UserList.UserListPage.HandlePageChange | src/pages/Security/UserList.tsx:166-171 | only the page changes |
| UserList.UserListPage.HandleRowsPerPageChange | src/pages/Security/UserList.tsx:173-178 | the page size changes and the page returns to 0 |
| UserList.UserListPage.HandleDeleteUser | src/pages/Security/UserList.tsx:202-227 | cancelled: nothing changes; success: the user is removed; a failed reply or a thrown error sets the matching message |
| UserList.UserListPage.PaginatedUsers | src/pages/Security/UserList.tsx:166-178 | the shown page is the slice of the sorted users starting at page x rows, full when enough users remain |
| RoleGroupList.FilterAndSortMembers | src/pages/Security/RoleList.tsx:80-106 | the shown roles are a permutation of the roles whose name or description matches the search |
| RoleGroupList.Matches | src/pages/Security/RoleList.tsx:80-83 | the name or a non-empty description contains the term, ignoring ASCII case; NoDescriptionMatchesByName states its description-less case |
| RoleGroupList.SortKey | src/pages/Security/RoleList.tsx:89-101 | both columns sort as text: the lowercased name, or the lowercased description with a missing one read as empty |
| RoleGroupList.FilterAndSort | src/pages/Security/RoleList.tsx:79-110 | at most as many records as loaded, each a loaded record that matches the search |
| RoleGroupList.FilterAndSortOrdered | src/pages/Security/RoleList.tsx:85-106 | the shown roles are ordered by the chosen column and direction |
| RoleGroupList.NoDescriptionMatchesByName | src/pages/Security/RoleList.tsx:80-83 | a role without a description matches exactly when its name contains the term |
| RoleGroupList.EmptySearchShowsAll | src/pages/Security/RoleList.tsx:80-83 | an empty search shows every role |
| RoleGroupList.WithoutIdSpec | src/pages/Security/RoleList.tsx:152-164 | deleting keeps the order, drops exactly the items with that id, and keeps items without an id |
| RoleGroupList.WithoutId | src/pages/Security/RoleList.tsx:159 | at most as many records, none carrying the deleted id |
| RoleGroupList.CsvHeaders | src/pages/Security/RoleList.tsx:178-190 | four plain header names |
| RoleGroupList.MembersText | src/pages/Security/GroupList.tsx:176-190 | no members is exported as "-" |
| RoleGroupList.CsvFields | src/pages/Security/RoleList.tsx:178-190 | the description column is "-" exactly when the description is missing or is "-" |
| RoleGroupList.ExportCsv | src/pages/Security/RoleList.tsx:178-190 | the CSV button as written, every cell wrapped in quotes; its read-back is stated by ExportCsvReadsBack and ExportCsvQuoteInDescription |
| RoleGroupList.ExportCsvEscaped | src/pages/Security/RoleList.tsx:178-190 | the same CSV with inner quotes doubled; it always reads back by ExportCsvEscapedReadsBack |
| RoleGroupList.ExportCsvReadsBack | src/pages/Security/RoleList.tsx:178-190 | the CSV as written reads back when no name, description or member list has a quote |
| RoleGroupList.ExportCsvEscapedReadsBack | src/pages/Security/RoleList.tsx:178-190 | with quotes doubled, the CSV always reads back |
| RoleGroupList.ExportCsvQuoteInDescription | src/pages/Security/RoleList.tsx:178-190 | a quote in a description breaks the read-back of its cell |
| RoleGroupList.NamedListPage.constructor | src/pages/Security/RoleList.tsx:46-56 | empty list, no error, page 0, 5 rows per page, sorted by name ascending |
| RoleGroupList.NamedListPage.Refresh | src/pages/Security/RoleList.tsx:79-110 | the filter-and-sort effect: the shown list is recomputed and the page returns to 0; everything else is kept |
| RoleGroupList.NamedListPage.SetItems | src/pages/Security/RoleList.tsx:64-65 | the loaded list replaces the records, the view is recomputed and the page returns to 0 |
| RoleGroupList.NamedListPage.HandleSearchChange | src/pages/Security/RoleList.tsx:112-114 | a new search term returns to page 0 and keeps the loaded records |
| RoleGroupList.NamedListPage.HandleSort | src/pages/Security/RoleList.tsx:130-142 | clicking the sorted column flips its direction; clicking another column sorts by it ascending |
| RoleGroupList.NamedListPage.HandlePageChange | src/pages/Security/RoleList.tsx:116-121 | only the page changes |
| RoleGroupList.NamedListPage.HandleRowsPerPageChange | src/pages/Security/RoleList.tsx:123-128 | the page size changes and the page returns to 0 |
| RoleGroupList.NamedListPage.HandleDelete | src/pages/Security/RoleList.tsx:152-164 | cancelled: nothing changes; deleted: the item is removed; failure: its message, or the fallback message |
| RoleGroupList.NamedListPage.Paginated | src/pages/Security/RoleList.tsx:289-292 | the shown page is the slice at page x rows, full when enough items remain |
| ListOps.FilterSpec | src/pages/Security/UserList.tsx:122-125 | filtering keeps the order and keeps exactly the elements that pass |
| ListOps.SortSorted | src/pages/Security/UserList.tsx:127-156 | sorting with a consistent comparator gives a sorted permutation |
| ListOps.PageOfSpec | src/pages/Security/UserList.tsx:166-178 | a page holds at most rows-per-page elements, taken in order from page x rows |
| ListOps.PagesCover | src/pages/Security/UserList.tsx:166-178 | the first n pages, concatenated, are the first n x rows elements |
| ListOps.ToggleSort | src/pages/Security/UserList.tsx:180-192 | the new column is the clicked one, descending exactly when that column was sorted ascending |
| ListOps.ToggleSortTwice | src/pages/Security/UserList.tsx:180-192 | two clicks on the sorted column restore the sort |
| SortKeys.SortByKey | src/pages/Security/UserList.tsx:127-156 | sorting by a single-kind key orders the result ascending or descending by that key |
| SortKeys.SortDistinctStrings | src/modules/network/core/pages/PipelineList.tsx:108-120 | distinct strings sort into strictly increasing order of their UTF-16 code units (`Js.LexLess` over `Js.Utf16`) |
| Js.FirstPresent | src/modules/network/core/utils/localizationUtils.ts:22-34 | the result is empty exactly when no candidate is a non-empty string |
| Js.FirstPresentSpec | src/modules/network/core/utils/localizationUtils.ts:22-34 | the result is the first non-empty candidate |
| Js.ToLowerIdempotent | src/pages/Security/UserList.tsx:122-125 | lower-casing twice is lower-casing once |
| Js.IncludesAt | src/pages/Security/UserList.tsx:122-125 | `includes` holds exactly when the term occurs at some position |
| Js.ToLower | src/pages/Security/UserList.tsx:122-125 | the case mapping itself; what it promises is stated by ToLowerIdempotent |
| Js.Includes | src/pages/Security/UserList.tsx:122-125 | `includes` as a recursive search; IncludesAt shows it is "occurs at some index" |
| Js.LexLessTotal | src/modules/network/core/pages/PipelineList.tsx:108-120 | the default string order is total, irreflexive, transitive and asymmetric |
| Js.CodeUnits | src/modules/network/core/pages/PipelineList.tsx:119 | a character is one 16-bit code unit below U+10000, otherwise a high surrogate followed by a low surrogate |
| Js.Utf16 | src/modules/network/core/pages/PipelineList.tsx:119 | the UTF-16 encoding is one to two units per character, and empty only for the empty string |
| Js.Utf16Injective | src/modules/network/core/pages/PipelineList.tsx:119 | distinct strings have distinct UTF-16 encodings |
| Js.Length | src/pages/Security/ResetPassword.tsx:87 | JS `length` is the number of UTF-16 units: between |s| and 2|s|, equal to |s| exactly when every character is below U+10000 |
| Js.LexLess | src/modules/network/core/pages/PipelineList.tsx:119 | the default `sort` order: code-unit order of the UTF-16 encodings; its laws are stated by LexLessTotal |
| Js.SurrogatePairBeforeHighBmp | src/modules/network/core/pages/PipelineList.tsx:119 | a string starting outside the Basic Multilingual Plane sorts before one starting at U+E000..U+FFFF, unlike scalar-value order |
| Js.BmpCharsCompareByValue | src/modules/network/core/pages/PipelineList.tsx:119 | strings whose first characters differ and are both below U+10000 compare by those characters' values |
| Js.SplitJoin | scripts/download-tiles.py:173-176 | splitting a joined list on a separator the parts lack gives the parts back |
| Js.DigitsValueOfNat | scripts/download-tiles.py:173-176 | a number's decimal text has that value |
| Js.IntToStringInjective | src/pages/Security/UserList.tsx:243-251 | distinct numbers have distinct decimal texts |
| Js.TrimEmptyIffAllWhite | src/modules/common/administration/services/StructureService.ts:60-67 | trimming yields "" exactly when every character is ECMAScript white space or a line terminator (U+3000, U+2028 and the other Unicode spaces included) |
| Js.TrimIdempotent | src/modules/common/administration/services/StructureService.ts:60-67 | trimming twice is trimming once, for the full ECMAScript white-space set |
| Js.Trim | src/modules/common/administration/services/StructureService.ts:60-67 | the trimmed text is the input with a prefix and a suffix of ECMAScript white space and line terminators cut off, and nothing else; it neither starts nor ends with such a character |
| Js.TrimStart | src/modules/common/administration/services/StructureService.ts:60-67 | a suffix of the input; every character removed is white space, and what is left does not start with one |
| Js.TrimEnd | src/modules/common/administration/services/StructureService.ts:60-67 | a prefix of the input; every character removed is white space, and what is left does not end with one |
| Js.Or | src/modules/network/core/pages/PipelineList.tsx:84-94 | `a or b` is a when a is truthy, otherwise b |
| NetworkLocalization.FallbackOrder | src/modules/network/core/utils/localizationUtils.ts:22-34 | the candidates are the three translations in the language's order, then the name |
| NetworkLocalization.LocalizedName | src/modules/network/core/utils/localizationUtils.ts:22-34 | a missing entity gives the empty name; the rest is stated by LocalizedNameIsAField and PreferredLanguageWins |
| NetworkLocalization.LocalizedNameIsAField | src/modules/network/core/utils/localizationUtils.ts:22-34 | the name shown is one of the entity's fields, and is empty exactly when all are empty |
| NetworkLocalization.PreferredLanguageWins | src/modules/network/core/utils/localizationUtils.ts:22-34 | Arabic and French show their own translation when present; every other language prefers English |
| NetworkLocalization.NameIsLastResort | src/modules/network/core/utils/localizationUtils.ts:22-34 | the plain name is shown only when no translation exists |
| NetworkLocalization.RegionalTagFallsBackToEnglish | src/modules/network/core/utils/localizationUtils.ts:22-34 | "fr-FR" is not normalised and is treated as English |
| NetworkLocalization.SortByLocalizedNameSpec | src/modules/network/core/utils/localizationUtils.ts:42-51 | sorting gives a permutation ordered by the localised name |
| NetworkLocalization.SortByLocalizedName | src/modules/network/core/utils/localizationUtils.ts:42-51 | the sorted copy holds the same entities, each as often |
| AdminLocalization.Normalize | src/modules/common/administration/utils/localizationUtils.ts:26 | the language is cut to at most two lower-case letters |
| AdminLocalization.NormalizeIdempotent | src/modules/common/administration/utils/localizationUtils.ts:26 | normalising twice is normalising once |
| AdminLocalization.FallbackOrder | src/modules/common/administration/utils/localizationUtils.ts:28-36 | the three designations, in the order the language tries them |
| AdminLocalization.LocalizedName | src/modules/common/administration/utils/localizationUtils.ts:19-37 | a null or undefined entity gives the empty name; the rest is stated by LocalizedNameIsADesignation |
| AdminLocalization.LocalizedNameNormalized | src/modules/common/administration/utils/localizationUtils.ts:19-37 | the name depends only on the normalised language |
| AdminLocalization.RegionalTagNormalized | src/modules/common/administration/utils/localizationUtils.ts:19-37 | "FR-ca" is treated as "fr" |
| AdminLocalization.LocalizedNameIsADesignation | src/modules/common/administration/utils/localizationUtils.ts:19-37 | the name shown is one of the three designations, and is empty exactly when all are |
| AdminLocalization.SortByLocalizedNameSpec | src/modules/common/administration/utils/localizationUtils.ts:45-54 | sorting gives a permutation ordered by the localised name |
| AdminLocalization.SortByLocalizedName | src/modules/common/administration/utils/localizationUtils.ts:45-54 | the sorted copy holds the same items, each as often |
| Formatters.FormatVolume | src/modules/dashboard/utils/formatters.ts:15-18 | a missing volume is "-", and only a missing one |
| Formatters.FormatNumber | src/modules/dashboard/utils/formatters.ts:7-13 | a missing number is "-" |
| Formatters.FormatPressure | src/modules/dashboard/utils/formatters.ts:20-23 | a missing pressure is "-", and only a missing one |
| Formatters.FormatPercentage | src/modules/dashboard/utils/formatters.ts:25-28 | a missing percentage is "-", and only a missing one |
| Formatters.UnitFollowsNumber | src/modules/dashboard/utils/formatters.ts:7-28 | volumes are 0-decimal numbers plus " m³", pressures 1-decimal numbers plus " bar", percentages 2-decimal numbers plus "%" |
| Formatters.FormatTime | src/modules/dashboard/utils/formatters.ts:39-42 | a present time is shown as is, a missing or empty one as "-" |
| Formatters.FormatTimeIdempotent | src/modules/dashboard/utils/formatters.ts:39-42 | formatting a formatted time changes nothing |
| Formatters.VolumeStatusColor | src/modules/dashboard/utils/formatters.ts:44-57 | the colour is green, red, orange or grey |
| Formatters.PressureStatusColor | src/modules/dashboard/utils/formatters.ts:59-72 | the colour is green, blue, red or grey |
| Formatters.VolumeColorTable | src/modules/dashboard/utils/formatters.ts:44-57 | grey exactly for unknown volume statuses; the three known ones have distinct colours |
| Formatters.PressureColorTable | src/modules/dashboard/utils/formatters.ts:59-72 | grey exactly for unknown pressure statuses; the three known ones have distinct colours |
| Formatters.StatusLabel | src/modules/dashboard/utils/formatters.ts:74-93 | an unknown status is shown as itself |
| Formatters.StatusLabelsAreNotCodes | src/modules/dashboard/utils/formatters.ts:74-93 | each known status gets a label that is not itself a status code |
| Formatters.StatusLabelsDistinct | src/modules/dashboard/utils/formatters.ts:74-93 | distinct known statuses get distinct labels |
| Formatters.ColouredStatusesAreLabelled | src/modules/dashboard/utils/formatters.ts:44-93 | every status with a colour also has a label |
| NestedNavbar.GroupKey | src/components/Layout/NestedNavbar.tsx:129-139 | an item's group is its own group when present, otherwise a non-empty default |
| NestedNavbar.Grouped | src/components/Layout/NestedNavbar.tsx:129-139 | the grouping specification; it has no more keys than items |
| NestedNavbar.GroupMenuItems | src/components/Layout/NestedNavbar.tsx:129-139 | the grouping loop computes the grouping specification |
| NestedNavbar.GroupedKeys | src/components/Layout/NestedNavbar.tsx:129-139 | the group keys are distinct, in order of first appearance, and exactly the groups that occur |
| NestedNavbar.GroupedMembers | src/components/Layout/NestedNavbar.tsx:129-139 | each group holds exactly its items, in menu order |
| NestedNavbar.EveryItemInOneGroup | src/components/Layout/NestedNavbar.tsx:129-139 | every item is in its own group and in no other |
| NestedNavbar.GroupedCount | src/components/Layout/NestedNavbar.tsx:129-139 | the groups together hold as many items as the menu |
| NestedNavbar.GetIcon | src/components/Layout/NestedNavbar.tsx:141-144 | the icon comes from the menu's table, and a missing label gets the storage icon |
| NestedNavbar.IconTable | src/components/Layout/NestedNavbar.tsx:42-85 | the icon table of each menu |
| NestedNavbar.MenuState.constructor | src/components/Layout/NestedNavbar.tsx:224-225 | no anchor and no open menu |
| NestedNavbar.IconsDependOnMenu | src/components/Layout/NestedNavbar.tsx:42-85 | the same label can get different icons in different menus |
| NestedNavbar.MenuState.HandleMenuOpen | src/components/Layout/NestedNavbar.tsx:261-267 | opening a menu anchors only that menu and marks it open |
| NestedNavbar.MenuState.HandleMenuClose | src/components/Layout/NestedNavbar.tsx:269-272 | closing clears all anchors and the open menu |
| NestedNavbar.MenuState.HandleNavigate | src/components/Layout/NestedNavbar.tsx:274-277 | navigating closes every menu |
| PipelineStatusTable.Sign | src/modules/dashboard/components/PipelineStatusTable.tsx:66-68 | the comparison result has the sign of the numeric difference |
| PipelineStatusTable.CellCompare | src/modules/dashboard/components/PipelineStatusTable.tsx:53-69 | a missing left value gives 1 whatever the right value; otherwise a missing right value gives -1; two numbers compare by their difference, reversed for a descending sort |
| PipelineStatusTable.StringAgainstNumber | src/modules/dashboard/components/PipelineStatusTable.tsx:65-67 | a string against a number is compared through `Number(s)`: a numeric string compares like its number, one that converts to NaN ties (0), one that converts to an infinity goes to that end |
| PipelineStatusTable.NumericStringComparesAsNumber | src/modules/dashboard/components/PipelineStatusTable.tsx:65-67 | ascending, the string "12" goes after the number 5 |
| PipelineStatusTable.Minus | src/modules/dashboard/components/PipelineStatusTable.tsx:65-67 | JavaScript subtraction: NaN exactly when an operand is NaN or both are the same infinity, the plain difference of two finite numbers |
| PipelineStatusTable.SortSign | src/modules/dashboard/components/PipelineStatusTable.tsx:65-67 | the sort reads NaN as 0, a finite result by its sign and an infinity as ±1 |
| PipelineStatusTable.CellCompareInconsistent | src/modules/dashboard/components/PipelineStatusTable.tsx:57-58 | two missing values compare as 1 both ways, so the comparator is not consistent |
| PipelineStatusTable.CorrectedAgrees | src/modules/dashboard/components/PipelineStatusTable.tsx:53-69 | the corrected comparator agrees with the original whenever at most one value is missing and both values are the same kind |
| PipelineStatusTable.CorrectedConsistent | src/modules/dashboard/components/PipelineStatusTable.tsx:53-69 | the corrected comparator is a consistent ordering |
| PipelineStatusTable.Filtered | src/modules/dashboard/components/PipelineStatusTable.tsx:71-74 | at most as many rows, each a row whose name or code contains the term |
| PipelineStatusTable.FilteredSpec | src/modules/dashboard/components/PipelineStatusTable.tsx:71-74 | a row is kept exactly when its name or code contains the term, ignoring case, in the original order |
| PipelineStatusTable.SortedData | src/modules/dashboard/components/PipelineStatusTable.tsx:76 | whatever the comparator, the sorted table is a permutation of the filtered rows |
| PipelineStatusTable.CorrectedSortedDataOrdered | src/modules/dashboard/components/PipelineStatusTable.tsx:53-76 | with the corrected comparator the table is ordered by the chosen column |
| PipelineStatusTable.RequestSort | src/modules/dashboard/components/PipelineStatusTable.tsx:46-50 | the new column is the clicked one, descending exactly when it was the ascending sort column |
| PipelineStatusTable.RequestSortIsToggle | src/modules/dashboard/components/PipelineStatusTable.tsx:46-50 | a header click behaves like the list pages' sort toggle |
| PipelineStatusTable.TableState.HandleRequestSort | src/modules/dashboard/components/PipelineStatusTable.tsx:46-50 | a header click sorts by that column, descending exactly when it was sorted ascending; the search term is kept |
| PipelineStatusTable.TableState.constructor | src/modules/dashboard/components/PipelineStatusTable.tsx:42-44 | ascending by pipeline name, empty search |
| PipelineStatusTable.TableState.SetSearchTerm | src/modules/dashboard/components/PipelineStatusTable.tsx:89 | only the search term changes |
| PipelineStatusTable.TableState.Rows | src/modules/dashboard/components/PipelineStatusTable.tsx:71-76 | the rows shown are a permutation of the rows matching the search |
| NetworkLists.Normalize | src/modules/network/core/pages/PipelineList.tsx:84-94 | an array reply is the list; otherwise the first truthy of data, content or the collection key, when it is an array; otherwise none |
| NetworkLists.FacetName | src/modules/network/core/pages/PipelineList.tsx:108-134 | the localised name of the nested entity, else the flat name |
| NetworkLists.FacetOption | src/modules/network/core/pages/PipelineList.tsx:108-134 | an option is offered for a present entity even when its name is empty, and for a non-empty flat name |
| NetworkLists.VendorOption | src/modules/network/core/pages/PipelineList.tsx:136-146 | a vendor option is offered exactly when the vendor's name is non-empty |
| NetworkLists.AvailableOptions | src/modules/network/core/pages/PipelineList.tsx:108-160 | the options are exactly the rows' candidate names, without duplicates, in increasing order |
| NetworkLists.FilteredPipelinesSpec | src/modules/network/core/pages/PipelineList.tsx:163-195 | a pipeline is kept exactly when it matches the search and every selector, in the original order |
| NetworkLists.FilteredPipelines | src/modules/network/core/pages/PipelineList.tsx:163-195 | at most as many pipelines, each one that passes the search and every selector |
| NetworkLists.NoPipelineFiltersKeepAll | src/modules/network/core/pages/PipelineList.tsx:380-386 | with no filters every pipeline is shown |
| NetworkLists.PipelineSearchIgnoresCase | src/modules/network/core/pages/PipelineList.tsx:180-186 | search terms that differ only in case show the same pipelines |
| NetworkLists.PipelineOptionShowsItsRow | src/modules/network/core/pages/PipelineList.tsx:108-193 | choosing any offered option keeps the row it came from |
| NetworkLists.SelectPipelines | src/modules/network/core/pages/PipelineList.tsx:524-566 | the filters after choosing one selector value from cleared filters, as used by PipelineOptionShowsItsRow |
| NetworkLists.FilteredAssetsSpec | src/modules/network/core/pages/TerminalList.tsx:149-180 | an asset is kept exactly when it matches the search and every selector, in the original order |
| NetworkLists.FilteredAssets | src/modules/network/core/pages/TerminalList.tsx:149-180 | at most as many assets, each one that passes the search and every selector |
| NetworkLists.NoAssetFiltersKeepAll | src/modules/network/core/pages/TerminalList.tsx:337-342 | with no filters every asset is shown |
| NetworkLists.AssetSearchIgnoresCase | src/modules/network/core/pages/TerminalList.tsx:149-180 | search terms that differ only in case show the same assets |
| NetworkLists.AssetOptionShowsItsRow | src/modules/network/core/pages/TerminalList.tsx:108-180 | choosing any offered option keeps the row it came from |
| NetworkLists.SelectAssets | src/modules/network/core/pages/TerminalList.tsx:480-508 | the filters after choosing one selector value from cleared filters, as used by AssetOptionShowsItsRow |
| NetworkLists.ErrorText | src/modules/network/core/pages/PipelineList.tsx:98-101 | the error shown is the thrown message, or the fallback when the message is empty |
| NetworkLists.PipelineListPage.constructor | src/modules/network/core/pages/PipelineList.tsx:56-69 | no rows, no error, every filter at "all", language from i18n or "en" |
| NetworkLists.PipelineListPage.Load | src/modules/network/core/pages/PipelineList.tsx:78-105 | a reply is normalised into the rows and clears the error; a throw empties the rows and sets the error |
| NetworkLists.PipelineListPage.SetSearchText | src/modules/network/core/pages/PipelineList.tsx:508 | only the search text changes |
| NetworkLists.PipelineListPage.SetSelector | src/modules/network/core/pages/PipelineList.tsx:524-566 | only the chosen selector changes |
| NetworkLists.PipelineListPage.HandleClearFilters | src/modules/network/core/pages/PipelineList.tsx:380-386 | all filters are reset, and then every pipeline is shown |
| NetworkLists.PipelineListPage.Options | src/modules/network/core/pages/PipelineList.tsx:108-160 | the option list of a column is the sorted set of its candidate names |
| NetworkLists.AssetListPage.constructor | src/modules/network/core/pages/TerminalList.tsx:57-69 | no rows, no error, every filter at "all", language from i18n or "en" |
| NetworkLists.AssetListPage.Load | src/modules/network/core/pages/TerminalList.tsx:78-105 | a reply is normalised under the page's collection key; a throw empties the rows and sets the page's error |
| NetworkLists.AssetListPage.SetSearchText | src/modules/network/core/pages/TerminalList.tsx:464 | only the search text changes |
| NetworkLists.AssetListPage.SetSelector | src/modules/network/core/pages/TerminalList.tsx:480-508 | only the chosen selector changes |
| NetworkLists.AssetListPage.HandleClearFilters | src/modules/network/core/pages/TerminalList.tsx:337-342 | all filters are reset, and then every asset is shown |
| NetworkLists.AssetListPage.Options | src/modules/network/core/pages/TerminalList.tsx:108-145 | the option list of a column is the sorted set of its candidate names |
| MailList.CountOr | src/modules/common/communication/pages/MailList.tsx:154-166 | the total is the reported count when it is a non-zero number, else the list length |
| MailList.Extract | src/modules/common/communication/pages/MailList.tsx:145-171 | arrays, pages and wrapped replies give their list and count; anything else gives nothing and 0 |
| MailList.LookupRows | src/modules/common/communication/pages/MailList.tsx:107-116 | the lookup list is the reply, its data or its content when that is an array, else empty |
| MailList.RowId | src/modules/common/communication/pages/MailList.tsx:178-181 | a row keeps its non-zero id, else takes its index |
| MailList.WithIds | src/modules/common/communication/pages/MailList.tsx:178-181 | the id assignment itself; what it promises is stated by WithIdsKeepsDistinctIds and WithIdsNumbersRows |
| MailList.WithIdsKeepsDistinctIds | src/modules/common/communication/pages/MailList.tsx:178-181 | rows that all have distinct non-zero ids keep them |
| MailList.WithIdsNumbersRows | src/modules/common/communication/pages/MailList.tsx:178-181 | rows without ids are numbered by position |
| MailList.IndexIdCanCollide | src/modules/common/communication/pages/MailList.tsx:178-181 | a row numbered by its index can take the id of another row |
| MailList.IdToCheck | src/modules/common/communication/pages/MailList.tsx:213-218 | the direct id when non-zero, else the nested object's id |
| MailList.FilteredMailsSpec | src/modules/common/communication/pages/MailList.tsx:200-226 | a mail is kept exactly when it matches the search, the nature and the type, in the original order |
| MailList.FilteredMails | src/modules/common/communication/pages/MailList.tsx:200-226 | at most as many mails, each one that passes the search, nature and type filters |
| MailList.NoMailFiltersKeepAll | src/modules/common/communication/pages/MailList.tsx:368 | with no filters every mail is shown |
| MailList.MissingNatureExcluded | src/modules/common/communication/pages/MailList.tsx:213-215 | a mail without a nature is hidden once a nature is selected |
| MailList.MissingTypeExcluded | src/modules/common/communication/pages/MailList.tsx:218-220 | a mail without a type is hidden once a type is selected |
| MailList.SelectedNatureIsShared | src/modules/common/communication/pages/MailList.tsx:213-215 | all mails shown under a nature filter share that nature id |
| MailList.MailListPage.constructor | src/modules/common/communication/pages/MailList.tsx:73-89 | no mails, count 0, no error, no filter, page 0 of size 25 |
| MailList.MailListPage.Load | src/modules/common/communication/pages/MailList.tsx:145-195 | a reply sets the extracted mails, with ids, and the count; a throw empties them and sets the error |
| MailList.MailListPage.SetSearchText | src/modules/common/communication/pages/MailList.tsx:418 | only the search text changes |
| MailList.MailListPage.HandleNatureChange | src/modules/common/communication/pages/MailList.tsx:375-377 | only the nature selection changes |
| MailList.MailListPage.HandleTypeChange | src/modules/common/communication/pages/MailList.tsx:379-381 | only the type selection changes |
| MailList.MailListPage.HandleClearFilters | src/modules/common/communication/pages/MailList.tsx:368 | all filters are reset, and then every mail is shown |
| MailList.MailListPage.HandlePaginationModelChange | src/modules/common/communication/pages/MailList.tsx:383-385 | only the page and page size change |
| GeoService.ExtractData | src/modules/network/geo/services/geoService.ts:33-49 | an array is the list, a page's content is the list, anything else is empty |
| GeoService.GetAllInfrastructure | src/modules/network/geo/services/geoService.ts:54-104 | a failure yields three empty lists; otherwise each list is extracted from its own reply |
| GeoService.WithinBoundsSpec | src/modules/network/geo/services/geoService.ts:119-131 | a site is kept exactly when it lies inside the box, edges included, in order |
| GeoService.WithinBounds | src/modules/network/geo/services/geoService.ts:119-131 | at most as many sites, each one inside the box |
| GeoService.GetInfrastructureInBounds | src/modules/network/geo/services/geoService.ts:110-133 | a failed fetch gives three empty lists; InBoundsQuerySpec states that each list is the fetched one filtered by the box |
| GeoService.InBoundsQuerySpec | src/modules/network/geo/services/geoService.ts:110-133 | the bounded query is the unbounded one filtered by the box, list by list |
| GeoService.LargerBoxKeepsMore | src/modules/network/geo/services/geoService.ts:119-131 | a box enclosing another keeps every site the smaller one keeps |
| GeoService.InvertedBoxIsEmpty | src/modules/network/geo/services/geoService.ts:119-131 | a box with south above north or west beyond east keeps nothing |
| GeoService.WithinBoundsIdempotent | src/modules/network/geo/services/geoService.ts:119-131 | filtering twice by the same box is filtering once |
| StructureService.NumberOr | src/modules/common/administration/services/StructureService.ts:48-52 | a missing or zero number falls back to the default |
| StructureService.SearchQuery | src/modules/common/administration/services/StructureService.ts:60-67 | no search gives no q; a q that is sent is non-empty and starts and ends with no white space |
| StructureService.RequestFor | src/modules/common/administration/services/StructureService.ts:47-73 | the search endpoint exactly when q is sent; the size is never 0, the sort never empty, and a type id is never 0 |
| StructureService.GetPageable | src/modules/common/administration/services/StructureService.ts:47-73 | page, size and sort default to 0, 25 and "code,asc"; a zero type id is dropped; the search endpoint and trimmed q exactly when the search, trimmed of every ECMAScript white-space and line-terminator character, is non-empty |
| StructureService.BlankSearchIsNoSearch | src/modules/common/administration/services/StructureService.ts:60-67 | a search made only of ECMAScript white space and line terminators (e.g. U+3000) sends the same request as no search |
| StructureService.UnicodeBlankSearchIsNoSearch | src/modules/common/administration/services/StructureService.ts:60-67 | a search of an ideographic space and a line separator sends the same request as no search |
| StructureService.ZeroTypeIdIsDropped | src/modules/common/administration/services/StructureService.ts:55-57 | type id 0 sends the same request as no type id |
| StructureService.SearchIsTrimmed | src/modules/common/administration/services/StructureService.ts:60-67 | a search and its trimmed form (JS `trim`'s full white-space set) send the same request |
| MapFilters.Toggled | src/modules/network/geo/hooks/useMapFilters.ts:27-32 | toggling flips one layer and keeps the others |
| MapFilters.AllSetTo | src/modules/network/geo/hooks/useMapFilters.ts:34-41 | every layer gets the given value |
| MapFilters.ToggleTwice | src/modules/network/geo/hooks/useMapFilters.ts:27-32 | toggling a layer twice restores the filters |
| MapFilters.TogglesCommute | src/modules/network/geo/hooks/useMapFilters.ts:27-32 | toggles of two layers commute |
| MapFilters.MapFilterState.constructor | src/modules/network/geo/hooks/useMapFilters.ts:20-25 | every layer starts shown |
| MapFilters.MapFilterState.ToggleFilter | src/modules/network/geo/hooks/useMapFilters.ts:27-32 | one layer is flipped, the others are kept |
| MapFilters.MapFilterState.SetAllFilters | src/modules/network/geo/hooks/useMapFilters.ts:34-41 | every layer is set to the value |
| Sidebar.Toggled | src/shared/components/Layout/Sidebar.tsx:110-114 | the toggle itself; what it promises is stated by ToggledMembership and OpenThenCloseRestores |
| Sidebar.ToggledMembership | src/shared/components/Layout/Sidebar.tsx:110-114 | after a toggle a title is expanded exactly when it is the clicked one xor it was expanded |
| Sidebar.ToggledDistinct | src/shared/components/Layout/Sidebar.tsx:110-114 | toggling keeps the expanded list free of duplicates |
| Sidebar.ToggleTwice | src/shared/components/Layout/Sidebar.tsx:110-114 | clicking twice restores the set of expanded titles |
| Sidebar.OpenThenCloseRestores | src/shared/components/Layout/Sidebar.tsx:110-114 | opening then closing a section restores the exact list |
| Sidebar.SidebarState.constructor | src/shared/components/Layout/Sidebar.tsx:106 | "System" starts expanded |
| Sidebar.SidebarState.HandleItemClick | src/shared/components/Layout/Sidebar.tsx:108-118 | a section toggles and does not navigate; a leaf keeps the list and navigates to its path when it has one |
| ProtectedRoute.Guard | src/shared/components/ProtectedRoute.tsx:18-55 | spinner while loading; login when signed out; the page exactly when no role is required or the user holds one; otherwise unauthorized |
| ProtectedRoute.MoreRolesNeverHurt | src/shared/components/ProtectedRoute.tsx:38-51 | granting a user more roles never takes away access |
| ProtectedRoute.NoRolesOnlyOpenRoutes | src/shared/components/ProtectedRoute.tsx:38-51 | a user with no roles, or no user, is refused every route that requires a role |
| ResetPassword.FirstFailure | src/pages/Security/ResetPassword.tsx:76-103 | the first failing check decides the message: username, new password, length under 6 UTF-16 code units (JS `length`), confirmation, mismatch |
| ResetPassword.ValidIff | src/pages/Security/ResetPassword.tsx:76-103 | the form is valid exactly when the username is set, the password is at least 6 UTF-16 code units long (JS `length`, so a character outside the Basic Multilingual Plane counts 2) and the confirmation equals it |
| ResetPassword.StrengthBands | src/pages/Security/ResetPassword.tsx:309-341 | by the length in UTF-16 code units: under 6 weak and red, under 8 fair, under 12 good, otherwise strong and green |
| ResetPassword.StrengthCaption | src/pages/Security/ResetPassword.tsx:332-341 | the caption is one of Weak, Fair, Good and Strong |
| ResetPassword.StrengthColor | src/pages/Security/ResetPassword.tsx:321-328 | the colour is one of the four band colours |
| ResetPassword.ThreeSurrogatePairsAreLongEnough | src/pages/Security/ResetPassword.tsx:87 | a password of three characters outside the Basic Multilingual Plane has JS length 6 and passes validation |
| ResetPassword.AcceptedPasswordIsNotWeak | src/pages/Security/ResetPassword.tsx:76-103 | a password the form accepts is never labelled weak |
| ResetPassword.SubmitDisabled | src/pages/Security/ResetPassword.tsx:374 | disabled while loading or while either password field is empty; ValidFormIsSubmittable relates it to validation |
| ResetPassword.ValidFormIsSubmittable | src/pages/Security/ResetPassword.tsx:374 | a valid form never has the submit button disabled when not loading |
| ResetPassword.ReplyError | src/pages/Security/ResetPassword.tsx:134-154 | 401 and 404 get their own messages; every failure gets a non-empty message |
| ResetPassword.ResetPasswordPage.constructor | src/pages/Security/ResetPassword.tsx:33-43 | empty form, no message, not loading |
| ResetPassword.ResetPasswordPage.Mount | src/pages/Security/ResetPassword.tsx:46-64 | the username is taken from the token's sub, else its username claim; an undecodable token sets the error |
| ResetPassword.ResetPasswordPage.HandleInputChange | src/pages/Security/ResetPassword.tsx:66-74 | one field changes and both messages clear |
| ResetPassword.ResetPasswordPage.ValidateForm | src/pages/Security/ResetPassword.tsx:76-103 | the result is the form's validity, with the length counted in UTF-16 code units; when invalid, the error is the first failure |
| ResetPassword.ResetPasswordPage.HandleResetPassword | src/pages/Security/ResetPassword.tsx:105-158 | sent exactly when valid; success sets the success message; failure sets the reply's error |
| ResetPassword.ResetPasswordPage.AfterResetDelay | src/pages/Security/ResetPassword.tsx:126-133 | both password fields and the success message clear |
| ResetPassword.ResetPasswordPage.HandleClear | src/pages/Security/ResetPassword.tsx:160-168 | the passwords and messages clear, the username stays, and submitting is disabled |
| EditPages.Find | src/pages/Security/RoleEdit.tsx:56 | the first available item with the id, or none when no item has it |
| EditPages.MatchById | src/pages/Security/RoleEdit.tsx:54-59 | the matched items are available items whose id the record held, never more than it held, and every held item whose id is available has its match in the result |
| EditPages.MatchByIdIsLookupOfAvailable | src/pages/Security/RoleEdit.tsx:54-59 | the matched items are, in record order, the lookups of exactly the held items whose id is available |
| EditPages.AllFoundKeepsOrder | src/pages/Security/RoleEdit.tsx:54-59 | when every held id is available, matching keeps every item in order |
| EditPages.Selection | src/pages/Security/RoleEdit.tsx:53-59 | a record with no items has an empty selection |
| EditPages.NameError | src/pages/Security/RoleEdit.tsx:90-98 | a name is accepted exactly when its JS `length` (UTF-16 code units) is 2 to 50; an empty one is "required" |
| EditPages.SurrogatePairNameAccepted | src/pages/Security/RoleEdit.tsx:90-98 | a one-character name outside the Basic Multilingual Plane has JS length 2 and is accepted |
| EditPages.EditPage.constructor | src/pages/Security/RoleEdit.tsx:25-35 | an empty record with an empty item list, no message, not saving |
| EditPages.EditPage.Load | src/pages/Security/RoleEdit.tsx:36-76 | a load sets the available items and, when editing, the stored record with matched items; a failure sets the error, keeping the available list when it arrived before the record request failed |
| EditPages.EditPage.SetName | src/pages/Security/RoleEdit.tsx:78-83 | only the name changes |
| EditPages.EditPage.SetItems | src/pages/Security/RoleEdit.tsx:78-83 | only the items change |
| EditPages.EditPage.HandleSave | src/pages/Security/RoleEdit.tsx:85-126 | saved exactly when the name is valid; success sets the message and navigates to the list; failure sets the error |

## Left out

- Network, disk and timer effects are parameters or are left out: HTTP replies, `fetch`/axios calls, `setTimeout` delays (only their effect is modelled), `time.sleep`, React rendering, loading flags beyond the submit button, `console` output and `alert`.
- The tile download's thread pool is run sequentially in submission order. The counters do not depend on the order; the progress bar text is not modelled.
- The Mercator row uses `asinh(tan(radians(lat))) / pi`. It is a function parameter `merc`, assumed only to be non-decreasing. The Algeria facts assume bounds on `merc(37.5)` and `merc(19.0)` that match the real values (about 0.225 and 0.107).
- Floating point is modelled with exact reals. Rounding of `lon/360` and of the Mercator formula is not modelled.
- The `--bbox` argument's float parsing is not modelled; the bounds are a `Bounds` value.
- Dafny strings are sequences of Unicode scalar values. JS `length` and the default `<` order work on UTF-16 code units, so they are modelled by `Js.Length` and `Js.LexLess` over the encoding `Js.Utf16`.
- `toLowerCase` folds ASCII letters only; Unicode case mapping is not modelled.
- AdminLocalization.Normalize: keeps the first two characters, where `substring(0, 2)` keeps two UTF-16 code units. The two differ only for a language tag starting with a character outside the Basic Multilingual Plane.
- `localeCompare`, `Number` on a string, `toLocaleString`, `toFixed` and date parsing are parameters (`compare`, `toNumber`, `render`, `localeOf`, `timeOf`). `formatDate` is not modelled because it only calls the platform's date formatter.
- `Object.keys` order is the record's field order, and prototype keys are not modelled.
- Excel and PDF exports are not modelled, except the security user Excel row mapping (`SecurityExport.ToExcelRow`).
- UserList's fetch transformation (default `locked = false`, `createdAt = now`) is not modelled. Users arrive already shaped.
- The Sidebar menu table, the ResetPassword POST body and the mail nature and type lookups' display are not modelled.
- JWT decoding is abstracted as a `Token` value.
- GeoService: sites with null coordinates are not modelled (the model's coordinates are always numbers).
- MailList: non-numeric totals in the reply are not modelled beyond the `Json` cases.
- MailList.IndexIdCanCollide documents that `mail.id || index` can give two rows the same grid id. The page has no intended behaviour to correct it to, so it is a property, not a finding.
- PipelineStatusTable.TableState.Rows states a permutation of the filtered rows only. The page's comparator is not consistent (see Findings), so no ordering holds for the page as written; the ordering is proved for the corrected comparator.
- TileMath.CalculateTotalTiles returns the total of the script's own (row-swapped) range, which can be negative. It does not promise a non-negative count, because the script does not.
- TileMath.ParseInt: accepts ASCII decimal digits with an optional leading '+', as Python's `int()` does. Python also accepts surrounding white space, digit-group underscores, non-ASCII decimal digits (such as "٣") and a leading '-'; those arguments are refused here.
- PipelineStatusTable.CellCompare: a number cell holds a finite real; a column value that is itself NaN or an infinity is not modelled (a string converting to one is).
- Formatters.FormatNumber states only the missing-value case, because number rendering is the platform's `toLocaleString`.

## Findings

| source | as written | input that shows it | evidently intended | confidence | as-written member | corrected member |
|---|---|---|---|---|---|---|
| scripts/download-tiles.py:45-49 | `get_tile_range` takes `y_max` from the north edge and `y_min` from the south edge, but tile rows grow southward | the default Algeria box at zoom 6: north row below south row, so every `range(y_min, y_max + 1)` is empty and the progress total is negative | y_min from the north edge, y_max from the south edge | high, not executed | TileMath.AlgeriaDefaultRun | TileMath.CorrectedTotalMatchesTasks |
| src/modules/system/security/utils/exportUtils.ts:21-26 | text fields are wrapped in quotes without doubling inner quotes | username `a"b` | quotes doubled inside quoted cells (RFC 4180, section 2), and the created-at text quoted as well, since as written it is bare | high, not executed | SecurityExport.ExportCsvQuoteInUsername | SecurityExport.ExportCsvEscapedReadsBack |
| src/pages/Security/UserList.tsx:253-256 | every cell is wrapped in quotes without doubling inner quotes | username `a"b` | quotes doubled inside quoted cells | high, not executed | UserList.ExportCsvQuoteInUsername | UserList.ExportCsvEscapedReadsBack |
| src/pages/Security/RoleList.tsx:178-190 | role and group cells are wrapped in quotes without doubling inner quotes | description `a"b` | quotes doubled inside quoted cells | high, not executed | RoleGroupList.ExportCsvQuoteInDescription | RoleGroupList.ExportCsvEscapedReadsBack |
| src/modules/network/core/utils/exportUtils.ts:24 | object values are written as raw JSON, unquoted | a value `{"a":1,"b":2}` (JSON with a comma) | object cells quoted and escaped like strings | high, not executed | NetworkExport.ObjectCellSplits | NetworkExport.QuotedExportReadsBack |
| src/modules/dashboard/components/PipelineStatusTable.tsx:57-58 | a missing value compares greater than anything, including another missing value | two rows both missing the sort column: compare(a, b) = compare(b, a) = 1 | two missing values compare equal | medium, not executed | PipelineStatusTable.CellCompareInconsistent | PipelineStatusTable.CorrectedConsistent |
