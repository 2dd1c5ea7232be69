/**
 * `exportToCSV` of the network module: the header is the keys of the first
 * record, and every record gives one line with a cell per header key.
 */
module NetworkExport {
  import opened Js
  import opened Csv

  /** A property value as the exporter distinguishes it. */
  datatype Value =
    | Nullish                // null or undefined, including a key the record lacks
    | Object(json: string)   // an object or array, with its `JSON.stringify` text
    | Scalar(text: string)   // anything else, with its `String(value)` text

  /** A record's own properties in `Object.keys` order. */
  type Record = seq<(string, Value)>

  function Keys(r: Record): (ks: seq<string>)
    ensures |ks| == |r|
    ensures forall k :: 0 <= k < |r| ==> ks[k] == r[k].0
  {
    seq(|r|, k requires 0 <= k < |r| => r[k].0)
  }

  /** `row[header]`: the value stored under the key, undefined when the record lacks it. */
  function ValueAt(r: Record, key: string): (v: Value)
    ensures key !in Keys(r) ==> v == Nullish
    ensures v != Nullish ==> exists k :: 0 <= k < |r| && r[k] == (key, v)
  {
    if r == [] then Nullish
    else if r[0].0 == key then r[0].1
    else
      assert Keys(r[1..]) == Keys(r)[1..];
      ValueAt(r[1..], key)
  }

  /** The text a reader of the CSV should get back for a value. */
  function Text(v: Value): string {
    match v
    case Nullish => ""
    case Object(json) => json
    case Scalar(text) => text
  }

  /** The cell the exporter writes: empty, raw JSON, or the quoted and escaped string. */
  function WrittenCell(v: Value): (c: Cell)
    ensures c.text == Text(v)
  {
    match v
    case Nullish => Plain("")
    case Object(json) => Plain(json)
    case Scalar(text) => Quoted(text)
  }

  /** The same, with object cells quoted and escaped like every other text. */
  function QuotedObjectCell(v: Value): (c: Cell)
    ensures c.text == Text(v)
    ensures Readable(c)
  {
    match v
    case Nullish => Plain("")
    case Object(json) => Quoted(json)
    case Scalar(text) => Quoted(text)
  }

  function HeaderCells(keys: seq<string>): (cs: seq<Cell>)
    ensures |cs| == |keys|
    ensures forall k :: 0 <= k < |keys| ==> cs[k] == Plain(keys[k])
  {
    seq(|keys|, k requires 0 <= k < |keys| => Plain(keys[k]))
  }

  function RowCells(row: Record, keys: seq<string>, cellOf: Value -> Cell): (cs: seq<Cell>)
    ensures |cs| == |keys|
    ensures forall k :: 0 <= k < |keys| ==> cs[k] == cellOf(ValueAt(row, keys[k]))
  {
    seq(|keys|, k requires 0 <= k < |keys| => cellOf(ValueAt(row, keys[k])))
  }

  /** The header line and one line per record, all under the first record's keys. */
  function Lines(rows: seq<Record>, keys: seq<string>, cellOf: Value -> Cell): (ls: seq<seq<Cell>>)
    ensures |ls| == |rows| + 1
    ensures ls[0] == HeaderCells(keys)
    ensures forall i :: 0 <= i < |rows| ==> ls[i + 1] == RowCells(rows[i], keys, cellOf)
  {
    [HeaderCells(keys)] + seq(|rows|, i requires 0 <= i < |rows| => RowCells(rows[i], keys, cellOf))
  }

  /** The CSV text: nothing for a missing or empty list, else the header line and one line per record. */
  function ExportWith(data: Option<seq<Record>>, cellOf: Value -> Cell): (r: Option<string>)
    ensures r.None? <==> data.None? || data.value == []
  {
    if data.None? || data.value == [] then None
    else Some(Document(Lines(data.value, Keys(data.value[0]), cellOf)))
  }

  /** `exportToCSV(data, filename)` as written. */
  function ExportCsv(data: Option<seq<Record>>): (r: Option<string>)
    ensures r.None? <==> data.None? || data.value == []
  {
    ExportWith(data, WrittenCell)
  }

  /** What reading the export back should give: the keys, then each record's value texts under those keys. */
  function Table(rows: seq<Record>, keys: seq<string>): (t: seq<seq<string>>)
    ensures |t| == |rows| + 1 && t[0] == keys
    ensures forall i :: 1 <= i <= |rows| ==> |t[i]| == |keys|
    ensures forall i, k :: 1 <= i <= |rows| && 0 <= k < |keys| ==> t[i][k] == Text(ValueAt(rows[i - 1], keys[k]))
  {
    [keys] + seq(|rows|, i requires 0 <= i < |rows| => seq(|keys|, k requires 0 <= k < |keys| => Text(ValueAt(rows[i], keys[k]))))
  }

  /** The values the exporter has to read out of `rows` under `keys`. */
  predicate AllValues(rows: seq<Record>, keys: seq<string>, p: Value -> bool) {
    forall i, k :: 0 <= i < |rows| && 0 <= k < |keys| ==> p(ValueAt(rows[i], keys[k]))
  }

  predicate PlainKey(key: string) {
    ',' !in key && '\n' !in key && '"' !in key
  }

  /** The first record's keys can stand unquoted in the header line. */
  predicate PlainHeader(rows: seq<Record>) {
    rows != [] && |rows[0]| >= 1 && forall k :: 0 <= k < |rows[0]| ==> PlainKey(rows[0][k].0)
  }

  /**
   * Reading the CSV back gives the header keys and then, line by line, the
   * text of each record's value under each key, whenever every cell the
   * writer produces is one that reads back as its text.
   */
  lemma ExportWithReadsBack(data: Option<seq<Record>>, cellOf: Value -> Cell)
    requires data.Some? && PlainHeader(data.value)
    requires forall v :: cellOf(v).text == Text(v)
    requires AllValues(data.value, Keys(data.value[0]), (v: Value) => Readable(cellOf(v)))
    ensures Parse(ExportWith(data, cellOf).value) == Table(data.value, Keys(data.value[0]))
  {
    var rows := data.value;
    var keys := Keys(rows[0]);
    var lines := Lines(rows, keys, cellOf);
    forall i, k | 0 <= i < |lines| && 0 <= k < |lines[i]| ensures Readable(lines[i][k]) {
      if i > 0 {
        assert lines[i][k] == cellOf(ValueAt(rows[i - 1], keys[k]));
      }
    }
    ParseDocument(lines);
    var p := Parse(Document(lines));
    var table := Table(rows, keys);
    forall j | 0 <= j < |p| ensures p[j] == table[j] {
      assert p[j] == Texts(lines[j]);
      if j > 0 {
        assert lines[j] == RowCells(rows[j - 1], keys, cellOf);
      }
    }
  }

  /** With object cells quoted, every export reads back exactly, whatever the values hold. */
  lemma QuotedExportReadsBack(data: Option<seq<Record>>)
    requires data.Some? && PlainHeader(data.value)
    ensures Parse(ExportWith(data, QuotedObjectCell).value) == Table(data.value, Keys(data.value[0]))
  {
    ExportWithReadsBack(data, QuotedObjectCell);
  }

  /** As written, the export reads back exactly when no object's JSON holds a comma, line break or quote. */
  lemma ExportCsvReadsBack(data: Option<seq<Record>>)
    requires data.Some? && PlainHeader(data.value)
    requires AllValues(data.value, Keys(data.value[0]), (v: Value) => v.Object? ==> PlainKey(v.json))
    ensures Parse(ExportCsv(data).value) == Table(data.value, Keys(data.value[0]))
  {
    var rows := data.value;
    var keys := Keys(rows[0]);
    forall i, k | 0 <= i < |rows| && 0 <= k < |keys| ensures Readable(WrittenCell(ValueAt(rows[i], keys[k]))) {
      var v := ValueAt(rows[i], keys[k]);
      assert v.Object? ==> PlainKey(v.json);
    }
    ExportWithReadsBack(data, WrittenCell);
  }

  /** A key the first record has and a later record lacks gives that record an empty cell. */
  lemma MissingKeyEmptyCell(rows: seq<Record>, i: nat, k: nat)
    requires 0 < i < |rows| && k < |rows[0]|
    requires rows[0][k].0 !in Keys(rows[i])
    ensures RowCells(rows[i], Keys(rows[0]), WrittenCell)[k] == Plain("")
  {
  }

  /** As written, an object whose JSON holds a comma turns its one value into two cells on reading. */
  lemma ObjectCellSplits()
    ensures WrittenCell(Object("a,b")) == Plain("a,b")
    ensures |ReadLine(Line([WrittenCell(Object("a,b"))])).0| == 2
  {
    PlainCommaSplits();
  }
}
