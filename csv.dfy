/**
 * The CSV text the exporters build: cells joined by `,`, lines joined by
 * `\n`, and a cell either written plain or wrapped in double quotes. A
 * reader for that text (quoted cells may hold commas, line breaks and
 * doubled quotes) is the partner against which the writers are proved.
 */
module Csv {
  import opened Js

  /** `s.replace(/"/g, '""')`: the value changes exactly when it holds a quote, and then it grows. */
  function Escape(s: string): (r: string)
    ensures |r| >= |s|
    ensures r == s <==> '"' !in s
    ensures '"' in s ==> |r| > |s|
    decreases |s|
  {
    if s == [] then []
    else
      assert s == [s[0]] + s[1..];
      assert forall c :: c in s <==> c == s[0] || c in s[1..];
      if s[0] == '"' then "\"\"" + Escape(s[1..])
      else [s[0]] + Escape(s[1..])
  }

  /** A cell written with its quotes doubled and wrapped in quotes. */
  function Quote(s: string): string {
    "\"" + Escape(s) + "\""
  }

  /** A cell wrapped in quotes with nothing inside escaped. */
  function Wrap(s: string): string {
    "\"" + s + "\""
  }

  /** Wrapping and quoting write the same cell exactly when the text holds no quote. */
  lemma WrapIsQuoteWithoutQuotes(s: string)
    ensures Wrap(s) == Quote(s) <==> '"' !in s
  {
    if Wrap(s) == Quote(s) {
      assert s == Wrap(s)[1..|Wrap(s)| - 1] == Quote(s)[1..|Quote(s)| - 1] == Escape(s);
    }
  }

  // ---------------------------------------------------------------------------
  // reading CSV text back

  /** The body of a quoted cell, after its opening quote: a doubled quote stands for one, a lone quote closes it. */
  function ReadQuoted(s: string): (r: (string, string))
    ensures |r.1| <= |s|
    decreases |s|
  {
    if s == [] then ("", "")
    else if s[0] == '"' then
      if |s| >= 2 && s[1] == '"' then
        var (v, rest) := ReadQuoted(s[2..]);
        ("\"" + v, rest)
      else ("", s[1..])
    else
      var (v, rest) := ReadQuoted(s[1..]);
      ([s[0]] + v, rest)
  }

  /** Plain text up to the next comma or line break. */
  function ReadPlain(s: string): (r: (string, string))
    ensures |r.1| <= |s|
    ensures r.1 == [] || r.1[0] == ',' || r.1[0] == '\n'
    decreases |s|
  {
    if s == [] || s[0] == ',' || s[0] == '\n' then ("", s)
    else
      var (v, rest) := ReadPlain(s[1..]);
      ([s[0]] + v, rest)
  }

  /** One cell: quoted when it starts with a quote (anything after the closing quote is kept as text), plain otherwise. */
  function ReadCell(s: string): (r: (string, string))
    ensures |r.1| <= |s|
    ensures r.1 == [] || r.1[0] == ',' || r.1[0] == '\n'
  {
    if s != [] && s[0] == '"' then
      var (v, rest) := ReadQuoted(s[1..]);
      var (w, rest') := ReadPlain(rest);
      (v + w, rest')
    else ReadPlain(s)
  }

  /** The cells of one line, up to its line break or the end of the text. */
  function ReadLine(s: string): (r: (seq<string>, string))
    ensures |r.0| >= 1
    ensures |r.1| <= |s|
    ensures r.1 == [] || r.1[0] == '\n'
    decreases |s|
  {
    var (c, rest) := ReadCell(s);
    if rest != [] && rest[0] == ',' then
      var (cs, rest') := ReadLine(rest[1..]);
      ([c] + cs, rest')
    else ([c], rest)
  }

  /** A whole CSV text, line by line. */
  function Parse(s: string): (r: seq<seq<string>>)
    ensures |r| >= 1
    decreases |s|
  {
    var (line, rest) := ReadLine(s);
    if rest == [] then [line] else [line] + Parse(rest[1..])
  }

  // ---------------------------------------------------------------------------
  // writing cells and lines

  /** A cell as the exporters write it: quoted with escaping, wrapped in quotes without escaping, or plain text. */
  datatype Cell = Quoted(text: string) | Wrapped(text: string) | Plain(text: string)

  function Encode(c: Cell): string {
    match c
    case Quoted(t) => Quote(t)
    case Wrapped(t) => Wrap(t)
    case Plain(t) => t
  }

  /**
   * The cells that read back as their own text: every escaped cell, a
   * wrapped cell without a quote inside, plain text without a comma, line
   * break or quote.
   */
  predicate Readable(c: Cell) {
    match c
    case Quoted(_) => true
    case Wrapped(t) => '"' !in t
    case Plain(t) => ',' !in t && '\n' !in t && '"' !in t
  }

  function EncodeAll(cells: seq<Cell>): (r: seq<string>)
    ensures |r| == |cells|
    ensures forall k :: 0 <= k < |cells| ==> r[k] == Encode(cells[k])
  {
    seq(|cells|, k requires 0 <= k < |cells| => Encode(cells[k]))
  }

  function Texts(cells: seq<Cell>): (r: seq<string>)
    ensures |r| == |cells|
    ensures forall k :: 0 <= k < |cells| ==> r[k] == cells[k].text
  {
    seq(|cells|, k requires 0 <= k < |cells| => cells[k].text)
  }

  /** `cells.join(',')`. */
  function Line(cells: seq<Cell>): string {
    Join(EncodeAll(cells), ",")
  }

  /** `lines.join('\n')`. */
  function Document(lines: seq<seq<Cell>>): string {
    Join(seq(|lines|, k requires 0 <= k < |lines| => Line(lines[k])), "\n")
  }

  predicate AtBoundary(rest: string) {
    rest == [] || rest[0] == ',' || rest[0] == '\n'
  }

  lemma {:induction false} ReadQuotedEscape(v: string, rest: string)
    requires rest == [] || rest[0] != '"'
    ensures ReadQuoted(Escape(v) + "\"" + rest) == (v, rest)
    decreases |v|
  {
    var s := Escape(v) + "\"" + rest;
    if v == [] {
      assert s == "\"" + rest;
      assert s[1..] == rest;
    } else {
      var tail := Escape(v[1..]) + "\"" + rest;
      ReadQuotedEscape(v[1..], rest);
      if v[0] == '"' {
        assert Escape(v) == "\"\"" + Escape(v[1..]);
        assert s == "\"\"" + tail;
        assert s[0] == '"' && s[1] == '"' && s[2..] == tail;
        assert "\"" + v[1..] == v;
      } else {
        assert Escape(v) == [v[0]] + Escape(v[1..]);
        assert s == [v[0]] + tail;
        assert s[0] == v[0] && s[1..] == tail;
        assert [v[0]] + v[1..] == v;
      }
    }
  }

  lemma {:induction false} ReadPlainText(v: string, rest: string)
    requires ',' !in v && '\n' !in v && AtBoundary(rest)
    ensures ReadPlain(v + rest) == (v, rest)
    decreases |v|
  {
    if v == [] {
      assert v + rest == rest;
    } else {
      assert v[0] in v;
      assert forall c :: c in v[1..] ==> c in v;
      ReadPlainText(v[1..], rest);
      assert (v + rest)[1..] == v[1..] + rest;
      assert [v[0]] + v[1..] == v;
    }
  }

  /** A readable cell followed by a separator reads back as its text. */
  lemma ReadCellEncode(c: Cell, rest: string)
    requires Readable(c) && AtBoundary(rest)
    ensures ReadCell(Encode(c) + rest) == (c.text, rest)
  {
    match c
    case Quoted(t) =>
      ReadQuotedCell(t, rest);
    case Wrapped(t) =>
      WrapIsQuoteWithoutQuotes(t);
      ReadQuotedCell(t, rest);
    case Plain(t) =>
      ReadPlainText(t, rest);
      if t != [] {
        assert t[0] in t;
      }
  }

  lemma ReadQuotedCell(t: string, rest: string)
    requires AtBoundary(rest)
    ensures ReadCell(Quote(t) + rest) == (t, rest)
  {
    var s := Quote(t) + rest;
    assert s[0] == '"';
    assert s[1..] == Escape(t) + "\"" + rest;
    ReadQuotedEscape(t, rest);
    ReadPlainText("", rest);
    assert "" + rest == rest;
    assert t + "" == t;
  }

  lemma LineCons(cells: seq<Cell>)
    requires |cells| >= 2
    ensures Line(cells) == Encode(cells[0]) + "," + Line(cells[1..])
  {
    assert EncodeAll(cells)[1..] == EncodeAll(cells[1..]);
  }

  lemma DocumentCons(lines: seq<seq<Cell>>)
    requires |lines| >= 2
    ensures Document(lines) == Line(lines[0]) + "\n" + Document(lines[1..])
  {
    var all := seq(|lines|, k requires 0 <= k < |lines| => Line(lines[k]));
    var tail := lines[1..];
    assert all[1..] == seq(|tail|, k requires 0 <= k < |tail| => Line(tail[k]));
  }

  /** A line of readable cells reads back as their texts. */
  lemma {:induction false} ReadLineEncode(cells: seq<Cell>, rest: string)
    requires |cells| >= 1
    requires forall k :: 0 <= k < |cells| ==> Readable(cells[k])
    requires rest == [] || rest[0] == '\n'
    ensures ReadLine(Line(cells) + rest) == (Texts(cells), rest)
    decreases |cells|
  {
    if |cells| == 1 {
      assert Line(cells) == Encode(cells[0]);
      ReadCellEncode(cells[0], rest);
      assert Texts(cells) == [cells[0].text];
    } else {
      ReadLineEncode(cells[1..], rest);
      ReadLineCons(cells, rest);
    }
  }

  lemma ReadLineCons(cells: seq<Cell>, rest: string)
    requires |cells| >= 2 && Readable(cells[0])
    requires ReadLine(Line(cells[1..]) + rest) == (Texts(cells[1..]), rest)
    ensures ReadLine(Line(cells) + rest) == (Texts(cells), rest)
  {
    var e0 := Encode(cells[0]);
    var tl := Line(cells[1..]) + rest;
    TextsCons(cells);
    LineCons(cells);
    ReadCellEncode(cells[0], "," + tl);
    ReadLineAfterCell(e0, cells[0].text, tl, Texts(cells[1..]), rest);
    SeqAssoc(Line(cells), rest, e0, Line(cells[1..]));
  }

  lemma SeqAssoc(line: string, rest: string, e0: string, mid: string)
    requires line == e0 + "," + mid
    ensures line + rest == e0 + ("," + (mid + rest))
  {
  }

  lemma TextsCons(cells: seq<Cell>)
    requires |cells| >= 1
    ensures Texts(cells) == [cells[0].text] + Texts(cells[1..])
  {
  }

  lemma ReadLineAfterCell(e0: string, c: string, tl: string, ts: seq<string>, rest: string)
    requires ReadCell(e0 + ("," + tl)) == (c, "," + tl)
    requires ReadLine(tl) == (ts, rest)
    ensures ReadLine(e0 + ("," + tl)) == ([c] + ts, rest)
  {
    assert ("," + tl)[1..] == tl;
  }

  /** A document of non-empty lines of readable cells reads back as the texts, line by line. */
  lemma {:induction false} ParseDocument(lines: seq<seq<Cell>>)
    requires |lines| >= 1
    requires forall i :: 0 <= i < |lines| ==> |lines[i]| >= 1
    requires forall i, k :: 0 <= i < |lines| && 0 <= k < |lines[i]| ==> Readable(lines[i][k])
    ensures |Parse(Document(lines))| == |lines|
    ensures forall i :: 0 <= i < |lines| ==> Parse(Document(lines))[i] == Texts(lines[i])
    decreases |lines|
  {
    if |lines| == 1 {
      ReadLineEncode(lines[0], "");
      assert Document(lines) == Line(lines[0]) + "";
    } else {
      var tail := lines[1..];
      ParseDocument(tail);
      DocumentCons(lines);
      assert Document(lines) == Line(lines[0]) + ("\n" + Document(tail));
      ReadLineEncode(lines[0], "\n" + Document(tail));
      assert ("\n" + Document(tail))[1..] == Document(tail);
      var p := Parse(Document(lines));
      assert p == [Texts(lines[0])] + Parse(Document(tail));
      forall i | 0 <= i < |lines| ensures p[i] == Texts(lines[i]) {
        if i > 0 {
          assert p[i] == Parse(Document(tail))[i - 1];
        }
      }
    }
  }

  /** Every cell of every line is readable. */
  predicate AllReadable(lines: seq<seq<Cell>>) {
    forall i, k :: 0 <= i < |lines| && 0 <= k < |lines[i]| ==> Readable(lines[i][k])
  }

  /** The texts of a document, line by line. */
  function TextTable(lines: seq<seq<Cell>>): (t: seq<seq<string>>)
    ensures |t| == |lines|
    ensures forall i :: 0 <= i < |lines| ==> t[i] == Texts(lines[i])
  {
    seq(|lines|, i requires 0 <= i < |lines| => Texts(lines[i]))
  }

  /** The document round trip stated as one equation. */
  lemma ParseDocumentTable(lines: seq<seq<Cell>>)
    requires |lines| >= 1
    requires forall i :: 0 <= i < |lines| ==> |lines[i]| >= 1
    requires AllReadable(lines)
    ensures Parse(Document(lines)) == TextTable(lines)
  {
    ParseDocument(lines);
  }

  /**
   * The text the list pages export: the header names joined by commas, then
   * every row with each cell written by `cellOf`, lines joined by line breaks.
   */
  function TableDocument(header: seq<string>, rows: seq<seq<string>>, cellOf: string -> Cell): string {
    Document(TableLines(header, rows, cellOf))
  }

  function TableLines(header: seq<string>, rows: seq<seq<string>>, cellOf: string -> Cell): (ls: seq<seq<Cell>>)
    ensures |ls| == |rows| + 1
    ensures ls[0] == seq(|header|, k requires 0 <= k < |header| => Plain(header[k]))
    ensures forall i :: 1 <= i <= |rows| ==> ls[i] == seq(|rows[i - 1]|, k requires 0 <= k < |rows[i - 1]| => cellOf(rows[i - 1][k]))
  {
    [seq(|header|, k requires 0 <= k < |header| => Plain(header[k]))]
      + seq(|rows|, i requires 0 <= i < |rows| => seq(|rows[i]|, k requires 0 <= k < |rows[i]| => cellOf(rows[i][k])))
  }

  predicate PlainText(s: string) {
    ',' !in s && '\n' !in s && '"' !in s
  }

  /** A number's decimal text holds no separator and no quote. */
  lemma IntToStringPlain(n: int)
    ensures PlainText(IntToString(n))
  {
    var s := IntToString(n);
    if n < 0 {
      assert s == "-" + NatToString(-n);
      assert forall c :: c in s ==> c == '-' || '0' <= c <= '9';
    } else {
      assert forall c :: c in s ==> '0' <= c <= '9';
    }
  }

  /**
   * Such a table reads back as its header and rows, provided the header
   * names need no quoting, no row is empty, and every cell as written reads
   * back as itself.
   */
  lemma TableDocumentReadsBack(header: seq<string>, rows: seq<seq<string>>, cellOf: string -> Cell)
    requires |header| >= 1 && forall k :: 0 <= k < |header| ==> PlainText(header[k])
    requires forall i :: 0 <= i < |rows| ==> |rows[i]| >= 1
    requires forall s :: cellOf(s).text == s
    requires forall i, k :: 0 <= i < |rows| && 0 <= k < |rows[i]| ==> Readable(cellOf(rows[i][k]))
    ensures Parse(TableDocument(header, rows, cellOf)) == [header] + rows
  {
    var lines := TableLines(header, rows, cellOf);
    assert AllReadable(lines) by {
      forall i, k | 0 <= i < |lines| && 0 <= k < |lines[i]| ensures Readable(lines[i][k]) {
        if i > 0 {
          assert lines[i][k] == cellOf(rows[i - 1][k]);
        }
      }
    }
    ParseDocumentTable(lines);
    forall i | 0 <= i < |lines| ensures TextTable(lines)[i] == ([header] + rows)[i] {
    }
  }

  /** Wrapped cells read back when none holds a quote. */
  lemma WrappedTableReadsBack(header: seq<string>, rows: seq<seq<string>>)
    requires |header| >= 1 && forall k :: 0 <= k < |header| ==> PlainText(header[k])
    requires forall i :: 0 <= i < |rows| ==> |rows[i]| >= 1
    requires forall i, k :: 0 <= i < |rows| && 0 <= k < |rows[i]| ==> '"' !in rows[i][k]
    ensures Parse(TableDocument(header, rows, (s: string) => Wrapped(s))) == [header] + rows
  {
    TableDocumentReadsBack(header, rows, (s: string) => Wrapped(s));
  }

  /** Escaped cells always read back. */
  lemma QuotedTableReadsBack(header: seq<string>, rows: seq<seq<string>>)
    requires |header| >= 1 && forall k :: 0 <= k < |header| ==> PlainText(header[k])
    requires forall i :: 0 <= i < |rows| ==> |rows[i]| >= 1
    ensures Parse(TableDocument(header, rows, (s: string) => Quoted(s))) == [header] + rows
  {
    TableDocumentReadsBack(header, rows, (s: string) => Quoted(s));
  }

  /** A quote inside a wrapped cell ends it early: `"a"b"` reads back as `ab"`. */
  lemma WrappedQuoteMisread()
    ensures ReadCell(Encode(Wrapped("a\"b"))) == ("ab\"", "")
  {
    var q: string := "\"";
    var bq: string := "b\"";
    assert q[0] == '"' && q[1..] == "";
    assert ReadPlain(q[1..]) == ("", "");
    assert [q[0]] + "" == q;
    assert ReadPlain(q) == (q, "");
    assert bq[0] == 'b' && bq[1..] == q;
    assert [bq[0]] + q == bq;
    assert ReadPlain(bq) == (bq, "");
    var qbq: string := "\"b\"";
    assert qbq[0] == '"' && qbq[1] == 'b' && qbq[1..] == bq;
    assert ReadQuoted(qbq) == ("", bq);
    var aqbq: string := "a\"b\"";
    assert aqbq[0] == 'a' && aqbq[1..] == qbq;
    assert [aqbq[0]] + "" == "a";
    assert ReadQuoted(aqbq) == ("a", bq);
    var s := Encode(Wrapped("a\"b"));
    assert s == "\"a\"b\"";
    assert s[0] == '"' && s[1..] == aqbq;
    assert ReadCell(s) == ("a" + bq, "");
    assert "a" + bq == "ab\"";
  }

  /** Plain text with a comma inside splits: one written cell reads back as two. */
  lemma PlainCommaSplits()
    ensures |ReadLine(Line([Plain("a,b")])).0| == 2
  {
    var b: string := "b";
    var cb: string := ",b";
    var acb: string := "a,b";
    assert Line([Plain("a,b")]) == acb;
    assert b[0] == 'b' && b[1..] == "";
    assert [b[0]] + "" == b;
    assert ReadPlain(b) == (b, "");
    assert ReadCell(b) == (b, "");
    assert ReadLine(b) == ([b], "");
    assert cb[0] == ',' && cb[1..] == b;
    assert ReadPlain(cb) == ("", cb);
    assert acb[0] == 'a' && acb[1..] == cb;
    assert [acb[0]] + "" == "a";
    assert ReadPlain(acb) == ("a", cb);
    assert ReadCell(acb) == ("a", cb);
  }
}
