/**
 * The dashboard's pipeline status table: a search over name and code, and a
 * sort by any column that puts absent values last.
 */
module PipelineStatusTable {
  import opened Js
  import opened ListOps

  /** A column value: null or undefined, a string, or a number. */
  datatype Cell = Missing | Str(s: string) | Num(x: real)

  /** The sign of a number, as the sort reads a comparator's result. */
  function Sign(x: real): (r: int)
    ensures r == -1 <==> x < 0.0
    ensures r == 1 <==> x > 0.0
    ensures r == 0 <==> x == 0.0
  {
    if x < 0.0 then -1 else if x > 0.0 then 1 else 0
  }

  /**
   * A JavaScript number as subtraction sees it: finite, one of the two
   * infinities, or NaN. `Number(s)` of a string is one of these.
   */
  datatype Numeric = Finite(v: real) | Infinity(positive: bool) | NaN

  /** The operand `x as number` hands to `-`: a number is itself, a string goes through `toNumber`. */
  function NumberOf(c: Cell, toNumber: string -> Numeric): (n: Numeric)
    requires !c.Missing?
    ensures c.Num? ==> n == Finite(c.x)
    ensures c.Str? ==> n == toNumber(c.s)
  {
    if c.Num? then Finite(c.x) else toNumber(c.s)
  }

  /** JavaScript's `a - b`: NaN if either is NaN or both are the same infinity. */
  function Minus(a: Numeric, b: Numeric): (r: Numeric)
    ensures r.NaN? <==> a.NaN? || b.NaN? || (a.Infinity? && b == a)
    ensures a.Finite? && b.Finite? ==> r == Finite(a.v - b.v)
  {
    match (a, b)
    case (NaN, _) => NaN
    case (_, NaN) => NaN
    case (Finite(x), Finite(y)) => Finite(x - y)
    case (Infinity(p), Infinity(q)) => if p == q then NaN else Infinity(p)
    case (Infinity(p), _) => Infinity(p)
    case (_, Infinity(q)) => Infinity(!q)
  }

  /** How the sort reads a comparator's result: its sign, with NaN read as 0. */
  function SortSign(n: Numeric): (r: int)
    ensures n.NaN? ==> r == 0
    ensures n.Finite? ==> r == Sign(n.v)
    ensures n.Infinity? ==> r == (if n.positive then 1 else -1)
  {
    match n
    case Finite(v) => Sign(v)
    case Infinity(p) => if p then 1 else -1
    case NaN => 0
  }

  /**
   * The comparator as written: an absent left value goes after, then an
   * absent right value goes before; two strings compare with `compare`
   * (the runtime's `localeCompare`); anything else by the difference of the
   * two values as numbers, reversed for a descending sort. A string there is
   * converted by `toNumber` (the runtime's `Number`), so a numeric string
   * compares like its number and one that converts to NaN ties with every
   * number.
   */
  function CellCompare(order: Direction, compare: (string, string) -> int, toNumber: string -> Numeric): (r: (Cell, Cell) -> int)
    ensures forall b :: r(Missing, b) == 1
    ensures forall a: Cell :: !a.Missing? ==> r(a, Missing) == -1
    ensures forall x, y :: order == Asc ==> (r(Cell.Num(x), Cell.Num(y)) < 0 <==> x < y) && (r(Cell.Num(x), Cell.Num(y)) == 0 <==> x == y)
    ensures forall x, y :: order == Desc ==> (r(Cell.Num(x), Cell.Num(y)) < 0 <==> y < x) && (r(Cell.Num(x), Cell.Num(y)) == 0 <==> x == y)
  {
    (a: Cell, b: Cell) => AsWritten(order, compare, toNumber, a, b)
  }

  /**
   * A string against a number: a string that converts to a finite number
   * compares like that number, one that converts to NaN ties, and one that
   * converts to an infinity goes to that end.
   */
  lemma StringAgainstNumber(order: Direction, compare: (string, string) -> int, toNumber: string -> Numeric, s: string, x: real)
    ensures var r := CellCompare(order, compare, toNumber);
      toNumber(s).Finite? ==>
        r(Cell.Str(s), Cell.Num(x)) == r(Cell.Num(toNumber(s).v), Cell.Num(x)) && r(Cell.Num(x), Cell.Str(s)) == r(Cell.Num(x), Cell.Num(toNumber(s).v))
    ensures var r := CellCompare(order, compare, toNumber);
      toNumber(s).NaN? ==> r(Cell.Str(s), Cell.Num(x)) == 0 && r(Cell.Num(x), Cell.Str(s)) == 0
    ensures var r := CellCompare(order, compare, toNumber);
      toNumber(s).Infinity? ==>
        var up := if toNumber(s).positive == (order == Asc) then 1 else -1;
        r(Cell.Str(s), Cell.Num(x)) == up && r(Cell.Num(x), Cell.Str(s)) == -up
  {
  }

  function AsWritten(order: Direction, compare: (string, string) -> int, toNumber: string -> Numeric, a: Cell, b: Cell): int {
    if a.Missing? then 1
    else if b.Missing? then -1
    else if a.Str? && b.Str? then (if order == Asc then compare(a.s, b.s) else compare(b.s, a.s))
    else SortSign(if order == Asc then Minus(NumberOf(a, toNumber), NumberOf(b, toNumber))
                  else Minus(NumberOf(b, toNumber), NumberOf(a, toNumber)))
  }

  /** `Number("12") - 5` is 7, so the string "12" goes after the number 5 in an ascending sort. */
  lemma NumericStringComparesAsNumber(compare: (string, string) -> int, toNumber: string -> Numeric)
    requires toNumber("12") == Finite(12.0)
    ensures CellCompare(Asc, compare, toNumber)(Cell.Str("12"), Cell.Num(5.0)) == 1
  {
  }

  /** Two absent values each claim to go after the other, so the comparator is not consistent and the order it gives is left to the runtime's sort. */
  lemma CellCompareInconsistent(order: Direction, compare: (string, string) -> int, toNumber: string -> Numeric)
    ensures CellCompare(order, compare, toNumber)(Missing, Missing) == 1
    ensures !Consistent(CellCompare(order, compare, toNumber))
  {
    var cmp := CellCompare(order, compare, toNumber);
    assert cmp(Missing, Missing) > 0 && !(cmp(Missing, Missing) < 0);
  }

  /** The same comparator with two absent values tied, and numbers before strings should a column mix them. */
  function CorrectedCellCompare(order: Direction, compare: (string, string) -> int): (Cell, Cell) -> int {
    (a: Cell, b: Cell) => Corrected(order, compare, a, b)
  }

  function Corrected(order: Direction, compare: (string, string) -> int, a: Cell, b: Cell): int {
      if a.Missing? && b.Missing? then 0
      else if a.Missing? then 1
      else if b.Missing? then -1
      else if a.Str? && b.Str? then (if order == Asc then compare(a.s, b.s) else compare(b.s, a.s))
      else if a.Num? && b.Num? then Sign(if order == Asc then a.x - b.x else b.x - a.x)
      else if a.Num? then -1
      else 1
  }

  /** The corrected comparator agrees with the one as written whenever at most one value is absent and the kinds match. */
  lemma CorrectedAgrees(order: Direction, compare: (string, string) -> int, toNumber: string -> Numeric, a: Cell, b: Cell)
    requires !(a.Missing? && b.Missing?)
    requires a.Missing? || b.Missing? || a.Str? == b.Str?
    ensures CorrectedCellCompare(order, compare)(a, b) == CellCompare(order, compare, toNumber)(a, b)
  {
  }

  /** With a consistent string comparison the corrected comparator is consistent in either direction. */
  lemma CorrectedConsistent(order: Direction, compare: (string, string) -> int)
    requires Consistent(compare)
    ensures Consistent(CorrectedCellCompare(order, compare))
  {
    var cmp := CorrectedCellCompare(order, compare);
    forall a, b ensures cmp(a, b) > 0 <==> cmp(b, a) < 0 {
      assert cmp(a, b) == Corrected(order, compare, a, b) && cmp(b, a) == Corrected(order, compare, b, a);
      if a.Str? && b.Str? {
        assert compare(a.s, b.s) > 0 <==> compare(b.s, a.s) < 0;
      } else if a.Num? && b.Num? {
        assert a.x - b.x == -(b.x - a.x);
      }
    }
    forall a, b, c | cmp(a, b) <= 0 && cmp(b, c) <= 0 ensures cmp(a, c) <= 0 {
      assert Corrected(order, compare, a, b) <= 0 && Corrected(order, compare, b, c) <= 0;
      assert cmp(a, c) == Corrected(order, compare, a, c);
      if a.Str? && b.Str? && c.Str? {
        if order == Asc {
          assert compare(a.s, b.s) <= 0 && compare(b.s, c.s) <= 0;
        } else {
          assert compare(c.s, b.s) <= 0 && compare(b.s, a.s) <= 0;
        }
      }
    }
  }

  /** The rows whose name or code contains the search term, ignoring case. */
  function Filtered<T>(data: seq<T>, term: string, name: T -> string, code: T -> string): (r: seq<T>)
    ensures |r| <= |data|
    ensures forall x :: x in r ==> x in data && (ContainsIgnoreCase(name(x), term) || ContainsIgnoreCase(code(x), term))
  {
    Filter(data, (r: T) => ContainsIgnoreCase(name(r), term) || ContainsIgnoreCase(code(r), term))
  }

  lemma FilteredSpec<T>(data: seq<T>, term: string, name: T -> string, code: T -> string)
    ensures IsSubsequence(Filtered(data, term, name, code), data)
    ensures forall r :: r in Filtered(data, term, name, code) <==> r in data && (ContainsIgnoreCase(name(r), term) || ContainsIgnoreCase(code(r), term))
  {
    FilterSpec(data, (r: T) => ContainsIgnoreCase(name(r), term) || ContainsIgnoreCase(code(r), term));
  }

  /**
   * `sortedData`: a sorted copy of the filtered rows; `field(r, column)` is
   * `r[column]`, and `cellCompare` is the cell comparator in use. Whatever
   * the comparator, the table shows the matching rows, each as often as in
   * the data.
   */
  function SortedData<T>(data: seq<T>, term: string, name: T -> string, code: T -> string,
                         field: (T, string) -> Cell, orderBy: string, cellCompare: (Cell, Cell) -> int): (r: seq<T>)
    ensures multiset(r) == multiset(Filtered(data, term, name, code))
  {
    Sort(Filtered(data, term, name, code), On(cellCompare, (r: T) => field(r, orderBy)))
  }

  /**
   * With the corrected comparator the rows are ordered by the column in the
   * chosen direction, and every row with an absent value comes after every
   * row with a present one.
   */
  lemma CorrectedSortedDataOrdered<T(!new)>(data: seq<T>, term: string, name: T -> string, code: T -> string,
                                            field: (T, string) -> Cell, orderBy: string, order: Direction, compare: (string, string) -> int)
    requires Consistent(compare)
    ensures var cmp := CorrectedCellCompare(order, compare);
      var r := SortedData(data, term, name, code, field, orderBy, cmp);
      && (forall i, j :: 0 <= i < j < |r| ==> cmp(field(r[i], orderBy), field(r[j], orderBy)) <= 0)
      && (forall i, j :: 0 <= i < j < |r| && field(r[i], orderBy).Missing? ==> field(r[j], orderBy).Missing?)
  {
    var cmp := CorrectedCellCompare(order, compare);
    var key := (r: T) => field(r, orderBy);
    CorrectedConsistent(order, compare);
    OnConsistent(cmp, key);
    SortSorted(Filtered(data, term, name, code), On(cmp, key));
    var r := SortedData(data, term, name, code, field, orderBy, cmp);
    forall i, j | 0 <= i < j < |r| ensures cmp(field(r[i], orderBy), field(r[j], orderBy)) <= 0 {
      assert On(cmp, key)(r[i], r[j]) <= 0;
    }
  }

  /** `handleRequestSort(property)`: descending only when the same column is clicked while ascending. */
  function RequestSort(orderBy: string, order: Direction, property: string): (r: (string, Direction))
    ensures r.0 == property
    ensures r.1 == Desc <==> orderBy == property && order == Asc
  {
    var isAsc := orderBy == property && order == Asc;
    (property, if isAsc then Desc else Asc)
  }

  /** This is the same toggle the security list headers use. */
  lemma RequestSortIsToggle(orderBy: string, order: Direction, property: string)
    ensures RequestSort(orderBy, order, property) == ToggleSort(orderBy, order, property)
  {
  }

  /** The table's own state: sort direction, sort column and search text. */
  class TableState {
    var order: Direction
    var orderBy: string
    var searchTerm: string

    constructor()
      ensures order == Asc && orderBy == "pipelineName" && searchTerm == ""
    {
      order := Asc;
      orderBy := "pipelineName";
      searchTerm := "";
    }

    method HandleRequestSort(property: string)
      modifies this
      ensures (orderBy, order) == RequestSort(old(orderBy), old(order), property)
      ensures searchTerm == old(searchTerm)
    {
      var isAsc := orderBy == property && order == Asc;
      order := if isAsc then Desc else Asc;
      orderBy := property;
    }

    method SetSearchTerm(term: string)
      modifies this
      ensures searchTerm == term && order == old(order) && orderBy == old(orderBy)
    {
      searchTerm := term;
    }

    /** The rows the table renders for `data`. */
    function Rows<T>(data: seq<T>, name: T -> string, code: T -> string, field: (T, string) -> Cell,
                     compare: (string, string) -> int, toNumber: string -> Numeric): (r: seq<T>)
      reads this
      ensures multiset(r) == multiset(Filtered(data, searchTerm, name, code))
    {
      SortedData(data, searchTerm, name, code, field, orderBy, CellCompare(order, compare, toNumber))
    }
  }
}
