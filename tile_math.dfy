/**
 * The projection and counting half of the offline tile downloader
 * (scripts/download-tiles.py): latitude/longitude to a tile column and row
 * in the spherical Mercator scheme, the per-zoom tile range of a bounding
 * box, the announced number of tiles, the enumeration the nested loops
 * submit, and the `--zoom` argument.
 *
 * The row formula goes through `asinh(tan(lat))`, which has no exact real
 * counterpart here: it enters as a parameter `merc`, standing for
 * `asinh(tan(radians(lat))) / pi`, of which only monotonicity is assumed.
 */
module TileMath {
  import opened Js

  /** Python's `int(v)` on a float: truncation toward zero. */
  function Trunc(v: real): (r: int)
    ensures v >= 0.0 ==> r >= 0 && r as real <= v < r as real + 1.0
    ensures v < 0.0 ==> r <= 0 && r as real - 1.0 < v <= r as real
  {
    if v >= 0.0 then v.Floor else -((-v).Floor)
  }

  lemma {:induction false} TruncMonotone(a: real, b: real)
    requires a <= b
    ensures Trunc(a) <= Trunc(b)
  {
    if a < 0.0 && b >= 0.0 {
    } else if a >= 0.0 {
      assert a.Floor <= b.Floor;
    } else {
      assert (-b).Floor <= (-a).Floor;
    }
  }

  /** `2.0 ** zoom`. */
  function Pow2(z: nat): (r: nat)
    ensures r >= 1
  {
    if z == 0 then 1 else 2 * Pow2(z - 1)
  }

  lemma {:induction false} Pow2Grows(z: nat)
    requires z >= 6
    ensures Pow2(z) >= 64
  {
    if z > 6 { Pow2Grows(z - 1); }
  }

  /** `merc` is non-decreasing: a point further north has a larger `asinh(tan(lat))`. */
  ghost predicate NonDecreasing(merc: real -> real) {
    forall a, b :: a <= b ==> merc(a) <= merc(b)
  }

  // ---------------------------------------------------------------------------
  // deg2num

  /** `int(f * 2 ** zoom)`: the index of the tile at fraction `f` of the grid's width or height. */
  function TileIndex(f: real, zoom: nat): int {
    Trunc(Scaled(f, Pow2(zoom)))
  }

  function Scaled(f: real, n: nat): real {
    f * n as real
  }

  /** The fraction of the grid's width that lies west of longitude `lon`. */
  function ColumnFraction(lon: real): real {
    (lon + 180.0) / 360.0
  }

  /** The fraction of the grid's height that lies north of a point with projected value `m`. */
  function RowFraction(m: real): real {
    (1.0 - m) / 2.0
  }

  function Column(lon: real, zoom: nat): int {
    TileIndex(ColumnFraction(lon), zoom)
  }

  function Row(lat: real, zoom: nat, merc: real -> real): int {
    TileIndex(RowFraction(merc(lat)), zoom)
  }

  /** `deg2num(lat, lon, zoom)`: the (column, row) of the tile holding the point;
      a longitude in [-180, 180) always lands in one of the 2^zoom columns. */
  function Deg2Num(lat: real, lon: real, zoom: nat, merc: real -> real): (r: (int, int))
    ensures r == (Column(lon, zoom), Row(lat, zoom, merc))
    ensures -180.0 <= lon < 180.0 ==> 0 <= r.0 < Pow2(zoom)
  {
    if -180.0 <= lon < 180.0 then
      ColumnInGrid(lon, zoom);
      (Column(lon, zoom), Row(lat, zoom, merc))
    else
      (Column(lon, zoom), Row(lat, zoom, merc))
  }

  lemma MulLeft(a: real, b: real, n: real)
    requires a <= b && n >= 0.0
    ensures a * n <= b * n
  {
  }

  lemma HalveMonotone(a: real, b: real, d: real)
    requires a <= b && d > 0.0
    ensures a / d <= b / d
  {
    assert b / d - a / d == (b - a) / d;
  }

  /** A larger fraction never gives a smaller tile index. */
  lemma TileIndexMonotone(f1: real, f2: real, zoom: nat)
    requires f1 <= f2
    ensures TileIndex(f1, zoom) <= TileIndex(f2, zoom)
  {
    MulLeft(f1, f2, Pow2(zoom) as real);
    TruncMonotone(Scaled(f1, Pow2(zoom)), Scaled(f2, Pow2(zoom)));
  }

  /** For a longitude in [-180, 180) the column lies in the grid [0, 2^zoom - 1]. */
  lemma ColumnInGrid(lon: real, zoom: nat)
    requires -180.0 <= lon < 180.0
    ensures 0 <= Column(lon, zoom) <= Pow2(zoom) - 1
  {
    var n := Pow2(zoom) as real;
    var f := (lon + 180.0) / 360.0;
    assert 0.0 <= f < 1.0;
    assert f * n < n by { assert (1.0 - f) * n > 0.0; }
    assert Column(lon, zoom) as real <= f * n;
  }

  /** The east edge lon = 180 is not guarded: it gives column 2^zoom, one past the grid. */
  lemma ColumnAtAntimeridian(zoom: nat)
    ensures Column(180.0, zoom) == Pow2(zoom)
  {
    assert (180.0 + 180.0) / 360.0 * Pow2(zoom) as real == Pow2(zoom) as real;
  }

  /** The column never decreases as the longitude grows. */
  lemma ColumnMonotone(lon1: real, lon2: real, zoom: nat)
    requires lon1 <= lon2
    ensures Column(lon1, zoom) <= Column(lon2, zoom)
  {
    HalveMonotone(lon1 + 180.0, lon2 + 180.0, 360.0);
    TileIndexMonotone(ColumnFraction(lon1), ColumnFraction(lon2), zoom);
  }

  /** At zoom 0 the whole world is the single column 0. */
  lemma ColumnAtZoomZero(lon: real)
    requires -180.0 <= lon < 180.0
    ensures Column(lon, 0) == 0
  {
    ColumnInGrid(lon, 0);
  }

  /** Rows grow southward: the row never increases as the latitude grows. */
  lemma RowAntitone(lat1: real, lat2: real, zoom: nat, merc: real -> real)
    requires NonDecreasing(merc) && lat1 <= lat2
    ensures Row(lat2, zoom, merc) <= Row(lat1, zoom, merc)
  {
    var m1, m2 := merc(lat1), merc(lat2);
    assert m1 <= m2;
    HalveMonotone(1.0 - m2, 1.0 - m1, 2.0);
    TileIndexMonotone(RowFraction(m2), RowFraction(m1), zoom);
  }

  // ---------------------------------------------------------------------------
  // get_tile_range

  datatype Bounds = Bounds(north: real, south: real, west: real, east: real)

  /** The default box, the territory of Algeria. */
  const AlgeriaBounds := Bounds(37.5, 19.0, -8.7, 12.0)

  /** The tuple `(x_min, x_max, y_min, y_max)` the script works with. */
  datatype TileRange = TileRange(xMin: int, xMax: int, yMin: int, yMax: int)

  /**
   * `get_tile_range` as written: `y_max` is the row of the NORTH edge and
   * `y_min` the row of the SOUTH edge.
   */
  function GetTileRangeAsWritten(b: Bounds, zoom: nat, merc: real -> real): (r: TileRange)
    ensures r.xMin == Column(b.west, zoom) && r.yMax == Row(b.north, zoom, merc)
    ensures r.xMax == Column(b.east, zoom) && r.yMin == Row(b.south, zoom, merc)
  {
    var (xMin, yMax) := Deg2Num(b.north, b.west, zoom, merc);
    var (xMax, yMin) := Deg2Num(b.south, b.east, zoom, merc);
    TileRange(xMin, xMax, yMin, yMax)
  }

  /** `get_tile_range` with the rows taken the right way round: the north edge has the smaller row. */
  function GetTileRange(b: Bounds, zoom: nat, merc: real -> real): (r: TileRange)
    ensures r.xMin == Column(b.west, zoom) && r.yMin == Row(b.north, zoom, merc)
    ensures r.xMax == Column(b.east, zoom) && r.yMax == Row(b.south, zoom, merc)
  {
    var (xMin, yMin) := Deg2Num(b.north, b.west, zoom, merc);
    var (xMax, yMax) := Deg2Num(b.south, b.east, zoom, merc);
    TileRange(xMin, xMax, yMin, yMax)
  }

  predicate Ordered(r: TileRange) {
    r.xMin <= r.xMax && r.yMin <= r.yMax
  }

  /** With the rows the right way round, a box with west <= east and south <= north has ordered bounds. */
  lemma GetTileRangeOrdered(b: Bounds, zoom: nat, merc: real -> real)
    requires NonDecreasing(merc) && b.west <= b.east && b.south <= b.north
    ensures Ordered(GetTileRange(b, zoom, merc))
  {
    ColumnMonotone(b.west, b.east, zoom);
    RowAntitone(b.south, b.north, zoom, merc);
  }

  /** As written, the value called `y_max` is never above the value called `y_min`. */
  lemma AsWrittenRowsReversed(b: Bounds, zoom: nat, merc: real -> real)
    requires NonDecreasing(merc) && b.south <= b.north
    ensures GetTileRangeAsWritten(b, zoom, merc).yMax <= GetTileRangeAsWritten(b, zoom, merc).yMin
  {
    RowAntitone(b.south, b.north, zoom, merc);
  }

  // ---------------------------------------------------------------------------
  // counting and enumeration

  /** `(x_max - x_min + 1) * (y_max - y_min + 1)`: the count printed and added to the total. */
  function LevelCount(r: TileRange): int {
    (r.xMax - r.xMin + 1) * (r.yMax - r.yMin + 1)
  }

  /** The tasks `for y in range(y_min, y_max + 1)` submits for one column. */
  function ColumnTiles(z: int, x: int, yLo: int, yHi: int): (ts: seq<Tile>)
    ensures |ts| == if yLo <= yHi then yHi - yLo + 1 else 0
    ensures forall k :: 0 <= k < |ts| ==> ts[k] == Tile(z, x, yLo + k)
    decreases yHi - yLo
  {
    if yLo > yHi then [] else ColumnTiles(z, x, yLo, yHi - 1) + [Tile(z, x, yHi)]
  }

  datatype Tile = Tile(z: int, x: int, y: int)

  /** The tasks one zoom level submits, column by column, in the loops' order. */
  function LevelTiles(z: int, r: TileRange, xHi: int): seq<Tile>
    decreases xHi - r.xMin
  {
    if xHi < r.xMin then [] else LevelTiles(z, r, xHi - 1) + ColumnTiles(z, xHi, r.yMin, r.yMax)
  }

  /** Every task of the run, zoom level by zoom level. */
  function AllTiles(zMin: nat, zHi: int, rangeOf: nat -> TileRange): seq<Tile>
    decreases zHi - zMin
  {
    if zHi < zMin then [] else AllTiles(zMin, zHi - 1, rangeOf) + LevelTiles(zHi, rangeOf(zHi), rangeOf(zHi).xMax)
  }

  /** The number of (x, y) pairs the two nested `range`s produce. */
  function Tasks(r: TileRange): nat {
    (if r.xMin <= r.xMax then r.xMax - r.xMin + 1 else 0) * (if r.yMin <= r.yMax then r.yMax - r.yMin + 1 else 0)
  }

  lemma {:induction false} LevelTilesCount(z: int, r: TileRange, xHi: int)
    requires xHi <= r.xMax
    ensures |LevelTiles(z, r, xHi)| == (if r.xMin <= xHi then xHi - r.xMin + 1 else 0) * (if r.yMin <= r.yMax then r.yMax - r.yMin + 1 else 0)
    decreases xHi - r.xMin
  {
    if xHi >= r.xMin {
      LevelTilesCount(z, r, xHi - 1);
    }
  }

  /** `calculate_total_tiles` summed over zoom levels zMin..zHi. */
  function TotalTiles(zMin: nat, zHi: int, rangeOf: nat -> TileRange): int
    decreases zHi - zMin
  {
    if zHi < zMin then 0 else TotalTiles(zMin, zHi - 1, rangeOf) + LevelCount(rangeOf(zHi))
  }

  /** The total the progress bar is told to expect equals the number of tasks, when every level's range is ordered. */
  lemma {:induction false} ProgressTotalMatchesTasks(zMin: nat, zHi: int, rangeOf: nat -> TileRange)
    requires forall z: nat :: zMin <= z <= zHi ==> Ordered(rangeOf(z))
    ensures TotalTiles(zMin, zHi, rangeOf) == |AllTiles(zMin, zHi, rangeOf)|
    decreases zHi - zMin
  {
    if zHi >= zMin {
      ProgressTotalMatchesTasks(zMin, zHi - 1, rangeOf);
      LevelTilesCount(zHi, rangeOf(zHi), rangeOf(zHi).xMax);
    }
  }

  /** With the corrected range the announced total is exactly the number of tasks submitted. */
  lemma CorrectedTotalMatchesTasks(b: Bounds, zMin: nat, zMax: int, merc: real -> real)
    requires NonDecreasing(merc) && b.west <= b.east && b.south <= b.north
    ensures TotalTiles(zMin, zMax, (z: nat) => GetTileRange(b, z, merc)) == |AllTiles(zMin, zMax, (z: nat) => GetTileRange(b, z, merc))|
  {
    forall z: nat | zMin <= z <= zMax ensures Ordered(GetTileRange(b, z, merc)) {
      GetTileRangeOrdered(b, z, merc);
    }
    ProgressTotalMatchesTasks(zMin, zMax, (z: nat) => GetTileRange(b, z, merc));
  }

  /**
   * As written, a box whose north and south edges fall in different rows
   * submits no task at that level (`range(y_min, y_max + 1)` is empty), and
   * once they are two rows apart the count added to the total is negative.
   */
  lemma AsWrittenLevelSubmitsNothing(b: Bounds, zoom: nat, merc: real -> real)
    requires NonDecreasing(merc) && b.west <= b.east && b.south <= b.north
    requires Row(b.north, zoom, merc) < Row(b.south, zoom, merc)
    ensures var r := GetTileRangeAsWritten(b, zoom, merc);
      LevelTiles(zoom, r, r.xMax) == [] && LevelCount(r) <= 0
    ensures Row(b.north, zoom, merc) + 2 <= Row(b.south, zoom, merc) ==>
      LevelCount(GetTileRangeAsWritten(b, zoom, merc)) < 0
  {
    var r := GetTileRangeAsWritten(b, zoom, merc);
    ColumnMonotone(b.west, b.east, zoom);
    LevelTilesCount(zoom, r, r.xMax);
    assert r.xMax - r.xMin + 1 >= 1;
    if r.yMax - r.yMin + 1 < 0 {
      MulNegative(r.xMax - r.xMin + 1, r.yMax - r.yMin + 1);
    }
  }

  lemma MulNegative(a: int, b: int)
    requires a >= 1 && b < 0
    ensures a * b < 0
  {
  }

  /**
   * The default run over the Algeria box. With `asinh(tan(lat))/pi` at
   * 37.5 degrees in [0.22, 0.23] and at 19 degrees in [0.10, 0.11] (the
   * true values are about 0.2250 and 0.1075), every zoom level from 6 up
   * submits no task and announces a negative count.
   */
  lemma AlgeriaDefaultFetchesNothing(zoom: nat, merc: real -> real)
    requires NonDecreasing(merc)
    requires 0.22 <= merc(37.5) <= 0.23 && 0.10 <= merc(19.0) <= 0.11
    requires zoom >= 6
    ensures var r := GetTileRangeAsWritten(AlgeriaBounds, zoom, merc);
      LevelTiles(zoom, r, r.xMax) == [] && LevelCount(r) < 0
  {
    AlgeriaRowsApart(zoom, merc);
    AsWrittenLevelSubmitsNothing(AlgeriaBounds, zoom, merc);
  }

  /** In the Algeria box the north edge lies at least two rows above the south edge from zoom 6 on. */
  lemma AlgeriaRowsApart(zoom: nat, merc: real -> real)
    requires 0.22 <= merc(37.5) <= 0.23 && 0.10 <= merc(19.0) <= 0.11
    requires zoom >= 6
    ensures Row(AlgeriaBounds.north, zoom, merc) + 2 <= Row(AlgeriaBounds.south, zoom, merc)
  {
    Pow2Grows(zoom);
    var n := Pow2(zoom) as real;
    var u := RowFraction(merc(37.5));
    var v := RowFraction(merc(19.0));
    TruncGap(u, v, n);
    assert Row(37.5, zoom, merc) == Trunc(u * n);
    assert Row(19.0, zoom, merc) == Trunc(v * n);
  }

  /** Two fractions at least 0.055 apart land at least two rows apart once the grid has 64 rows. */
  lemma TruncGap(u: real, v: real, n: real)
    requires 0.0 <= u <= 0.39 && 0.445 <= v && n >= 64.0
    ensures Trunc(u * n) + 2 <= Trunc(v * n)
  {
    var a, b := u * n, v * n;
    MulLeft(u, 0.39, n);
    MulLeft(0.445, v, n);
    MulLeft(0.0, u, n);
    assert 0.0 <= a <= 0.39 * n;
    assert 0.445 * n <= b;
    var ta, tb := Trunc(a), Trunc(b);
    assert ta as real <= a;
    assert b < tb as real + 1.0;
    assert ta as real + 2.0 <= tb as real by {
      assert 0.055 * n >= 3.52;
    }
  }

  /** Over the whole default range 6-10 the script downloads nothing and announces a negative total. */
  lemma {:induction false} AlgeriaDefaultRun(zHi: int, merc: real -> real)
    requires NonDecreasing(merc)
    requires 0.22 <= merc(37.5) <= 0.23 && 0.10 <= merc(19.0) <= 0.11
    requires 6 <= zHi
    ensures AllTiles(6, zHi, (z: nat) => GetTileRangeAsWritten(AlgeriaBounds, z, merc)) == []
    ensures TotalTiles(6, zHi, (z: nat) => GetTileRangeAsWritten(AlgeriaBounds, z, merc)) < 0
    decreases zHi
  {
    AlgeriaDefaultFetchesNothing(zHi, merc);
    if zHi > 6 {
      AlgeriaDefaultRun(zHi - 1, merc);
    }
  }

  /** An empty zoom range (zoom_min > zoom_max) submits nothing and announces 0. */
  lemma EmptyZoomRange(zMin: nat, zMax: int, rangeOf: nat -> TileRange)
    requires zMin > zMax
    ensures AllTiles(zMin, zMax, rangeOf) == [] && TotalTiles(zMin, zMax, rangeOf) == 0
  {
  }

  /** A run over a single zoom level counts the product of that level's range dimensions. */
  lemma SingleLevelTotal(z: nat, rangeOf: nat -> TileRange)
    ensures TotalTiles(z, z, rangeOf) == (rangeOf(z).xMax - rangeOf(z).xMin + 1) * (rangeOf(z).yMax - rangeOf(z).yMin + 1)
  {
  }

  /** `calculate_total_tiles`: the loop that accumulates `total` over the zoom levels. */
  method CalculateTotalTiles(zoomMin: nat, zoomMax: int, b: Bounds, merc: real -> real) returns (total: int)
    ensures total == TotalTiles(zoomMin, zoomMax, (z: nat) => GetTileRangeAsWritten(b, z, merc))
  {
    total := 0;
    var z: int := zoomMin;
    while z <= zoomMax
      invariant zoomMin <= z <= if zoomMax < zoomMin then zoomMin else zoomMax + 1
      invariant total == TotalTiles(zoomMin, z - 1, (zz: nat) => GetTileRangeAsWritten(b, zz, merc))
      decreases zoomMax - z
    {
      var r := GetTileRangeAsWritten(b, z, merc);
      total := total + (r.xMax - r.xMin + 1) * (r.yMax - r.yMin + 1);
      z := z + 1;
    }
  }

  // ---------------------------------------------------------------------------
  // --zoom

  /** Python's `int(s)` on decimal text: an optional `+` and at least one digit. */
  function ParseInt(s: string): (r: Option<nat>)
    ensures r.Some? ==> s != ""
  {
    var digits := if s != "" && s[0] == '+' then s[1..] else s;
    if digits != "" && forall k :: 0 <= k < |digits| ==> '0' <= digits[k] <= '9'
    then Some(DigitsValue(digits)) else None
  }

  lemma ParseIntOfNat(n: nat)
    ensures ParseInt(NatToString(n)) == Some(n)
  {
    DigitsValueOfNat(n);
  }

  /**
   * The `--zoom` argument: "a-b" gives (a, b), "n" gives (n, n); any other
   * text raises `ValueError`, which ends the script.
   */
  function ParseZoom(arg: string): (r: Option<(nat, nat)>)
    ensures r.Some? && '-' !in arg ==> r.value.0 == r.value.1
  {
    if '-' in arg then
      var parts := Split(arg, '-');
      if |parts| != 2 then None
      else match (ParseInt(parts[0]), ParseInt(parts[1]))
        case (Some(a), Some(b)) => Some((a, b))
        case _ => None
    else
      match ParseInt(arg)
      case Some(n) => Some((n, n))
      case None => None
  }

  /** "a-b" is read back as the range (a, b). */
  lemma ParseZoomRange(a: nat, b: nat)
    ensures ParseZoom(NatToString(a) + "-" + NatToString(b)) == Some((a, b))
  {
    var arg := NatToString(a) + "-" + NatToString(b);
    assert arg[|NatToString(a)|] == '-';
    assert Join([NatToString(a), NatToString(b)], "-") == arg;
    assert '-' !in NatToString(a) by {
      forall k | 0 <= k < |NatToString(a)| ensures NatToString(a)[k] != '-' { }
    }
    assert '-' !in NatToString(b) by {
      forall k | 0 <= k < |NatToString(b)| ensures NatToString(b)[k] != '-' { }
    }
    SplitJoin([NatToString(a), NatToString(b)], '-');
    ParseIntOfNat(a);
    ParseIntOfNat(b);
  }

  /** "n" is read back as the single level (n, n). */
  lemma ParseZoomSingle(n: nat)
    ensures ParseZoom(NatToString(n)) == Some((n, n))
  {
    assert '-' !in NatToString(n) by {
      forall k | 0 <= k < |NatToString(n)| ensures NatToString(n)[k] != '-' { }
    }
    ParseIntOfNat(n);
  }

  /** A leading minus is not a negative zoom: "-3" splits into "" and "3" and is refused. */
  lemma ParseZoomRefusesLeadingMinus()
    ensures ParseZoom("-3") == None
  {
    var three: string := "3";
    assert three[1..] == "";
    var rest := Split(three[1..], '-');
    assert rest == [""];
    assert Split(three, '-') == [[three[0]] + rest[0]] + rest[1..];
    assert [three[0]] + rest[0] == three;
    assert Split(three, '-') == [three];
    var arg: string := "-3";
    assert arg[0] == '-' && arg[1..] == three;
    assert Split(arg, '-') == [""] + Split(three, '-');
  }
}
