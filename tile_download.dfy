/**
 * The download half of the tile script: `download_tile`, which skips a tile
 * already on disk and otherwise fetches and stores it, and the loop of
 * `download_tiles`, which runs it for every tile of every zoom level and
 * counts each outcome as downloaded, skipped or failed.
 *
 * The output directory is a map from tile to the bytes stored at
 * `z/x/y.png` plus the set of `z/x` directories created; the tile server is
 * an oracle `fetch` that answers each tile with a body or an error; the
 * thread pool runs its tasks one after the other.
 */
module TileDownload {
  import opened TileMath

  type Bytes = seq<bv8>

  /** What `session.get` followed by `raise_for_status` gives for one tile. */
  datatype Response = Body(content: Bytes) | RequestFailed(message: string)

  /** The observable state of the output directory, plus the log of requests sent. */
  datatype Disk = Disk(files: map<Tile, Bytes>, dirs: set<(int, int)>, requests: seq<Tile>)

  /** The `(success, status)` pair a task returns. */
  datatype Outcome = Outcome(success: bool, status: string)

  datatype Counters = Counters(downloaded: nat, skipped: nat, failed: nat)

  function Sum(c: Counters): nat {
    c.downloaded + c.skipped + c.failed
  }

  // ---------------------------------------------------------------------------
  // one tile

  /** `download_tile(z, x, y, ...)`: the new directory state and the pair it returns. */
  function DownloadTileSpec(d: Disk, t: Tile, fetch: Tile -> Response): (r: (Disk, Outcome))
  {
    var dirs := d.dirs + {(t.z, t.x)};
    if t in d.files then
      (d.(dirs := dirs), Outcome(true, "exists"))
    else
      match fetch(t)
      case Body(content) =>
        (Disk(d.files[t := content], dirs, d.requests + [t]), Outcome(true, "downloaded"))
      case RequestFailed(message) =>
        (d.(dirs := dirs, requests := d.requests + [t]), Outcome(false, message))
  }

  /** One download creates the tile's `z/x` directory, keeps every file already on disk, and requests at most this tile. */
  lemma DownloadTileSpecFrame(d: Disk, t: Tile, fetch: Tile -> Response)
    ensures var d' := DownloadTileSpec(d, t, fetch).0;
      && d'.dirs == d.dirs + {(t.z, t.x)}
      && (forall u :: u in d.files ==> u in d'.files && d'.files[u] == d.files[u])
      && (d'.requests == d.requests || d'.requests == d.requests + [t])
  {
  }

  /** A tile already on disk is reported as "exists": no request is sent and no file changes. */
  lemma ExistingTileSkipped(d: Disk, t: Tile, fetch: Tile -> Response)
    requires t in d.files
    ensures var (d', o) := DownloadTileSpec(d, t, fetch);
      o == Outcome(true, "exists") && d'.files == d.files && d'.requests == d.requests
  {
  }

  /** A missing tile is requested once; a body is stored exactly at its path and nowhere else. */
  lemma MissingTileFetched(d: Disk, t: Tile, fetch: Tile -> Response)
    requires t !in d.files && fetch(t).Body?
    ensures var (d', o) := DownloadTileSpec(d, t, fetch);
      && o == Outcome(true, "downloaded")
      && d'.requests == d.requests + [t]
      && t in d'.files && d'.files[t] == fetch(t).content
      && forall u :: u != t ==> (u in d'.files <==> u in d.files)
  {
  }

  /** A failed request writes no file and reports the error, but the tile's directory has been created. */
  lemma FailedTileNotWritten(d: Disk, t: Tile, fetch: Tile -> Response)
    requires t !in d.files && fetch(t).RequestFailed?
    ensures var (d', o) := DownloadTileSpec(d, t, fetch);
      && o == Outcome(false, fetch(t).message)
      && d'.files == d.files
      && (t.z, t.x) in d'.dirs
  {
  }

  // ---------------------------------------------------------------------------
  // the counting loop

  /** The counter update for one completed task. */
  function Tally(c: Counters, o: Outcome): (r: Counters)
    ensures Sum(r) == Sum(c) + 1
    ensures o.success && o.status == "exists" ==> r == c.(skipped := c.skipped + 1)
    ensures o.success && o.status != "exists" ==> r == c.(downloaded := c.downloaded + 1)
    ensures !o.success ==> r == c.(failed := c.failed + 1)
  {
    if o.success then
      if o.status == "exists" then c.(skipped := c.skipped + 1) else c.(downloaded := c.downloaded + 1)
    else c.(failed := c.failed + 1)
  }

  /** The directory and counters after running the tasks `tiles` in order. */
  function Run(d: Disk, c: Counters, tiles: seq<Tile>, fetch: Tile -> Response): (Disk, Counters)
    decreases |tiles|
  {
    if tiles == [] then (d, c)
    else
      var (d1, c1) := Run(d, c, tiles[..|tiles| - 1], fetch);
      var (d2, o) := DownloadTileSpec(d1, tiles[|tiles| - 1], fetch);
      (d2, Tally(c1, o))
  }

  /** Every task increments exactly one counter. */
  lemma {:induction false} RunCountsEveryTask(d: Disk, c: Counters, tiles: seq<Tile>, fetch: Tile -> Response)
    ensures Sum(Run(d, c, tiles, fetch).1) == Sum(c) + |tiles|
    decreases |tiles|
  {
    if tiles != [] {
      RunCountsEveryTask(d, c, tiles[..|tiles| - 1], fetch);
    }
  }

  /** Files present before the run keep their bytes; a file present after it was there before or is a fetched body. */
  lemma {:induction false} RunKeepsExistingFiles(d: Disk, c: Counters, tiles: seq<Tile>, fetch: Tile -> Response)
    ensures var d' := Run(d, c, tiles, fetch).0;
      && (forall t :: t in d.files ==> t in d'.files && d'.files[t] == d.files[t])
      && (forall t :: t in d'.files ==> t in d.files || (t in tiles && fetch(t).Body? && d'.files[t] == fetch(t).content))
    decreases |tiles|
  {
    if tiles != [] {
      RunKeepsExistingFiles(d, c, tiles[..|tiles| - 1], fetch);
    }
  }

  /** Every request of the run is for a task's tile that was not on disk when its turn came. */
  lemma {:induction false} RunRequestsOnlyMissing(d: Disk, c: Counters, tiles: seq<Tile>, fetch: Tile -> Response)
    ensures var d' := Run(d, c, tiles, fetch).0;
      && |d.requests| <= |d'.requests|
      && d'.requests[..|d.requests|] == d.requests
      && forall k :: |d.requests| <= k < |d'.requests| ==> d'.requests[k] in tiles && d'.requests[k] !in d.files
    decreases |tiles|
  {
    if tiles != [] {
      RunRequestsOnlyMissing(d, c, tiles[..|tiles| - 1], fetch);
      RunKeepsExistingFiles(d, c, tiles[..|tiles| - 1], fetch);
    }
  }

  /** Every task's `z/x` directory exists after the run, whatever its outcome. */
  lemma {:induction false} RunCreatesDirectories(d: Disk, c: Counters, tiles: seq<Tile>, fetch: Tile -> Response)
    ensures forall t :: t in tiles ==> (t.z, t.x) in Run(d, c, tiles, fetch).0.dirs
    ensures d.dirs <= Run(d, c, tiles, fetch).0.dirs
    decreases |tiles|
  {
    if tiles != [] {
      RunCreatesDirectories(d, c, tiles[..|tiles| - 1], fetch);
      assert tiles == tiles[..|tiles| - 1] + [tiles[|tiles| - 1]];
    }
  }

  /** When every tile is already on disk, the run sends no request and counts every task as skipped. */
  lemma {:induction false} RunOverPresentTiles(d: Disk, c: Counters, tiles: seq<Tile>, fetch: Tile -> Response)
    requires forall t :: t in tiles ==> t in d.files
    ensures var (d', c') := Run(d, c, tiles, fetch);
      d'.files == d.files && d'.requests == d.requests && c' == c.(skipped := c.skipped + |tiles|)
    decreases |tiles|
  {
    if tiles != [] {
      RunOverPresentTiles(d, c, tiles[..|tiles| - 1], fetch);
    }
  }

  /** After a run in which every fetch succeeds, running the same tasks again re-fetches nothing. */
  lemma RerunFetchesNothing(d: Disk, c: Counters, c2: Counters, tiles: seq<Tile>, fetch: Tile -> Response)
    requires forall t :: t in tiles ==> fetch(t).Body?
    ensures var d1 := Run(d, c, tiles, fetch).0;
      var (d2, c2') := Run(d1, c2, tiles, fetch);
      d2.requests == d1.requests && d2.files == d1.files && c2'.downloaded == c2.downloaded && c2'.failed == c2.failed
  {
    var d1 := Run(d, c, tiles, fetch).0;
    RunFetchesAll(d, c, tiles, fetch);
    RunOverPresentTiles(d1, c2, tiles, fetch);
  }

  /** With a server that always answers, every task's tile is on disk after the run. */
  lemma {:induction false} RunFetchesAll(d: Disk, c: Counters, tiles: seq<Tile>, fetch: Tile -> Response)
    requires forall t :: t in tiles ==> fetch(t).Body?
    ensures forall t :: t in tiles ==> t in Run(d, c, tiles, fetch).0.files
    decreases |tiles|
  {
    if tiles != [] {
      RunFetchesAll(d, c, tiles[..|tiles| - 1], fetch);
      assert tiles == tiles[..|tiles| - 1] + [tiles[|tiles| - 1]];
    }
  }

  // ---------------------------------------------------------------------------
  // the script's state and loops

  /** The output directory the script writes into. */
  class TileStore {
    var files: map<Tile, Bytes>
    var dirs: set<(int, int)>
    var requests: seq<Tile>

    function State(): Disk
      reads this
    {
      Disk(files, dirs, requests)
    }

    constructor (existing: map<Tile, Bytes>)
      ensures State() == Disk(existing, {}, [])
    {
      files := existing;
      dirs := {};
      requests := [];
    }

    /** `download_tile`: create `z/x`, skip an existing file, otherwise fetch and write it. */
    method DownloadTile(t: Tile, fetch: Tile -> Response) returns (success: bool, status: string)
      modifies this
      ensures (State(), Outcome(success, status)) == DownloadTileSpec(old(State()), t, fetch)
    {
      dirs := dirs + {(t.z, t.x)};
      if t in files {
        return true, "exists";
      }
      requests := requests + [t];
      match fetch(t)
      case Body(content) =>
        files := files[t := content];
        return true, "downloaded";
      case RequestFailed(message) =>
        return false, message;
    }

    /** The inner `for y` loop: one task per row of column `x`, counted as each completes. */
    method RunColumn(z: int, x: int, yLo: int, yHi: int, fetch: Tile -> Response, c0: Counters) returns (c: Counters)
      modifies this
      ensures (State(), c) == Run(old(State()), c0, ColumnTiles(z, x, yLo, yHi), fetch)
    {
      c := c0;
      var y := yLo;
      while y <= yHi
        invariant yLo <= y <= if yHi < yLo then yLo else yHi + 1
        invariant (State(), c) == Run(old(State()), c0, ColumnTiles(z, x, yLo, y - 1), fetch)
        decreases yHi - y
      {
        ghost var done := ColumnTiles(z, x, yLo, y - 1);
        var success, status := DownloadTile(Tile(z, x, y), fetch);
        c := Tally(c, Outcome(success, status));
        RunSnoc(old(State()), c0, done, Tile(z, x, y), fetch);
        assert ColumnTiles(z, x, yLo, y) == done + [Tile(z, x, y)];
        y := y + 1;
      }
    }

    /** The `for x` loop of one zoom level: every column of the range in turn. */
    method RunLevel(z: int, r: TileRange, fetch: Tile -> Response, c0: Counters) returns (c: Counters)
      modifies this
      ensures (State(), c) == Run(old(State()), c0, LevelTiles(z, r, r.xMax), fetch)
    {
      c := c0;
      var x := r.xMin;
      while x <= r.xMax
        invariant r.xMin <= x <= if r.xMax < r.xMin then r.xMin else r.xMax + 1
        invariant (State(), c) == Run(old(State()), c0, LevelTiles(z, r, x - 1), fetch)
        decreases r.xMax - x
      {
        ghost var done, column := LevelTiles(z, r, x - 1), ColumnTiles(z, x, r.yMin, r.yMax);
        c := RunColumn(z, x, r.yMin, r.yMax, fetch, c);
        RunAppend(old(State()), c0, done, column, fetch);
        assert LevelTiles(z, r, x) == done + column;
        x := x + 1;
      }
    }

    /** The `for z` loop: every zoom level in turn, with the counters carried across levels. */
    method RunLevels(zoomMin: nat, zoomMax: int, rangeOf: nat -> TileRange, fetch: Tile -> Response) returns (c: Counters)
      modifies this
      ensures (State(), c) == Run(old(State()), Counters(0, 0, 0), AllTiles(zoomMin, zoomMax, rangeOf), fetch)
    {
      c := Counters(0, 0, 0);
      var z: int := zoomMin;
      while z <= zoomMax
        invariant zoomMin <= z <= if zoomMax < zoomMin then zoomMin else zoomMax + 1
        invariant (State(), c) == Run(old(State()), Counters(0, 0, 0), AllTiles(zoomMin, z - 1, rangeOf), fetch)
        decreases zoomMax - z
      {
        ghost var done, level := AllTiles(zoomMin, z - 1, rangeOf), LevelTiles(z, rangeOf(z), rangeOf(z).xMax);
        c := RunLevel(z, rangeOf(z), fetch, c);
        RunAppend(old(State()), Counters(0, 0, 0), done, level, fetch);
        assert AllTiles(zoomMin, z, rangeOf) == done + level;
        z := z + 1;
      }
    }

    /**
     * `download_tiles`: announce the total, then for each zoom level run
     * every (x, y) task of the level's range and count its outcome.
     */
    method DownloadTiles(zoomMin: nat, zoomMax: int, b: Bounds, merc: real -> real, fetch: Tile -> Response)
      returns (total: int, downloaded: nat, skipped: nat, failed: nat)
      modifies this
      ensures total == TotalTiles(zoomMin, zoomMax, (z: nat) => GetTileRangeAsWritten(b, z, merc))
      ensures (State(), Counters(downloaded, skipped, failed))
        == Run(old(State()), Counters(0, 0, 0), AllTiles(zoomMin, zoomMax, (z: nat) => GetTileRangeAsWritten(b, z, merc)), fetch)
    {
      total := CalculateTotalTiles(zoomMin, zoomMax, b, merc);
      var c := RunLevels(zoomMin, zoomMax, (z: nat) => GetTileRangeAsWritten(b, z, merc), fetch);
      downloaded, skipped, failed := c.downloaded, c.skipped, c.failed;
    }
  }

  /** Running one more task after a batch: the run of the batch followed by that task's step. */
  lemma RunSnoc(d: Disk, c: Counters, ts: seq<Tile>, t: Tile, fetch: Tile -> Response)
    ensures var (d1, c1) := Run(d, c, ts, fetch);
      var (d2, o) := DownloadTileSpec(d1, t, fetch);
      Run(d, c, ts + [t], fetch) == (d2, Tally(c1, o))
  {
    assert (ts + [t])[..|ts + [t]| - 1] == ts;
  }

  /** Running two batches of tasks one after the other is running their concatenation. */
  lemma {:induction false} RunAppend(d: Disk, c: Counters, a: seq<Tile>, b: seq<Tile>, fetch: Tile -> Response)
    ensures Run(d, c, a + b, fetch) == Run(Run(d, c, a, fetch).0, Run(d, c, a, fetch).1, b, fetch)
    decreases |b|
  {
    if b == [] {
      assert a + b == a;
    } else {
      RunAppend(d, c, a, b[..|b| - 1], fetch);
      assert (a + b)[..|a + b| - 1] == a + b[..|b| - 1];
    }
  }

  /** The tasks run and the counters agree: downloaded + skipped + failed is the number of tasks submitted. */
  lemma CountersMatchTasks(d: Disk, tiles: seq<Tile>, fetch: Tile -> Response)
    ensures var c := Run(d, Counters(0, 0, 0), tiles, fetch).1;
      c.downloaded + c.skipped + c.failed == |tiles|
  {
    RunCountsEveryTask(d, Counters(0, 0, 0), tiles, fetch);
  }

  /** With the default Algeria box and zoom range 6-10 the script leaves the directory as it was and counts nothing. */
  lemma AlgeriaDefaultDownloadsNothing(d: Disk, merc: real -> real, fetch: Tile -> Response)
    requires NonDecreasing(merc)
    requires 0.22 <= merc(37.5) <= 0.23 && 0.10 <= merc(19.0) <= 0.11
    ensures Run(d, Counters(0, 0, 0), AllTiles(6, 10, (z: nat) => GetTileRangeAsWritten(AlgeriaBounds, z, merc)), fetch)
      == (d, Counters(0, 0, 0))
  {
    AlgeriaDefaultRun(10, merc);
  }
}
