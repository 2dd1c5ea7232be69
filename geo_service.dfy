/**
 * The geo service of the network map: it pulls the station, terminal and
 * hydrocarbon field lists out of their responses, answers an empty
 * infrastructure when a request fails, and keeps the sites inside a bounding
 * box (borders included) for a map view.
 */
module GeoService {
  import opened Js
  import opened ListOps

  /** The part of a station, terminal or hydrocarbon field the map places: its coordinates. */
  datatype Site = Site(id: int, latitude: real, longitude: real)

  /**
   * `extractData`: the `content` array of a page-shaped object, the response
   * itself when it is an array, and no sites otherwise.
   */
  function ExtractData<T>(response: Json<T>): (r: seq<T>)
    ensures response.Obj? && Get(response, "content").Arr? ==> r == Get(response, "content").items
    ensures response.Arr? ==> r == response.items
    ensures !response.Arr? && !Get(response, "content").Arr? ==> r == []
  {
    if response.Obj? && Get(response, "content").Arr? then Get(response, "content").items
    else if response.Arr? then response.items
    else []
  }

  datatype Infrastructure = Infrastructure(stations: seq<Site>, terminals: seq<Site>, hydrocarbonFields: seq<Site>)

  /** The three responses, or a failure of any of the three requests. */
  datatype Fetched =
    | Fetched(stations: Json<Site>, terminals: Json<Site>, hydrocarbonFields: Json<Site>)
    | Failed

  /** `getAllInfrastructure`: each list extracted from its response; a failure gives three empty lists. */
  function GetAllInfrastructure(fetched: Fetched): (r: Infrastructure)
    ensures fetched.Failed? ==> r == Infrastructure([], [], [])
    ensures fetched.Fetched? ==>
      r == Infrastructure(ExtractData(fetched.stations), ExtractData(fetched.terminals), ExtractData(fetched.hydrocarbonFields))
  {
    match fetched
    case Failed => Infrastructure([], [], [])
    case Fetched(stations, terminals, fields) =>
      Infrastructure(ExtractData(stations), ExtractData(terminals), ExtractData(fields))
  }

  // ---------------------------------------------------------------------------
  // bounding box

  datatype Bounds = Bounds(north: real, south: real, east: real, west: real)

  /** Inside the box, borders included. */
  predicate InBounds(s: Site, b: Bounds) {
    b.south <= s.latitude <= b.north && b.west <= s.longitude <= b.east
  }

  function InBox(b: Bounds): Site -> bool {
    s => InBounds(s, b)
  }

  /** The sites of a list that lie in the box. */
  function WithinBounds(sites: seq<Site>, b: Bounds): (r: seq<Site>)
    ensures |r| <= |sites|
    ensures forall s :: s in r ==> s in sites && InBounds(s, b)
  {
    Filter(sites, InBox(b))
  }

  /** `getInfrastructureInBounds`: each of the three lists cut to the box. */
  function GetInfrastructureInBounds(fetched: Fetched, b: Bounds): (r: Infrastructure)
    ensures fetched.Failed? ==> r == Infrastructure([], [], [])
  {
    var data := GetAllInfrastructure(fetched);
    Infrastructure(
      WithinBounds(data.stations, b),
      WithinBounds(data.terminals, b),
      WithinBounds(data.hydrocarbonFields, b))
  }

  /** Each list in the box keeps its order and holds exactly the sites of that list that lie in the box. */
  lemma WithinBoundsSpec(sites: seq<Site>, b: Bounds)
    ensures IsSubsequence(WithinBounds(sites, b), sites)
    ensures forall s :: s in WithinBounds(sites, b) <==> s in sites && InBounds(s, b)
  {
    FilterSpec(sites, InBox(b));
  }

  /** All three lists of the bounded query are such cuts of the full lists. */
  lemma InBoundsQuerySpec(fetched: Fetched, b: Bounds)
    ensures var all, r := GetAllInfrastructure(fetched), GetInfrastructureInBounds(fetched, b);
      && IsSubsequence(r.stations, all.stations)
      && IsSubsequence(r.terminals, all.terminals)
      && IsSubsequence(r.hydrocarbonFields, all.hydrocarbonFields)
      && (forall s :: s in r.stations <==> s in all.stations && InBounds(s, b))
      && (forall s :: s in r.terminals <==> s in all.terminals && InBounds(s, b))
      && (forall s :: s in r.hydrocarbonFields <==> s in all.hydrocarbonFields && InBounds(s, b))
  {
    var all := GetAllInfrastructure(fetched);
    WithinBoundsSpec(all.stations, b);
    WithinBoundsSpec(all.terminals, b);
    WithinBoundsSpec(all.hydrocarbonFields, b);
  }

  /** `outer` contains `inner`. */
  predicate Encloses(outer: Bounds, inner: Bounds) {
    outer.south <= inner.south && inner.north <= outer.north && outer.west <= inner.west && inner.east <= outer.east
  }

  /** Enlarging the box keeps every site the smaller box showed, in the same order. */
  lemma LargerBoxKeepsMore(sites: seq<Site>, inner: Bounds, outer: Bounds)
    requires Encloses(outer, inner)
    ensures IsSubsequence(WithinBounds(sites, inner), WithinBounds(sites, outer))
  {
    FilterMonotone(sites, InBox(inner), InBox(outer));
  }

  /** A box whose south lies above its north, or whose west lies east of its east, holds nothing. */
  lemma InvertedBoxIsEmpty(sites: seq<Site>, b: Bounds)
    requires b.south > b.north || b.west > b.east
    ensures WithinBounds(sites, b) == []
  {
    FilterNone(sites, InBox(b));
  }

  /** Cutting a cut list to the same box changes nothing. */
  lemma WithinBoundsIdempotent(sites: seq<Site>, b: Bounds)
    ensures WithinBounds(WithinBounds(sites, b), b) == WithinBounds(sites, b)
  {
    FilterIdempotent(sites, InBox(b));
  }
}
