/**
 * The network asset list pages: pipelines, terminals, stations and
 * hydrocarbon fields. Each page normalises the loader's response into a row
 * list, offers the distinct names of each classification in its selectors,
 * filters its rows by a search text and the selectors, and can clear all
 * filters at once. Terminals, stations and fields share one row shape.
 */
module NetworkLists {
  import opened Js
  import opened ListOps
  import opened SortKeys
  import opened NetworkLocalization

  // ---------------------------------------------------------------------------
  // response normalisation

  /**
   * The rows a loader keeps from a response: an array as it is; from an
   * object its `data`, else its `content`, else the page's own collection
   * (`pipelines`, `terminals`, `stations`, `fields`), else `[]`; a result
   * that is not an array then becomes `[]`.
   */
  function Normalize<T>(response: Json<T>, collection: string): (r: seq<T>)
    ensures response.Arr? ==> r == response.items
    ensures !response.Arr? && !response.Obj? ==> r == []
    // an array under `data` wins, even an empty one beside a non-empty `content`
    ensures response.Obj? && Get(response, "data").Arr? ==> r == Get(response, "data").items
    // a truthy `data` that is not an array hides the other keys
    ensures response.Obj? && Truthy(Get(response, "data")) && !Get(response, "data").Arr? ==> r == []
    // the page's own collection is the last key tried
    ensures (response.Obj? && !Truthy(Get(response, "data")) && !Truthy(Get(response, "content"))
             && Get(response, collection).Arr?) ==> r == Get(response, collection).items
    // the rows always come from one array of the response, or are empty
    ensures || r == []
            || response == Arr(r)
            || Get(response, "data") == Arr(r)
            || Get(response, "content") == Arr(r)
            || Get(response, collection) == Arr(r)
  {
    if response.Arr? then response.items
    else if Truthy(response) && response.Obj? then
      var picked := Or(Get(response, "data"), Or(Get(response, "content"), Or(Get(response, collection), Arr([]))));
      if picked.Arr? then picked.items else []
    else []
  }

  // ---------------------------------------------------------------------------
  // classifications and vendors

  /** A classification of a row (status, system, type, product): a multilingual object, or only a flat name. */
  datatype Facet = Facet(entity: Option<Multilingual>, flatName: Option<string>)

  /** The name a row shows for a classification: the object's localized name, else the flat name, else `""`. */
  function FacetName(f: Facet, language: string): (r: string)
    ensures f.entity.None? && r != "" ==> f.flatName == Some(r)
    ensures f.entity.None? && Present(f.flatName) ==> r != ""
  {
    if f.entity.Some? then LocalizedName(f.entity, language)
    else if Present(f.flatName) then f.flatName.value
    else ""
  }

  /**
   * What a row adds to a selector's option set: the object's localized name,
   * even an empty one; else a non-empty flat name; else nothing.
   */
  function FacetOption(f: Facet, language: string): (r: Option<string>)
    ensures r.Some? ==> r.value == FacetName(f, language)
    ensures r.None? ==> FacetName(f, language) == ""
    ensures r == Some("") ==> f.entity.Some?
  {
    if f.entity.Some? then Some(LocalizedName(f.entity, language))
    else if Present(f.flatName) then f.flatName
    else None
  }

  datatype Vendor = Vendor(name: Option<string>)

  /** `row.vendor?.name || row.vendorName || ''`. */
  function VendorName(vendor: Option<Vendor>, vendorName: Option<string>): (r: string)
    ensures r == "" <==> !(vendor.Some? && Present(vendor.value.name)) && !Present(vendorName)
  {
    if vendor.Some? && Present(vendor.value.name) then vendor.value.name.value
    else if Present(vendorName) then vendorName.value
    else ""
  }

  /** What a row adds to the vendor options: `row.vendor?.name || row.vendorName`, only when truthy. */
  function VendorOption(vendor: Option<Vendor>, vendorName: Option<string>): (r: Option<string>)
    ensures r.Some? ==> r.value != "" && r.value == VendorName(vendor, vendorName)
    ensures r.None? ==> VendorName(vendor, vendorName) == ""
  {
    if vendor.Some? && Present(vendor.value.name) then vendor.value.name
    else if Present(vendorName) then vendorName
    else None
  }

  // ---------------------------------------------------------------------------
  // selector options

  /**
   * `rows.forEach(row => set.add(...))` followed by `Array.from(set).sort()`:
   * every name some row offers, each once, in increasing code-unit order.
   */
  method AvailableOptions<T>(rows: seq<T>, candidate: T -> Option<string>) returns (options: seq<string>)
    ensures forall x :: x in options <==> exists k :: 0 <= k < |rows| && candidate(rows[k]) == Some(x)
    ensures forall i, j :: 0 <= i < j < |options| ==> LexLess(options[i], options[j])
  {
    var seen: seq<string> := [];
    var i := 0;
    while i < |rows|
      invariant 0 <= i <= |rows|
      invariant Distinct(seen)
      invariant forall x :: x in seen <==> exists k :: 0 <= k < i && candidate(rows[k]) == Some(x)
    {
      var c := candidate(rows[i]);
      if c.Some? && c.value !in seen {
        seen := seen + [c.value];
      }
      forall x ensures x in seen <==> exists k :: 0 <= k < i + 1 && candidate(rows[k]) == Some(x) {
        if candidate(rows[i]) == Some(x) {
          assert x in seen;
        }
      }
      i := i + 1;
    }
    options := Sort(seen, CmpByLess(ByKey(AsText), false));
    SortDistinctStrings(seen);
    forall x ensures x in options <==> x in seen {
      assert x in options <==> x in multiset(options);
      assert x in seen <==> x in multiset(seen);
    }
  }

  // ---------------------------------------------------------------------------
  // filtering

  /** The value of a selector that lets every row through. */
  const All := "all"

  /** `filter === 'all' || name === filter`. */
  predicate Selects(selector: string, name: string) {
    selector == All || name == selector
  }

  /** `(field && field.toLowerCase().includes(searchLower))` on an optional text field. */
  predicate FieldHit(field: Option<string>, searchLower: string) {
    Present(field) && Includes(ToLower(field.value), searchLower)
  }

  /** `name.toLowerCase().includes(searchLower)` on a derived name. */
  predicate NameHit(name: string, searchLower: string) {
    Includes(ToLower(name), searchLower)
  }

  // ---------------------------------------------------------------------------
  // pipelines

  datatype Pipeline = Pipeline(
    name: Option<string>, code: Option<string>,
    status: Facet, system: Facet, product: Facet,
    vendor: Option<Vendor>, vendorName: Option<string>)

  /** The search text and the four selectors of the pipeline page. */
  datatype PipelineFilters = PipelineFilters(searchText: string, status: string, system: string, vendor: string, product: string)

  const NoPipelineFilters := PipelineFilters("", All, All, All, All)

  /** An empty search, or a hit in the name, code, system, vendor, status or product. */
  predicate PipelineMatchesSearch(p: Pipeline, searchText: string, language: string) {
    var lower := ToLower(searchText);
    || searchText == ""
    || FieldHit(p.name, lower)
    || FieldHit(p.code, lower)
    || NameHit(FacetName(p.system, language), lower)
    || NameHit(VendorName(p.vendor, p.vendorName), lower)
    || NameHit(FacetName(p.status, language), lower)
    || NameHit(FacetName(p.product, language), lower)
  }

  predicate KeepsPipeline(f: PipelineFilters, language: string, p: Pipeline) {
    && PipelineMatchesSearch(p, f.searchText, language)
    && Selects(f.status, FacetName(p.status, language))
    && Selects(f.system, FacetName(p.system, language))
    && Selects(f.vendor, VendorName(p.vendor, p.vendorName))
    && Selects(f.product, FacetName(p.product, language))
  }

  function PipelineTest(f: PipelineFilters, language: string): Pipeline -> bool {
    p => KeepsPipeline(f, language, p)
  }

  /** `filteredPipelines`. */
  function FilteredPipelines(pipelines: seq<Pipeline>, f: PipelineFilters, language: string): (r: seq<Pipeline>)
    ensures |r| <= |pipelines|
    ensures forall p :: p in r ==> p in pipelines && KeepsPipeline(f, language, p)
  {
    Filter(pipelines, PipelineTest(f, language))
  }

  /** The visible rows keep their order and are exactly the pipelines that pass the search and all four selectors. */
  lemma FilteredPipelinesSpec(pipelines: seq<Pipeline>, f: PipelineFilters, language: string)
    ensures IsSubsequence(FilteredPipelines(pipelines, f, language), pipelines)
    ensures forall p :: p in FilteredPipelines(pipelines, f, language) <==>
      && p in pipelines
      && PipelineMatchesSearch(p, f.searchText, language)
      && Selects(f.status, FacetName(p.status, language))
      && Selects(f.system, FacetName(p.system, language))
      && Selects(f.vendor, VendorName(p.vendor, p.vendorName))
      && Selects(f.product, FacetName(p.product, language))
  {
    FilterSpec(pipelines, PipelineTest(f, language));
  }

  /** With the filters cleared every pipeline is shown, in its order. */
  lemma NoPipelineFiltersKeepAll(pipelines: seq<Pipeline>, language: string)
    ensures FilteredPipelines(pipelines, NoPipelineFilters, language) == pipelines
  {
    FilterAll(pipelines, PipelineTest(NoPipelineFilters, language));
  }

  /** The search ignores the case of the search text. */
  lemma PipelineSearchIgnoresCase(pipelines: seq<Pipeline>, f: PipelineFilters, text: string, language: string)
    requires ToLower(text) == ToLower(f.searchText)
    ensures FilteredPipelines(pipelines, f.(searchText := text), language) == FilteredPipelines(pipelines, f, language)
  {
    assert text == "" <==> f.searchText == "";
    FilterSameTest(pipelines, PipelineTest(f.(searchText := text), language), PipelineTest(f, language));
  }

  /** The four selectors of the pipeline page. */
  datatype PipelineColumn = PipelineStatus | PipelineSystem | PipelineVendor | PipelineProduct

  /** What a pipeline adds to the options of a selector. */
  function PipelineCandidate(p: Pipeline, column: PipelineColumn, language: string): Option<string> {
    match column
    case PipelineStatus => FacetOption(p.status, language)
    case PipelineSystem => FacetOption(p.system, language)
    case PipelineVendor => VendorOption(p.vendor, p.vendorName)
    case PipelineProduct => FacetOption(p.product, language)
  }

  function PipelineCandidates(column: PipelineColumn, language: string): Pipeline -> Option<string> {
    p => PipelineCandidate(p, column, language)
  }

  /** The filters with one selector set to `value` and everything else cleared. */
  function SelectPipelines(column: PipelineColumn, value: string): PipelineFilters {
    match column
    case PipelineStatus => NoPipelineFilters.(status := value)
    case PipelineSystem => NoPipelineFilters.(system := value)
    case PipelineVendor => NoPipelineFilters.(vendor := value)
    case PipelineProduct => NoPipelineFilters.(product := value)
  }

  /** Choosing an option a pipeline offered keeps that pipeline on screen. */
  lemma PipelineOptionShowsItsRow(pipelines: seq<Pipeline>, k: nat, column: PipelineColumn, language: string)
    requires k < |pipelines| && PipelineCandidate(pipelines[k], column, language).Some?
    ensures var x := PipelineCandidate(pipelines[k], column, language).value;
      pipelines[k] in FilteredPipelines(pipelines, SelectPipelines(column, x), language)
  {
    var x := PipelineCandidate(pipelines[k], column, language).value;
    FilteredPipelinesSpec(pipelines, SelectPipelines(column, x), language);
  }

  // ---------------------------------------------------------------------------
  // terminals, stations and hydrocarbon fields

  /** A terminal, station or hydrocarbon field; `kind` is its terminal, station or field type. */
  datatype Asset = Asset(
    name: Option<string>, code: Option<string>, placeName: Option<string>,
    status: Facet, kind: Facet,
    vendor: Option<Vendor>, vendorName: Option<string>)

  /** The search text and the status, type and vendor selectors. */
  datatype AssetFilters = AssetFilters(searchText: string, status: string, kind: string, vendor: string)

  const NoAssetFilters := AssetFilters("", All, All, All)

  /** An empty search, or a hit in the name, code, place, type, vendor or status. */
  predicate AssetMatchesSearch(a: Asset, searchText: string, language: string) {
    var lower := ToLower(searchText);
    || searchText == ""
    || FieldHit(a.name, lower)
    || FieldHit(a.code, lower)
    || FieldHit(a.placeName, lower)
    || NameHit(FacetName(a.kind, language), lower)
    || NameHit(VendorName(a.vendor, a.vendorName), lower)
    || NameHit(FacetName(a.status, language), lower)
  }

  predicate KeepsAsset(f: AssetFilters, language: string, a: Asset) {
    && AssetMatchesSearch(a, f.searchText, language)
    && Selects(f.status, FacetName(a.status, language))
    && Selects(f.kind, FacetName(a.kind, language))
    && Selects(f.vendor, VendorName(a.vendor, a.vendorName))
  }

  function AssetTest(f: AssetFilters, language: string): Asset -> bool {
    a => KeepsAsset(f, language, a)
  }

  /** `filteredTerminals`, `filteredStations`, `filteredFields`. */
  function FilteredAssets(assets: seq<Asset>, f: AssetFilters, language: string): (r: seq<Asset>)
    ensures |r| <= |assets|
    ensures forall a :: a in r ==> a in assets && KeepsAsset(f, language, a)
  {
    Filter(assets, AssetTest(f, language))
  }

  /** The visible rows keep their order and are exactly the rows that pass the search and the three selectors. */
  lemma FilteredAssetsSpec(assets: seq<Asset>, f: AssetFilters, language: string)
    ensures IsSubsequence(FilteredAssets(assets, f, language), assets)
    ensures forall a :: a in FilteredAssets(assets, f, language) <==>
      && a in assets
      && AssetMatchesSearch(a, f.searchText, language)
      && Selects(f.status, FacetName(a.status, language))
      && Selects(f.kind, FacetName(a.kind, language))
      && Selects(f.vendor, VendorName(a.vendor, a.vendorName))
  {
    FilterSpec(assets, AssetTest(f, language));
  }

  /** With the filters cleared every row is shown, in its order. */
  lemma NoAssetFiltersKeepAll(assets: seq<Asset>, language: string)
    ensures FilteredAssets(assets, NoAssetFilters, language) == assets
  {
    FilterAll(assets, AssetTest(NoAssetFilters, language));
  }

  /** The search ignores the case of the search text. */
  lemma AssetSearchIgnoresCase(assets: seq<Asset>, f: AssetFilters, text: string, language: string)
    requires ToLower(text) == ToLower(f.searchText)
    ensures FilteredAssets(assets, f.(searchText := text), language) == FilteredAssets(assets, f, language)
  {
    assert text == "" <==> f.searchText == "";
    FilterSameTest(assets, AssetTest(f.(searchText := text), language), AssetTest(f, language));
  }

  /** The three selectors of the terminal, station and field pages. */
  datatype AssetColumn = AssetStatus | AssetKind | AssetVendor

  function AssetCandidate(a: Asset, column: AssetColumn, language: string): Option<string> {
    match column
    case AssetStatus => FacetOption(a.status, language)
    case AssetKind => FacetOption(a.kind, language)
    case AssetVendor => VendorOption(a.vendor, a.vendorName)
  }

  function AssetCandidates(column: AssetColumn, language: string): Asset -> Option<string> {
    a => AssetCandidate(a, column, language)
  }

  function SelectAssets(column: AssetColumn, value: string): AssetFilters {
    match column
    case AssetStatus => NoAssetFilters.(status := value)
    case AssetKind => NoAssetFilters.(kind := value)
    case AssetVendor => NoAssetFilters.(vendor := value)
  }

  /** Choosing an option a row offered keeps that row on screen. */
  lemma AssetOptionShowsItsRow(assets: seq<Asset>, k: nat, column: AssetColumn, language: string)
    requires k < |assets| && AssetCandidate(assets[k], column, language).Some?
    ensures var x := AssetCandidate(assets[k], column, language).value;
      assets[k] in FilteredAssets(assets, SelectAssets(column, x), language)
  {
    var x := AssetCandidate(assets[k], column, language).value;
    FilteredAssetsSpec(assets, SelectAssets(column, x), language);
  }

  // ---------------------------------------------------------------------------
  // page state

  /** How a load ended: a response body, or a thrown error with its optional message. */
  datatype Loaded<T> = Returned(response: Json<T>) | Threw(message: Option<string>)

  /** `err.message || fallback`. */
  function ErrorText(message: Option<string>, fallback: string): (r: string)
    ensures r != "" <==> Present(message) || fallback != ""
  {
    if Present(message) then message.value else fallback
  }

  /** The pipeline page: the loaded rows, the error banner and the filter state. */
  class PipelineListPage {
    var pipelines: seq<Pipeline>
    var error: string
    var filters: PipelineFilters
    const language: string

    /** `i18n.language || 'en'`; nothing loaded, every filter cleared. */
    constructor(i18nLanguage: string)
      ensures pipelines == [] && error == "" && filters == NoPipelineFilters
      ensures language == OrElse(i18nLanguage, "en")
    {
      pipelines := [];
      error := "";
      filters := NoPipelineFilters;
      language := OrElse(i18nLanguage, "en");
    }

    /** The rows on screen. */
    function Visible(): seq<Pipeline>
      reads this
    {
      FilteredPipelines(pipelines, filters, language)
    }

    /** `loadPipelines`: keep the normalised rows and clear the error, or show the error and drop the rows. */
    method Load(outcome: Loaded<Pipeline>)
      modifies this
      ensures outcome.Returned? ==> pipelines == Normalize(outcome.response, "pipelines") && error == ""
      ensures outcome.Threw? ==> pipelines == [] && error == ErrorText(outcome.message, "Failed to load pipelines")
      ensures filters == old(filters)
    {
      match outcome
      case Returned(response) =>
        pipelines := Normalize(response, "pipelines");
        error := "";
      case Threw(message) =>
        error := ErrorText(message, "Failed to load pipelines");
        pipelines := [];
    }

    method SetSearchText(text: string)
      modifies this
      ensures filters == old(filters).(searchText := text)
      ensures pipelines == old(pipelines) && error == old(error)
    {
      filters := filters.(searchText := text);
    }

    /** A selector's `onChange`. */
    method SetSelector(column: PipelineColumn, value: string)
      modifies this
      ensures filters.searchText == old(filters.searchText)
      ensures filters.status == (if column == PipelineStatus then value else old(filters.status))
      ensures filters.system == (if column == PipelineSystem then value else old(filters.system))
      ensures filters.vendor == (if column == PipelineVendor then value else old(filters.vendor))
      ensures filters.product == (if column == PipelineProduct then value else old(filters.product))
      ensures pipelines == old(pipelines) && error == old(error)
    {
      match column
      case PipelineStatus => filters := filters.(status := value);
      case PipelineSystem => filters := filters.(system := value);
      case PipelineVendor => filters := filters.(vendor := value);
      case PipelineProduct => filters := filters.(product := value);
    }

    /** `handleClearFilters`: every pipeline is on screen again. */
    method HandleClearFilters()
      modifies this
      ensures filters == NoPipelineFilters
      ensures pipelines == old(pipelines) && error == old(error)
      ensures Visible() == pipelines
    {
      filters := NoPipelineFilters;
      NoPipelineFiltersKeepAll(pipelines, language);
    }

    /** `availableStatuses`, `availableSystems`, `availableVendors`, `availableProducts`. */
    method Options(column: PipelineColumn) returns (options: seq<string>)
      ensures forall x :: x in options <==>
        exists k :: 0 <= k < |pipelines| && PipelineCandidate(pipelines[k], column, language) == Some(x)
      ensures forall i, j :: 0 <= i < j < |options| ==> LexLess(options[i], options[j])
    {
      options := AvailableOptions(pipelines, PipelineCandidates(column, language));
    }
  }

  /** A terminal, station or hydrocarbon field page; `collection` and `fallback` name the page's rows. */
  class AssetListPage {
    var assets: seq<Asset>
    var error: string
    var filters: AssetFilters
    const language: string
    const collection: string
    const fallback: string

    constructor(i18nLanguage: string, collection: string, fallback: string)
      ensures assets == [] && error == "" && filters == NoAssetFilters
      ensures language == OrElse(i18nLanguage, "en")
      ensures this.collection == collection && this.fallback == fallback
    {
      assets := [];
      error := "";
      filters := NoAssetFilters;
      language := OrElse(i18nLanguage, "en");
      this.collection := collection;
      this.fallback := fallback;
    }

    function Visible(): seq<Asset>
      reads this
    {
      FilteredAssets(assets, filters, language)
    }

    /** `loadTerminals`, `loadStations`, `loadFields`. */
    method Load(outcome: Loaded<Asset>)
      modifies this
      ensures outcome.Returned? ==> assets == Normalize(outcome.response, collection) && error == ""
      ensures outcome.Threw? ==> assets == [] && error == ErrorText(outcome.message, fallback)
      ensures filters == old(filters)
    {
      match outcome
      case Returned(response) =>
        assets := Normalize(response, collection);
        error := "";
      case Threw(message) =>
        error := ErrorText(message, fallback);
        assets := [];
    }

    method SetSearchText(text: string)
      modifies this
      ensures filters == old(filters).(searchText := text)
      ensures assets == old(assets) && error == old(error)
    {
      filters := filters.(searchText := text);
    }

    method SetSelector(column: AssetColumn, value: string)
      modifies this
      ensures filters.searchText == old(filters.searchText)
      ensures filters.status == (if column == AssetStatus then value else old(filters.status))
      ensures filters.kind == (if column == AssetKind then value else old(filters.kind))
      ensures filters.vendor == (if column == AssetVendor then value else old(filters.vendor))
      ensures assets == old(assets) && error == old(error)
    {
      match column
      case AssetStatus => filters := filters.(status := value);
      case AssetKind => filters := filters.(kind := value);
      case AssetVendor => filters := filters.(vendor := value);
    }

    /** `handleClearFilters`: every row is on screen again. */
    method HandleClearFilters()
      modifies this
      ensures filters == NoAssetFilters
      ensures assets == old(assets) && error == old(error)
      ensures Visible() == assets
    {
      filters := NoAssetFilters;
      NoAssetFiltersKeepAll(assets, language);
    }

    /** `availableStatuses`, `availableTypes`, `availableVendors`. */
    method Options(column: AssetColumn) returns (options: seq<string>)
      ensures forall x :: x in options <==>
        exists k :: 0 <= k < |assets| && AssetCandidate(assets[k], column, language) == Some(x)
      ensures forall i, j :: 0 <= i < j < |options| ==> LexLess(options[i], options[j])
    {
      options := AvailableOptions(assets, AssetCandidates(column, language));
    }
  }
}
