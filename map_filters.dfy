/**
 * The layer switches of the network map: one visibility flag per layer,
 * flipped one at a time or all set at once.
 */
module MapFilters {

  /** The four layer flags of the map. */
  datatype Flags = Flags(showStations: bool, showTerminals: bool, showHydrocarbonFields: bool, showPipelines: bool)

  datatype Layer = Stations | Terminals | HydrocarbonFields | Pipelines

  /** `filters[key]`. */
  function Shown(f: Flags, key: Layer): bool {
    match key
    case Stations => f.showStations
    case Terminals => f.showTerminals
    case HydrocarbonFields => f.showHydrocarbonFields
    case Pipelines => f.showPipelines
  }

  /** `{...prev, [key]: !prev[key]}`. */
  function Toggled(f: Flags, key: Layer): (r: Flags)
    ensures Shown(r, key) == !Shown(f, key)
    ensures forall other :: other != key ==> Shown(r, other) == Shown(f, other)
  {
    match key
    case Stations => f.(showStations := !f.showStations)
    case Terminals => f.(showTerminals := !f.showTerminals)
    case HydrocarbonFields => f.(showHydrocarbonFields := !f.showHydrocarbonFields)
    case Pipelines => f.(showPipelines := !f.showPipelines)
  }

  /** Every layer set to `value`. */
  function AllSetTo(value: bool): (r: Flags)
    ensures forall key :: Shown(r, key) == value
  {
    Flags(value, value, value, value)
  }

  /** Two flag records that agree on every layer are the same record. */
  lemma FlagsByLayer(f: Flags, g: Flags)
    requires forall key :: Shown(f, key) == Shown(g, key)
    ensures f == g
  {
    assert Shown(f, Stations) == Shown(g, Stations);
    assert Shown(f, Terminals) == Shown(g, Terminals);
    assert Shown(f, HydrocarbonFields) == Shown(g, HydrocarbonFields);
    assert Shown(f, Pipelines) == Shown(g, Pipelines);
  }

  /** Flipping the same layer twice restores the switches. */
  lemma ToggleTwice(f: Flags, key: Layer)
    ensures Toggled(Toggled(f, key), key) == f
  {
    FlagsByLayer(Toggled(Toggled(f, key), key), f);
  }

  /** Flips of two layers can be made in either order. */
  lemma TogglesCommute(f: Flags, a: Layer, b: Layer)
    ensures Toggled(Toggled(f, a), b) == Toggled(Toggled(f, b), a)
  {
    FlagsByLayer(Toggled(Toggled(f, a), b), Toggled(Toggled(f, b), a));
  }

  /** `useMapFilters`: the flags as component state. */
  class MapFilterState {
    var filters: Flags

    /** Every layer is shown at first. */
    constructor()
      ensures forall key :: Shown(filters, key)
    {
      filters := Flags(true, true, true, true);
    }

    /** `toggleFilter(key)`: flips that layer and leaves the other three alone. */
    method ToggleFilter(key: Layer)
      modifies this
      ensures filters == Toggled(old(filters), key)
      ensures Shown(filters, key) == !Shown(old(filters), key)
      ensures forall other :: other != key ==> Shown(filters, other) == Shown(old(filters), other)
    {
      filters := Toggled(filters, key);
    }

    /** `setAllFilters(value)`: every layer to `value`; a second call changes nothing. */
    method SetAllFilters(value: bool)
      modifies this
      ensures forall key :: Shown(filters, key) == value
      ensures filters == AllSetTo(value)
    {
      filters := Flags(value, value, value, value);
    }
  }
}
