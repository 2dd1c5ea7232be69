/**
 * The role and group edit pages. A role holds permissions and a group holds
 * roles; both pages load the list of what can be held, match the record's
 * entries against it by id, check the name before saving, and report the
 * outcome of the save.
 */
module EditPages {
  import opened Js
  import ListOps

  /** A permission (on the role page) or a role (on the group page); the id may be missing. */
  datatype Item = Item(id: Option<int>, name: string)

  /** The role or group being edited; `items` are its permissions or roles. */
  datatype Record = Record(id: Option<int>, name: string, description: string, items: Option<seq<Item>>)

  // ---------------------------------------------------------------------------
  // matching by id

  /** `available.find(a => a.id === id)`: the first available entry with that id (a missing id matches a missing id). */
  function Find(available: seq<Item>, id: Option<int>): (r: Option<Item>)
    ensures r.Some? ==> r.value in available && r.value.id == id
    ensures r.None? ==> forall a :: a in available ==> a.id != id
    ensures r.Some? ==> exists k :: (0 <= k < |available| && available[k] == r.value
      && forall j :: 0 <= j < k ==> available[j].id != id)
  {
    if available == [] then None
    else if available[0].id == id then Some(available[0])
    else
      var r := Find(available[1..], id);
      if r.Some? then
        var k :| 0 <= k < |available[1..]| && available[1..][k] == r.value
          && forall j :: 0 <= j < k ==> available[1..][j].id != id;
        assert available[k + 1] == r.value;
        r
      else r
  }

  /** `held.map(h => available.find(a => a.id === h.id)).filter(a => a !== undefined)`. */
  function MatchById(held: seq<Item>, available: seq<Item>): (r: seq<Item>)
    ensures |r| <= |held|
    ensures forall x :: x in r ==> x in available
    ensures forall x :: x in r ==> exists h :: h in held && h.id == x.id
    ensures forall h :: h in held && Find(available, h.id).Some? ==> Find(available, h.id).value in r
    decreases |held|
  {
    if held == [] then []
    else
      var rest := MatchById(held[1..], available);
      var found := Find(available, held[0].id);
      var r := if found.Some? then [found.value] + rest else rest;
      assert forall h :: h in held ==> h == held[0] || h in held[1..];
      assert forall x :: x in r ==> exists h :: h in held && h.id == x.id by {
        forall x | x in r ensures exists h :: h in held && h.id == x.id {
          if x in rest {
            var h :| h in held[1..] && h.id == x.id;
            assert h in held;
          } else {
            assert held[0] in held && held[0].id == x.id;
          }
        }
      }
      r
  }

  /** The test of the `filter`: the held entry's id is among the available ones. */
  function IsAvailable(available: seq<Item>): Item -> bool {
    (h: Item) => Find(available, h.id).Some?
  }

  /**
   * The matched entries are, one for one and in the record's order, the
   * lookups of the held entries whose id is available; with
   * `ListOps.FilterSpec` on the filter, entries with an unknown id are
   * exactly the ones dropped.
   */
  lemma {:induction false} MatchByIdIsLookupOfAvailable(held: seq<Item>, available: seq<Item>)
    ensures |MatchById(held, available)| == |ListOps.Filter(held, IsAvailable(available))|
    ensures forall i :: 0 <= i < |MatchById(held, available)| ==>
      Find(available, ListOps.Filter(held, IsAvailable(available))[i].id) == Some(MatchById(held, available)[i])
    decreases |held|
  {
    if held != [] {
      MatchByIdIsLookupOfAvailable(held[1..], available);
      var kept, rest := ListOps.Filter(held[1..], IsAvailable(available)), MatchById(held[1..], available);
      var all, r := ListOps.Filter(held, IsAvailable(available)), MatchById(held, available);
      var found := Find(available, held[0].id);
      if found.Some? {
        assert all == [held[0]] + kept;
        assert r == [found.value] + rest;
        ConsPointwise(held[0], found.value, kept, rest, IsLookup(available));
      } else {
        assert all == kept;
        assert r == rest;
      }
    }
  }

  /** Putting a related pair in front of two lists related index by index keeps them related index by index. */
  lemma ConsPointwise<T, U>(h: T, a: U, kept: seq<T>, rest: seq<U>, related: (T, U) -> bool)
    requires related(h, a)
    requires |rest| == |kept|
    requires forall i :: 0 <= i < |rest| ==> related(kept[i], rest[i])
    ensures forall i :: 0 <= i < |rest| + 1 ==> related(([h] + kept)[i], ([a] + rest)[i])
  {
    forall i | 0 <= i < |rest| + 1 ensures related(([h] + kept)[i], ([a] + rest)[i]) {
      if i > 0 {
        assert ([h] + kept)[i] == kept[i - 1] && ([a] + rest)[i] == rest[i - 1];
      }
    }
  }

  /** `a` is what looking up `h`'s id among the available entries gives. */
  function IsLookup(available: seq<Item>): (Item, Item) -> bool {
    (h: Item, a: Item) => Find(available, h.id) == Some(a)
  }

  /** When every held id is available, nothing is dropped and the order of the record is kept. */
  lemma {:induction false} AllFoundKeepsOrder(held: seq<Item>, available: seq<Item>)
    requires forall i :: 0 <= i < |held| ==> Find(available, held[i].id).Some?
    ensures |MatchById(held, available)| == |held|
    ensures forall i :: 0 <= i < |held| ==> MatchById(held, available)[i].id == held[i].id
  {
    assert forall h :: h in held ==> IsAvailable(available)(h) by {
      forall h | h in held ensures IsAvailable(available)(h) {
        var i :| 0 <= i < |held| && held[i] == h;
      }
    }
    ListOps.FilterAll(held, IsAvailable(available));
    MatchByIdIsLookupOfAvailable(held, available);
  }

  /** The selection a loaded record starts with: none when it holds nothing. */
  function Selection(items: Option<seq<Item>>, available: seq<Item>): (r: seq<Item>)
    ensures items.None? || items.value == [] ==> r == []
  {
    if items.Some? && |items.value| > 0 then MatchById(items.value, available) else []
  }

  // ---------------------------------------------------------------------------
  // name check

  /** The error `handleSave` shows for a name, if any; `noun` is "Role" or "Group". */
  function NameError(name: string, noun: string): (r: Option<string>)
    ensures r.None? <==> 2 <= Length(name) <= 50
    ensures name == "" ==> r == Some(noun + " name is required")
  {
    if name == "" then Some(noun + " name is required")
    else if Length(name) < 2 || Length(name) > 50 then Some(noun + " name must be between 2 and 50 characters")
    else None
  }

  /** `name.length` counts UTF-16 code units: one character outside the Basic Multilingual Plane is long enough. */
  lemma SurrogatePairNameAccepted(c: char, noun: string)
    requires c as int >= 0x10000
    ensures NameError([c], noun).None?
  {
    assert Length([c]) == 2;
  }

  // ---------------------------------------------------------------------------
  // page state

  /**
   * How loading ended: the available entries and, when editing, the stored
   * record; or a thrown error, with the available entries when the record's
   * request was the one that threw (`fetched`).
   */
  datatype Loaded =
    | Loaded(available: seq<Item>, stored: Option<Record>)
    | LoadFailed(fetched: Option<seq<Item>>, message: Option<string>)

  /** How saving ended: stored, or a thrown error (`message` is absent for a thrown non-`Error`). */
  datatype Saved = SavedOk | SaveFailed(message: Option<string>)

  /** A role or group edit page. */
  class EditPage {
    var record: Record
    var available: seq<Item>
    var error: Option<string>
    var success: Option<string>
    var saving: bool
    /** "Role" or "Group", and the page's lower-case plural for messages and the list path. */
    const noun: string
    const plural: string
    const isEditMode: bool

    constructor(noun: string, plural: string, isEditMode: bool)
      ensures record == Record(None, "", "", Some([])) && available == []
      ensures error == None && success == None && !saving
      ensures this.noun == noun && this.plural == plural && this.isEditMode == isEditMode
    {
      record := Record(None, "", "", Some([]));
      available := [];
      error := None;
      success := None;
      saving := false;
      this.noun := noun;
      this.plural := plural;
      this.isEditMode := isEditMode;
    }

    /** The data effect: the available entries, and the stored record with its entries matched against them. */
    method Load(outcome: Loaded)
      modifies this
      ensures outcome.Loaded? ==> available == outcome.available && error == None
      ensures outcome.Loaded? && isEditMode && outcome.stored.Some? ==>
        record == outcome.stored.value.(items := Some(Selection(outcome.stored.value.items, outcome.available)))
      ensures outcome.Loaded? && !(isEditMode && outcome.stored.Some?) ==> record == old(record)
      ensures outcome.LoadFailed? ==> record == old(record)
      ensures outcome.LoadFailed? ==> available == if outcome.fetched.Some? then outcome.fetched.value else old(available)
      ensures outcome.LoadFailed? ==> error == Some(if outcome.message.Some? then outcome.message.value else "Failed to load data")
      ensures success == old(success) && saving == old(saving)
    {
      error := None;
      match outcome {
        case Loaded(items, stored) =>
          available := items;
          if isEditMode && stored.Some? {
            record := stored.value.(items := Some(Selection(stored.value.items, items)));
          }
        case LoadFailed(fetched, message) =>
          if fetched.Some? {
            available := fetched.value;
          }
          error := Some(if message.Some? then message.value else "Failed to load data");
      }
    }

    method SetName(name: string)
      modifies this
      ensures record == old(record).(name := name)
      ensures available == old(available) && error == old(error) && success == old(success) && saving == old(saving)
    {
      record := record.(name := name);
    }

    method SetItems(items: seq<Item>)
      modifies this
      ensures record == old(record).(items := Some(items))
      ensures available == old(available) && error == old(error) && success == old(success) && saving == old(saving)
    {
      record := record.(items := Some(items));
    }

    /**
     * `handleSave` with the service's outcome: a name outside 2 to 50
     * characters is refused before any call; otherwise the record is sent and
     * the page goes back to the list after a success.
     */
    method HandleSave(outcome: Saved) returns (called: bool, navigateTo: Option<string>)
      modifies this
      ensures called <==> NameError(record.name, noun).None?
      ensures !called ==> error == NameError(record.name, noun) && success == None && navigateTo == None
      ensures called && outcome.SavedOk? ==> error == None && navigateTo == Some("/security/" + plural)
      ensures called && outcome.SavedOk? ==>
        success == Some(noun + (if isEditMode then " updated successfully" else " created successfully"))
      ensures called && outcome.SaveFailed? ==> success == None && navigateTo == None
      ensures called && outcome.SaveFailed? ==>
        error == Some(if outcome.message.Some? then outcome.message.value else "Failed to save " + ToLower(noun))
      ensures record == old(record) && available == old(available) && !saving
    {
      error := None;
      success := None;
      navigateTo := None;
      var problem := NameError(record.name, noun);
      if problem.Some? {
        error := problem;
        saving := false;
        return false, None;
      }
      saving := true;
      match outcome {
        case SavedOk =>
          success := Some(noun + (if isEditMode then " updated successfully" else " created successfully"));
          navigateTo := Some("/security/" + plural);
        case SaveFailed(message) =>
          error := Some(if message.Some? then message.value else "Failed to save " + ToLower(noun));
      }
      saving := false;
      called := true;
    }
  }
}
