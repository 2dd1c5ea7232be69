/**
 * The nested navigation bar: menu items are grouped under their group
 * heading, each label gets an icon from its menu's table, and at most one
 * drop-down menu is open at a time.
 */
module NestedNavbar {
  import opened Js
  import opened ListOps

  /** A menu entry; `name` is its label. */
  datatype MenuItem = MenuItem(name: string, path: Option<string>, group: Option<string>)

  /** `item.group || 'Other'`. */
  function GroupKey(item: MenuItem): (g: string)
    ensures g != ""
    ensures Present(item.group) ==> g == item.group.value
  {
    if Present(item.group) then item.group.value else "Other"
  }

  predicate InGroup(item: MenuItem, g: string) {
    GroupKey(item) == g
  }

  function InGroupOf(g: string): MenuItem -> bool {
    (it: MenuItem) => InGroup(it, g)
  }

  /**
   * The grouping after the items of `items` have been visited in order: the
   * group keys in the order they were created, and each group's items.
   */
  function Grouped(items: seq<MenuItem>): (r: (seq<string>, map<string, seq<MenuItem>>))
    ensures |r.0| <= |items|
    decreases |items|
  {
    if items == [] then ([], map[])
    else
      var (keys, groups) := Grouped(items[..|items| - 1]);
      var item := items[|items| - 1];
      var g := GroupKey(item);
      if g in groups then (keys, groups[g := groups[g] + [item]])
      else (keys + [g], groups[g := [item]])
  }

  /** `groupMenuItems(items)`: one pass over the items, appending each to its group. */
  method GroupMenuItems(items: seq<MenuItem>) returns (keys: seq<string>, groups: map<string, seq<MenuItem>>)
    ensures (keys, groups) == Grouped(items)
  {
    keys := [];
    groups := map[];
    var i := 0;
    while i < |items|
      invariant 0 <= i <= |items|
      invariant (keys, groups) == Grouped(items[..i])
    {
      var item := items[i];
      var g := GroupKey(item);
      assert items[..i + 1][..i] == items[..i] && items[..i + 1][i] == item;
      assert Grouped(items[..i + 1]) == (if g in groups then (keys, groups[g := groups[g] + [item]]) else (keys + [g], groups[g := [item]]));
      ghost var before := groups;
      if g !in groups {
        groups := groups[g := []];
        keys := keys + [g];
      }
      assert groups[g] + [item] == (if g in before then before[g] + [item] else [item]);
      groups := groups[g := groups[g] + [item]];
      assert groups.Keys == before.Keys + {g};
      assert groups == (if g in before then before[g := before[g] + [item]] else before[g := [item]]);
      i := i + 1;
    }
    assert items[..i] == items;
  }

  /** The index of the first item of group `g`. */
  predicate FirstAt(items: seq<MenuItem>, g: string, n: int) {
    0 <= n < |items| && InGroup(items[n], g) && forall k :: 0 <= k < n ==> !InGroup(items[k], g)
  }

  /** Some item belongs to group `g`. */
  predicate Occurs(items: seq<MenuItem>, g: string) {
    exists k :: 0 <= k < |items| && InGroup(items[k], g)
  }

  lemma OccursSnoc(items: seq<MenuItem>)
    requires items != []
    ensures forall h :: Occurs(items, h) <==> Occurs(items[..|items| - 1], h) || h == GroupKey(items[|items| - 1])
  {
    var p := items[..|items| - 1];
    forall h ensures Occurs(items, h) <==> Occurs(p, h) || h == GroupKey(items[|items| - 1]) {
      if Occurs(items, h) {
        var k :| 0 <= k < |items| && InGroup(items[k], h);
        assert k < |p| ==> p[k] == items[k];
      }
      if Occurs(p, h) {
        var k :| 0 <= k < |p| && InGroup(p[k], h);
        assert p[k] == items[k];
      }
      assert InGroup(items[|items| - 1], GroupKey(items[|items| - 1]));
    }
  }

  /** The key list and the map name the same groups, and no key is listed twice. */
  ghost predicate KeysMatch(keys: seq<string>, groups: map<string, seq<MenuItem>>) {
    (forall g :: g in groups <==> g in keys) && Distinct(keys)
  }

  /** The keys are listed in the order of their groups' first items. */
  ghost predicate KeysInFirstOrder(items: seq<MenuItem>, keys: seq<string>) {
    forall i, j, m, n :: 0 <= i < j < |keys| && FirstAt(items, keys[i], m) && FirstAt(items, keys[j], n) ==> m < n
  }

  /**
   * The keys are exactly the groups some item belongs to, each once, in the
   * order of each group's first item.
   */
  lemma {:induction false} GroupedKeys(items: seq<MenuItem>)
    ensures KeysMatch(Grouped(items).0, Grouped(items).1)
    ensures forall g :: g in Grouped(items).0 <==> Occurs(items, g)
    ensures KeysInFirstOrder(items, Grouped(items).0)
    decreases |items|
  {
    if items != [] {
      var p := items[..|items| - 1];
      var x := items[|items| - 1];
      GroupedKeys(p);
      OccursSnoc(items);
      var keys, groups := Grouped(p).0, Grouped(p).1;
      var keys', groups' := Grouped(items).0, Grouped(items).1;
      var g := GroupKey(x);
      assert KeysMatch(keys, groups);
      assert forall h :: h in keys <==> Occurs(p, h);
      if g in groups {
        assert keys' == keys && groups' == groups[g := groups[g] + [x]];
        assert g in keys;
        assert KeysMatch(keys', groups');
      } else {
        assert keys' == keys + [g] && groups' == groups[g := [x]];
        assert g !in keys;
        forall h ensures h in groups' <==> h in keys' {
          assert h in keys' <==> h in keys || h == g;
        }
        forall i, j | 0 <= i < j < |keys'| ensures keys'[i] != keys'[j] {
          assert keys'[i] == keys[i] && keys[i] in keys;
          if j < |keys| {
            assert keys'[j] == keys[j];
          }
        }
        assert KeysMatch(keys', groups');
      }
      forall h ensures h in keys' <==> Occurs(items, h) {
        assert h in keys' <==> h in keys || h == g;
      }
      forall i, j, m, n | 0 <= i < j < |keys'| && FirstAt(items, keys'[i], m) && FirstAt(items, keys'[j], n) ensures m < n {
        assert keys'[i] == keys[i] && keys[i] in keys;
        FirstAtPrefix(items, keys'[i], m);
        if j < |keys| {
          assert keys'[j] == keys[j] && keys[j] in keys;
          FirstAtPrefix(items, keys'[j], n);
          assert KeysInFirstOrder(p, keys);
        } else {
          forall k | 0 <= k < |p| ensures !InGroup(items[k], g) {
            assert items[k] == p[k];
          }
          FirstAtLast(items, keys'[j], n);
        }
      }
    }
  }

  /** The first item of a group that occurs before the last item lies before the last item. */
  lemma FirstAtPrefix(items: seq<MenuItem>, g: string, n: int)
    requires items != [] && FirstAt(items, g, n)
    requires Occurs(items[..|items| - 1], g)
    ensures n < |items| - 1 && FirstAt(items[..|items| - 1], g, n)
  {
    var p := items[..|items| - 1];
    var k :| 0 <= k < |p| && InGroup(p[k], g);
    assert p[k] == items[k];
  }

  /** The first item of a group that does not occur before the last item is the last item. */
  lemma FirstAtLast(items: seq<MenuItem>, g: string, n: int)
    requires items != [] && FirstAt(items, g, n)
    requires forall k :: 0 <= k < |items| - 1 ==> !InGroup(items[k], g)
    ensures n == |items| - 1
  {
  }

  /** Each group holds, in input order, exactly the items whose group key it is, and no group is empty. */
  lemma {:induction false} GroupedMembers(items: seq<MenuItem>)
    ensures var (keys, groups) := Grouped(items);
      forall g :: g in groups ==> groups[g] == Filter(items, InGroupOf(g)) && groups[g] != []
    decreases |items|
  {
    if items != [] {
      var p := items[..|items| - 1];
      var x := items[|items| - 1];
      assert items == p + [x];
      GroupedMembers(p);
      GroupedKeys(p);
      var (keys, groups) := Grouped(p);
      var (keys', groups') := Grouped(items);
      assert groups' == if GroupKey(x) in groups then groups[GroupKey(x) := groups[GroupKey(x)] + [x]] else groups[GroupKey(x) := [x]];
      forall g | g in groups' ensures groups'[g] == Filter(items, InGroupOf(g)) && groups'[g] != [] {
        var inG := InGroupOf(g);
        FilterSnoc(p, x, inG);
        assert Filter(items, inG) == Filter(p, inG) + (if inG(x) then [x] else []);
        if g != GroupKey(x) {
          assert g in groups && groups'[g] == groups[g];
          assert groups[g] == Filter(p, inG);
          assert !inG(x);
        } else if g in groups {
          assert groups[g] == Filter(p, inG);
          assert groups'[g] == groups[g] + [x];
        }
        if g == GroupKey(x) && g !in groups {
          forall it | it in p ensures !InGroup(it, g) {
            var k :| 0 <= k < |p| && p[k] == it;
            assert InGroup(p[k], GroupKey(it));
            assert Occurs(p, GroupKey(it));
          }
          FilterNone(p, inG);
          assert groups'[g] == [x];
        }
      }
    }
  }

  /** Every item is in the group of its key and in no other group. */
  lemma EveryItemInOneGroup(items: seq<MenuItem>)
    ensures var (keys, groups) := Grouped(items);
      forall it, g :: it in items && g in groups ==> (it in groups[g] <==> g == GroupKey(it))
    ensures var (keys, groups) := Grouped(items);
      forall it :: it in items ==> GroupKey(it) in groups
  {
    GroupedMembers(items);
    GroupedKeys(items);
    var (keys, groups) := Grouped(items);
    forall it, g | it in items && g in groups ensures it in groups[g] <==> g == GroupKey(it) {
      FilterSpec(items, InGroupOf(g));
    }
    forall it | it in items ensures GroupKey(it) in groups {
      var k :| 0 <= k < |items| && items[k] == it;
      assert InGroup(items[k], GroupKey(it));
      assert Occurs(items, GroupKey(it));
    }
  }

  /** `Σ |groups[g]|` over `keys`. */
  function TotalSize(keys: seq<string>, groups: map<string, seq<MenuItem>>): nat
    requires forall g :: g in keys ==> g in groups
  {
    if keys == [] then 0 else |groups[keys[0]]| + TotalSize(keys[1..], groups)
  }

  lemma {:induction false} TotalSizeSnoc(keys: seq<string>, groups: map<string, seq<MenuItem>>, g: string, v: seq<MenuItem>)
    requires forall h :: h in keys ==> h in groups
    requires g !in keys
    ensures TotalSize(keys + [g], groups[g := v]) == TotalSize(keys, groups) + |v|
    decreases |keys|
  {
    if keys == [] {
      assert keys + [g] == [g];
    } else {
      assert (keys + [g])[1..] == keys[1..] + [g];
      TotalSizeSnoc(keys[1..], groups, g, v);
    }
  }

  lemma {:induction false} TotalSizeGrow(keys: seq<string>, groups: map<string, seq<MenuItem>>, g: string, v: seq<MenuItem>)
    requires forall h :: h in keys ==> h in groups
    requires g in groups && |v| == |groups[g]| + 1
    requires forall i, j :: 0 <= i < j < |keys| ==> keys[i] != keys[j]
    ensures TotalSize(keys, groups[g := v]) == TotalSize(keys, groups) + (if g in keys then 1 else 0)
    decreases |keys|
  {
    if keys != [] {
      assert forall i, j :: 0 <= i < j < |keys[1..]| ==> keys[1..][i] != keys[1..][j] by {
        forall i, j | 0 <= i < j < |keys[1..]| ensures keys[1..][i] != keys[1..][j] {
          assert keys[1..][i] == keys[i + 1] && keys[1..][j] == keys[j + 1];
        }
      }
      TotalSizeGrow(keys[1..], groups, g, v);
    }
  }

  /** The group sizes add up to the number of items. */
  lemma {:induction false} GroupedCount(items: seq<MenuItem>)
    ensures var (keys, groups) := Grouped(items);
      (forall g :: g in keys ==> g in groups) && TotalSize(keys, groups) == |items|
    decreases |items|
  {
    if items != [] {
      var p := items[..|items| - 1];
      GroupedCount(p);
      GroupedKeys(p);
      var (keys, groups) := Grouped(p);
      var g := GroupKey(items[|items| - 1]);
      if g in groups {
        TotalSizeGrow(keys, groups, g, groups[g] + [items[|items| - 1]]);
      } else {
        TotalSizeSnoc(keys, groups, g, [items[|items| - 1]]);
      }
    }
  }

  // ---------------------------------------------------------------------------
  // icons

  datatype Icon = Person | DocumentScanner | Mail | Storage | Work | Security | Assignment | Group | Settings | LockReset

  datatype MenuType = Common | Business | SecurityMenu

  const CommonIcons: map<string, Icon> := map[
    "Administration" := Person, "Documents" := DocumentScanner, "Communication" := Mail,
    "Structure" := Storage, "Job" := Work, "Person" := Person, "Employee" := Person,
    "ArchiveBox" := Storage, "Folder" := DocumentScanner, "Document" := DocumentScanner, "Mail" := Mail]

  const BusinessIcons: map<string, Icon> := map[
    "Providers" := Person, "Provider" := Person, "ProviderRepresentator" := Person,
    "Clearance" := Security, "ProviderExclusion" := Security, "Financial" := Assignment,
    "FinancialOperation" := Assignment, "BudgetModification" := Assignment, "PlannedItem" := Assignment,
    "ItemDistribution" := Assignment, "Procurement" := Work, "Consultation" := Work, "Submission" := Work,
    "Contract" := DocumentScanner, "ContractItem" := DocumentScanner, "Amendment" := DocumentScanner]

  const SecurityIcons: map<string, Icon> := map[
    "Security" := Security, "Users" := Person, "Roles" := Security, "Groups" := Group,
    "Settings" := Settings, "ResetPassword" := LockReset, "LoginSettings" := Settings,
    "TwoFactorAuth" := Security, "SessionManagement" := Settings]

  function IconTable(menuType: MenuType): map<string, Icon> {
    match menuType
    case Common => CommonIcons
    case Business => BusinessIcons
    case SecurityMenu => SecurityIcons
  }

  /** `getIcon(label, menuType)`: the menu's entry for the label `name`, or the storage icon. */
  function GetIcon(name: string, menuType: MenuType): (icon: Icon)
    ensures name in IconTable(menuType) ==> icon == IconTable(menuType)[name]
    ensures name !in IconTable(menuType) ==> icon == Storage
  {
    var table := IconTable(menuType);
    if name in table then table[name] else Storage
  }

  /** The same label can get different icons in different menus, and an unknown one the default. */
  lemma IconsDependOnMenu()
    ensures GetIcon("Documents", Common) == DocumentScanner
    ensures GetIcon("Roles", SecurityMenu) == Security && GetIcon("Roles", Common) == Storage
    ensures GetIcon("Contract", Business) == DocumentScanner && GetIcon("Contract", SecurityMenu) == Storage
  {
  }

  // ---------------------------------------------------------------------------
  // the open drop-down

  /** The element a drop-down is anchored to. */
  type Anchor = nat

  class MenuState {
    var anchors: map<string, Anchor>
    var openMenu: Option<string>

    /** No menu is open, or exactly the open one has an anchor. */
    ghost predicate Valid()
      reads this
    {
      if openMenu.None? then anchors == map[] else anchors.Keys == {openMenu.value}
    }

    constructor()
      ensures Valid() && anchors == map[] && openMenu == None
    {
      anchors := map[];
      openMenu := None;
    }

    /** `handleMenuOpen(menu)`: the new menu replaces any open one. */
    method HandleMenuOpen(menu: string, target: Anchor)
      modifies this
      ensures Valid()
      ensures anchors == map[menu := target] && openMenu == Some(menu)
    {
      anchors := map[menu := target];
      openMenu := Some(menu);
    }

    method HandleMenuClose()
      modifies this
      ensures Valid()
      ensures anchors == map[] && openMenu == None
    {
      anchors := map[];
      openMenu := None;
    }

    /** `handleNavigate(path)`: the route changes (not modelled) and the menu closes. */
    method HandleNavigate(path: string)
      modifies this
      ensures Valid()
      ensures anchors == map[] && openMenu == None
    {
      HandleMenuClose();
    }
  }
}
