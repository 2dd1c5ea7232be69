/**
 * The side navigation menu: parents with children open and close when
 * clicked, leaves navigate to their path. The open parents are kept as a
 * list of titles.
 */
module Sidebar {
  import opened Js
  import opened ListOps

  /** A menu entry: a title, and a path for a leaf or children for a parent. */
  datatype MenuItem = MenuItem(title: string, path: Option<string>, children: Option<seq<MenuItem>>)

  function Other(title: string): string -> bool {
    x => x != title
  }

  /** The open titles after clicking the parent `title`: it is closed when open, else opened at the end. */
  function Toggled(expanded: seq<string>, title: string): (r: seq<string>)
    ensures title in expanded ==> r == Filter(expanded, Other(title))
    ensures title !in expanded ==> r == expanded + [title]
  {
    if title in expanded then Filter(expanded, Other(title)) else expanded + [title]
  }

  /** Exactly the clicked title changes state: it is open afterwards iff it was closed before. */
  lemma ToggledMembership(expanded: seq<string>, title: string)
    ensures forall x :: x in Toggled(expanded, title) <==> (x == title) != (x in expanded)
  {
    FilterSpec(expanded, Other(title));
  }

  /** No title is ever open twice. */
  lemma ToggledDistinct(expanded: seq<string>, title: string)
    requires Distinct(expanded)
    ensures Distinct(Toggled(expanded, title))
  {
    if title in expanded {
      FilterDistinct(expanded, Other(title));
    }
  }

  /** Clicking a parent twice brings back the same open titles. */
  lemma ToggleTwice(expanded: seq<string>, title: string)
    ensures forall x :: x in Toggled(Toggled(expanded, title), title) <==> x in expanded
  {
    ToggledMembership(expanded, title);
    ToggledMembership(Toggled(expanded, title), title);
  }

  /** Opening and closing a parent that was closed restores the list exactly. */
  lemma OpenThenCloseRestores(expanded: seq<string>, title: string)
    requires title !in expanded
    ensures Toggled(Toggled(expanded, title), title) == expanded
  {
    FilterSnoc(expanded, title, Other(title));
    FilterAll(expanded, Other(title));
  }

  /** `expandedItems` and `handleItemClick`. */
  class SidebarState {
    var expandedItems: seq<string>

    ghost predicate Valid()
      reads this
    {
      Distinct(expandedItems)
    }

    /** Only "System" is open at first. */
    constructor()
      ensures Valid() && expandedItems == ["System"]
    {
      expandedItems := ["System"];
    }

    /**
     * `handleItemClick(item)`: a parent toggles its title and navigates
     * nowhere; a leaf with a path navigates there and leaves the open titles alone.
     */
    method HandleItemClick(item: MenuItem) returns (navigateTo: Option<string>)
      requires Valid()
      modifies this
      ensures Valid()
      ensures item.children.Some? ==> expandedItems == Toggled(old(expandedItems), item.title) && navigateTo == None
      ensures item.children.Some? ==> forall x :: x in expandedItems <==> (x == item.title) != (x in old(expandedItems))
      ensures item.children.None? ==> expandedItems == old(expandedItems)
      ensures item.children.None? ==> navigateTo == (if Present(item.path) then item.path else None)
    {
      if item.children.Some? {
        ToggledDistinct(expandedItems, item.title);
        ToggledMembership(expandedItems, item.title);
        expandedItems := Toggled(expandedItems, item.title);
        navigateTo := None;
      } else if Present(item.path) {
        navigateTo := item.path;
      } else {
        navigateTo := None;
      }
    }
  }
}
