/** The three-facet item filter of the score pages: a checkbox group each for
    element (`zo`), weapon (`bu`) and acquisition (`get`). An item passes a
    facet when no box of the group is ticked or when the box named after the
    item's own code is; it is shown when it passes all three. */
module Selection {
  import opened Catalog
  import Seqs
  import Text

  datatype Facet = Zo | Bu | Get

  /** The class-token key of a facet, which is also the prefix of its
      checkbox values. */
  function Prefix(f: Facet): string
  {
    match f
    case Zo => "zo"
    case Bu => "bu"
    case Get => "get"
  }

  /** The ticked checkbox values of each facet group. */
  datatype FacetSelection = FacetSelection(zo: set<string>, bu: set<string>, get: set<string>)

  const NoSelection := FacetSelection({}, {}, {})

  function Selected(sel: FacetSelection, f: Facet): set<string>
  {
    match f
    case Zo => sel.zo
    case Bu => sel.bu
    case Get => sel.get
  }

  /** The template string `${prefix}${item.details[prefix]}`: the code
      printed in decimal, or the word "undefined" when the item has no code
      for the facet. */
  function Tag(item: Item, f: Facet): string
  {
    var key := Prefix(f);
    Prefix(f) + (if key in item.details then Text.IntToDecimal(item.details[key]) else "undefined")
  }

  predicate Admits(sel: FacetSelection, f: Facet, item: Item)
  {
    |Selected(sel, f)| == 0 || Tag(item, f) in Selected(sel, f)
  }

  predicate Matches(sel: FacetSelection, item: Item)
  {
    Admits(sel, Zo, item) && Admits(sel, Bu, item) && Admits(sel, Get, item)
  }

  /** The filter effect: the catalogue items that pass all three facets,
      in catalogue order and with their multiplicity. */
  function FilterItems(catalog: seq<Item>, sel: FacetSelection): (r: seq<Item>)
    ensures Seqs.IsSubsequence(r, catalog)
    ensures forall x :: x in r <==>
      && x in catalog
      && (|sel.zo| == 0 || Tag(x, Zo) in sel.zo)
      && (|sel.bu| == 0 || Tag(x, Bu) in sel.bu)
      && (|sel.get| == 0 || Tag(x, Get) in sel.get)
    ensures forall x :: x in catalog && Matches(sel, x) ==> multiset(r)[x] == multiset(catalog)[x]
  {
    Seqs.FilterCount(catalog, x => Matches(sel, x));
    Seqs.Filter(catalog, x => Matches(sel, x))
  }

  /** With no box ticked the filter shows the whole catalogue, which is what
      the page shows before any box is touched. */
  lemma NoSelectionShowsAll(catalog: seq<Item>)
    ensures FilterItems(catalog, NoSelection) == catalog
  {
    Seqs.FilterKeepsAll(catalog, x => Matches(NoSelection, x));
  }

  /** `toggleSet(set, value)`: a copy of the set with the membership of
      `value` flipped and every other membership left alone. */
  function ToggleSet(s: set<string>, value: string): (r: set<string>)
    ensures value in r <==> value !in s
    ensures forall x :: x != value ==> (x in r <==> x in s)
  {
    if value in s then s - {value} else s + {value}
  }

  /** Toggling the same value twice restores the set. */
  lemma ToggleSetInvolution(s: set<string>, value: string)
    ensures ToggleSet(ToggleSet(s, value), value) == s
  {
  }

  /** A checkbox change handler: toggles the value in its facet group and
      leaves the other two groups alone. */
  function Toggle(sel: FacetSelection, f: Facet, value: string): (r: FacetSelection)
    ensures forall g :: g != f ==> Selected(r, g) == Selected(sel, g)
    ensures Selected(r, f) == ToggleSet(Selected(sel, f), value)
  {
    match f
    case Zo => sel.(zo := ToggleSet(sel.zo, value))
    case Bu => sel.(bu := ToggleSet(sel.bu, value))
    case Get => sel.(get := ToggleSet(sel.get, value))
  }

  /** Ticking and unticking a box shows the same items as before. */
  lemma ToggleTwiceSameFilter(catalog: seq<Item>, sel: FacetSelection, f: Facet, value: string)
    ensures FilterItems(catalog, Toggle(Toggle(sel, f, value), f, value)) == FilterItems(catalog, sel)
  {
    ToggleSetInvolution(Selected(sel, f), value);
    assert Toggle(Toggle(sel, f, value), f, value) == sel;
  }
}
