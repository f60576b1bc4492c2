/**
 The static step library (`LIBRARY_CATEGORIES`): four categories of draggable
 catalog items, the lookup the composer uses to name a new step, and the
 accordion state saying which category is expanded.
 */
module Catalog {
  import opened Options
  import opened Strings
  import opened Steps

  datatype Item = Item(stepType: string, name: string, description: string)

  datatype LibraryCategory = LibraryCategory(
    id: string,
    name: string,
    icon: Icon,
    color: string,
    items: seq<Item>)

  const Library: seq<LibraryCategory> := [
    LibraryCategory("laser", "Laser", Zap, "#8B0000", [
      Item("LASER_RESOLVE", "RESOLVE", "Fractionné non-ablatif 1540nm"),
      Item("LASER_FRAX", "FRAX", "Fractionné ablatif CO2"),
      Item("LASER_ZOOM", "ZOOM", "Q-Switched pigmentaire")]),
    LibraryCategory("peeling", "Peelings", Palette, "#2E8B57", [
      Item("PEELING_REFRESH", "Peeling REFRESH", "Anti-âge intensif"),
      Item("PEELING_GLOW", "Peeling GLOW", "Éclaircissant anti-taches"),
      Item("PEELING_PURE", "Peeling PURE", "Purifiant anti-acné")]),
    LibraryCategory("cabine", "Cabine", Sparkles, "#4169E1", [
      Item("CABINE_REFRESH", "Protocole REFRESH", "Soin anti-âge cabine"),
      Item("CABINE_GLOW", "Protocole GLOW", "Soin éclat cabine"),
      Item("CABINE_PURE", "Protocole PURE", "Soin purifiant cabine"),
      Item("CABINE_TIGHT", "Protocole TIGHT", "Soin fermeté cabine")]),
    LibraryCategory("domicile", "Domicile", Home, "#9932CC", [
      Item("DOMICILE_REFRESH", "Routine REFRESH", "Routine anti-âge quotidienne"),
      Item("DOMICILE_GLOW", "Routine GLOW", "Routine éclat quotidienne"),
      Item("DOMICILE_PURE", "Routine PURE", "Routine purifiante quotidienne"),
      Item("DOMICILE_TIGHT", "Routine TIGHT", "Routine fermeté quotidienne")])
  ]

  /** The category each library entry stands for, in display order. */
  const LibraryOrder: seq<Category> := [Laser, Peeling, Cabine, Domicile]

  /** The library has four categories, laser, peeling, cabine, domicile, each with the colour and icon of its category. */
  lemma LibraryShape()
    ensures |Library| == |LibraryOrder| == 4
    ensures forall c :: 0 <= c < 4 ==> Library[c].id == ToLower(Prefix(LibraryOrder[c]))
    ensures forall c :: 0 <= c < 4 ==> Library[c].color == CategoryColor(LibraryOrder[c])
    ensures forall c :: 0 <= c < 4 ==> Library[c].icon == CategoryIcon(LibraryOrder[c])
  {
    forall c | 0 <= c < 4
      ensures Library[c].id == ToLower(Prefix(LibraryOrder[c]))
    {
      assert ToLower(Prefix(LibraryOrder[c])) == Library[c].id;
    }
  }

  /** Fourteen items; no step type appears twice, within a category or across two. */
  lemma CatalogTypesDistinct()
    ensures |Library[0].items| + |Library[1].items| + |Library[2].items| + |Library[3].items| == 14
    ensures forall c, k, c', k' ::
      (&& 0 <= c < 4 && 0 <= k < |Library[c].items| && 0 <= c' < 4 && 0 <= k' < |Library[c'].items|
       && Library[c].items[k].stepType == Library[c'].items[k'].stepType)
      ==> c == c' && k == k'
  {
    forall c, k, c', k' |
      0 <= c < 4 && 0 <= k < |Library[c].items| && 0 <= c' < 4 && 0 <= k' < |Library[c'].items| &&
      Library[c].items[k].stepType == Library[c'].items[k'].stepType
      ensures c == c' && k == k'
    {
      var t := Library[c].items[k].stepType;
      ItemCategory(c, k);
      ItemCategory(c', k');
      assert StartsWith(t, Prefix(LibraryOrder[c]));
      assert LibraryOrder[c] == LibraryOrder[c'];
      if k < k' {
        ItemsDistinct(c, k, k');
      } else if k' < k {
        ItemsDistinct(c, k', k);
      }
    }
  }

  /** Within one category, the types of two items already differ in their last letter. */
  lemma ItemsDistinct(c: nat, k: nat, k': nat)
    requires c < |Library| && k < k' < |Library[c].items|
    ensures Library[c].items[k].stepType != Library[c].items[k'].stepType
  {
    var a := Library[c].items[k].stepType;
    var b := Library[c].items[k'].stepType;
    assert a[|a| - 1] != b[|b| - 1];
  }

  /** Every item's type carries its category's prefix followed by `_`. */
  lemma CatalogPrefixesMatch()
    ensures forall c, k :: 0 <= c < 4 && 0 <= k < |Library[c].items| ==>
      StartsWith(Library[c].items[k].stepType, Prefix(LibraryOrder[c]) + "_")
  {
  }

  /** A catalog item's colour and icon, as classified from its type, are those of the category it is listed under. */
  lemma CatalogClassification()
    ensures forall c, k :: 0 <= c < 4 && 0 <= k < |Library[c].items| ==>
      var t := Library[c].items[k].stepType;
      CategoryOf(t) == Some(LibraryOrder[c]) && StepColor(t) == Library[c].color && StepIcon(t) == Library[c].icon
  {
    CatalogPrefixesMatch();
    LibraryShape();
    forall c, k | 0 <= c < 4 && 0 <= k < |Library[c].items|
      ensures CategoryOf(Library[c].items[k].stepType) == Some(LibraryOrder[c])
    {
      var t := Library[c].items[k].stepType;
      var p := Prefix(LibraryOrder[c]);
      assert t[..|p|] == (p + "_")[..|p|];
      assert StartsWith(t, p);
    }
  }

  /** The category a catalog item is classified under is the one it is listed in. */
  lemma ItemCategory(c: nat, k: nat)
    requires c < |Library| && k < |Library[c].items|
    ensures forall d :: StartsWith(Library[c].items[k].stepType, Prefix(d)) <==> d == LibraryOrder[c]
  {
    CatalogClassification();
    assert CategoryOf(Library[c].items[k].stepType) == Some(LibraryOrder[c]);
  }

  /** The number shown on a category's badge. */
  function BadgeCount(cat: LibraryCategory): nat {
    |cat.items|
  }

  /** The display name and description the composer gives to a step of type `t`. */
  datatype StepInfo = StepInfo(name: string, description: string)

  /** Searches `items` in order for the first item of type `t`. */
  function FindIn(items: seq<Item>, t: string): (r: Option<Item>)
    ensures r.None? <==> forall i :: 0 <= i < |items| ==> items[i].stepType != t
    ensures r.Some? ==> exists i :: 0 <= i < |items| && items[i] == r.value
                          && (forall j :: 0 <= j < i ==> items[j].stepType != t)
    ensures r.Some? ==> r.value.stepType == t
    decreases |items|
  {
    if |items| == 0 then None
    else if items[0].stepType == t then Some(items[0])
    else
      var r := FindIn(items[1..], t);
      assert r.Some? ==> exists i :: 1 <= i < |items| && items[i] == r.value
                           && (forall j :: 0 <= j < i ==> items[j].stepType != t);
      r
  }

  /** Searches the categories in order, each with `FindIn`, for the first item of type `t`. */
  function FindInCategories(cats: seq<LibraryCategory>, t: string): (r: Option<Item>)
    ensures r.None? <==> forall c, k :: 0 <= c < |cats| && 0 <= k < |cats[c].items| ==> cats[c].items[k].stepType != t
    ensures r.Some? ==> r.value.stepType == t
    ensures r.Some? ==> exists c, k :: 0 <= c < |cats| && 0 <= k < |cats[c].items| && cats[c].items[k] == r.value
    decreases |cats|
  {
    if |cats| == 0 then None
    else match FindIn(cats[0].items, t)
      case Some(item) => Some(item)
      case None =>
        var r := FindInCategories(cats[1..], t);
        assert forall c, k :: 1 <= c < |cats| && 0 <= k < |cats[c].items| ==> cats[c].items[k] == cats[1..][c - 1].items[k];
        r
  }

  /**
   `findStepInfo`: the name and description of the first catalog item of type
   `t`, category by category; the type itself and no description when no item has it.
   */
  function FindStepInfo(t: string): (r: StepInfo)
    ensures (forall c, k :: 0 <= c < |Library| && 0 <= k < |Library[c].items| ==> Library[c].items[k].stepType != t)
            ==> r == StepInfo(t, "")
  {
    match FindInCategories(Library, t)
    case Some(item) => StepInfo(item.name, item.description)
    case None => StepInfo(t, "")
  }

  /** Every catalog item is found under its own type, with its own name and description. */
  lemma FindStepInfoCatalog(c: nat, k: nat)
    requires c < |Library| && k < |Library[c].items|
    ensures FindStepInfo(Library[c].items[k].stepType) == StepInfo(Library[c].items[k].name, Library[c].items[k].description)
  {
    CatalogTypesDistinct();
    var r := FindInCategories(Library, Library[c].items[k].stepType);
    var c', k' :| 0 <= c' < |Library| && 0 <= k' < |Library[c'].items| && Library[c'].items[k'] == r.value;
    assert c' == c && k' == k;
  }

  /** The id a library item is dragged under: its step type. */
  function DraggableId(item: Item): string {
    item.stepType
  }

  /** The category expanded when the composer opens. */
  const InitialExpanded: Option<string> := Some("laser")

  /** Clicking a category header: closes it if it is the open one, otherwise opens it (closing any other). */
  function ToggleCategory(expanded: Option<string>, id: string): (r: Option<string>)
    ensures r == Some(id) <==> expanded != Some(id)
    ensures r.None? <==> expanded == Some(id)
  {
    if expanded == Some(id) then None else Some(id)
  }

  /** A category shows its items exactly when its id is the expanded one. */
  predicate ShowsItems(expanded: Option<string>, cat: LibraryCategory) {
    expanded == Some(cat.id)
  }

  /** Category ids are distinct, so at most one category shows its items, whatever the state. */
  lemma AtMostOneExpanded(expanded: Option<string>, c: nat, d: nat)
    requires c < |Library| && d < |Library|
    requires ShowsItems(expanded, Library[c]) && ShowsItems(expanded, Library[d])
    ensures c == d
  {
  }
}
