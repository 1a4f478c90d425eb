/**
 * The public services page (src/pages/services.tsx): an accordion over the
 * service categories in which at most one category is open at a time.
 */
module ServicesPage {
  import opened Wrappers
  import opened ServicesData

  /** `expandedId === category.id`. */
  predicate IsExpanded(expanded: Option<string>, c: ServiceCategory) {
    expanded == Some(c.id)
  }

  /** A click on a category's header: closes it when it is the open one,
      otherwise opens it (and so closes any other). */
  function Toggle(expanded: Option<string>, id: string): (r: Option<string>)
    ensures r == Some(id) <==> expanded != Some(id)
    ensures r != Some(id) ==> r.None?
  {
    if expanded == Some(id) then None else Some(id)
  }

  /** After a click on category `i` only that category can be open, and it is
      open exactly when it was closed before. */
  lemma ClickEffect(expanded: Option<string>, i: int)
    requires 0 <= i < |Categories|
    ensures IsExpanded(Toggle(expanded, Categories[i].id), Categories[i]) <==> !IsExpanded(expanded, Categories[i])
    ensures forall j :: 0 <= j < |Categories| && j != i ==> !IsExpanded(Toggle(expanded, Categories[i].id), Categories[j])
  {
    CategoryIdsDistinct();
  }

  /** Whatever `expandedId` holds, no two categories are open together. */
  lemma OneExpanded(expanded: Option<string>, i: int, j: int)
    requires 0 <= i < |Categories| && 0 <= j < |Categories|
    requires IsExpanded(expanded, Categories[i]) && IsExpanded(expanded, Categories[j])
    ensures i == j
  {
    CategoryIdsDistinct();
  }

  /** The detail panel rendered under category `i`: the catalogue's entry for
      that category when it is open, nothing otherwise. */
  function PanelOf(expanded: Option<string>, i: int): (r: Option<ServiceDetail>)
    requires 0 <= i < |Categories|
    ensures r.Some? <==> IsExpanded(expanded, Categories[i])
    ensures r.Some? ==> r.value == Details[i] && r.value.categoryId == Categories[i].id
  {
    CatalogueMatchesCategories();
    if IsExpanded(expanded, Categories[i]) then Some(Catalogue()[Categories[i].id]) else None
  }

  class Accordion {
    var expandedId: Option<string>

    /** The first category starts open. */
    constructor ()
      ensures expandedId == Some(Categories[0].id)
    {
      expandedId := Some(Categories[0].id);
    }

    method Click(i: int)
      requires 0 <= i < |Categories|
      modifies this
      ensures expandedId == Toggle(old(expandedId), Categories[i].id)
    {
      expandedId := Toggle(expandedId, Categories[i].id);
    }
  }
}
