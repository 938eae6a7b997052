/** The category filter of the products list: where choosing a category
    navigates, and how a category is labelled. */
module ProductsClient {
  import opened Wrappers
  import Strings
  import SearchParams
  import ProductsPage

  /** `handleCategoryChange(category)`: `all` drops the `category` parameter,
      any other category sets it; other parameters stay; the target is
      always `/products`. */
  function HandleCategoryChange(params: SearchParams.Params, category: string): (loc: SearchParams.Location)
    ensures loc.path == "/products"
    ensures category == "all" ==> SearchParams.Get(loc.params, "category") == None
    ensures category != "all" ==> SearchParams.Get(loc.params, "category") == Some(category)
    ensures SearchParams.Delete(loc.params, "category") == SearchParams.Delete(params, "category")
  {
    if category == "all" then
      SearchParams.DeleteIdempotent(params, "category");
      SearchParams.Location("/products", SearchParams.Delete(params, "category"))
    else
      SearchParams.GetAfterSet(params, "category", category);
      SearchParams.SetKeepsOthers(params, "category", category);
      SearchParams.Location("/products", SearchParams.Set(params, "category", category))
  }

  /** Choosing a category keeps every other parameter, in order, and the
      category the server then selects is the one chosen (`all` for `all`
      and for the empty name). */
  lemma CategoryChangeRoundTrip(params: SearchParams.Params, category: string)
    ensures
      var loc := HandleCategoryChange(params, category);
      && SearchParams.Delete(loc.params, "category") == SearchParams.Delete(params, "category")
      && (category == "all" ==> SearchParams.Get(loc.params, "category") == None)
      && (category != "all" ==> SearchParams.Get(loc.params, "category") == Some(category)
                                 && SearchParams.Count(loc.params, "category") == 1)
      && ProductsPage.Category(SearchParams.Get(loc.params, "category")) == (if category == "" then "all" else category)
  {
    if category == "all" {
      SearchParams.DeleteIdempotent(params, "category");
    } else {
      SearchParams.SetKeepsOthers(params, "category", category);
      SearchParams.GetAfterSet(params, "category", category);
    }
  }

  /** The chip label: `All Products` for `all`, otherwise the category with
      every `-` shown as a space. */
  function ChipLabel(category: string): (text: string)
    ensures category == "all" ==> text == "All Products"
    ensures category != "all" ==> |text| == |category| && '-' !in text
  {
    if category == "all" then "All Products" else Strings.ReplaceAll(category, '-', ' ')
  }

  /** A label has no `-`; it keeps the category's length and every other
      character in place. */
  lemma ChipLabelShape(category: string)
    requires category != "all"
    ensures |ChipLabel(category)| == |category|
    ensures '-' !in ChipLabel(category)
    ensures forall i :: 0 <= i < |category| ==>
      ChipLabel(category)[i] == (if category[i] == '-' then ' ' else category[i])
  {
  }

  /** Category names that differ only in using `-` or a space for the same
      gaps get the same label. */
  lemma ChipLabelIdentifiesDashes(a: string, b: string)
    requires a != "all" && b != "all" && |a| == |b|
    requires forall i :: 0 <= i < |a| ==> (a[i] == b[i] || (a[i] in "- " && b[i] in "- "))
    ensures ChipLabel(a) == ChipLabel(b)
  {
  }
}
