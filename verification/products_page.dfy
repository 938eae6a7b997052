/** The products page, rendered on the server: the selected category, the
    category list, which catalog URL to load, and its own copy of the product
    transform. */
module ProductsPage {
  import opened Wrappers
  import opened Records
  import Lists
  import ProductsStore

  /** `params?.category || 'all'`. */
  function Category(param: Option<string>): (c: string)
    ensures c != ""
    ensures param.Some? && param.value != "" ==> c == param.value
    ensures !(param.Some? && param.value != "") ==> c == "all"
  {
    if param.Some? && param.value != "" then param.value else "all"
  }

  /** An entry of the categories endpoint: an object that may carry a
      `slug`, or a bare name. */
  datatype CategoryEntry = Described(slug: Option<string>) | Bare(name: string)

  /** `cat.slug || cat`. An object without a truthy slug is kept as the
      object, which every later use turns into the text `[object Object]`. */
  function EntryName(e: CategoryEntry): string {
    match e
    case Described(slug) => if slug.Some? && slug.value != "" then slug.value else "[object Object]"
    case Bare(name) => name
  }

  /** `['all', ...categoryNames]`. */
  function Categories(entries: seq<CategoryEntry>): (cs: seq<string>)
    ensures |cs| == |entries| + 1 && cs[0] == "all"
    ensures forall i :: 0 <= i < |entries| ==> cs[i + 1] == EntryName(entries[i])
  {
    ["all"] + Lists.Map(EntryName, entries)
  }

  const AllProductsUrl: string := "https://dummyjson.com/products?limit=10&skip=0"
  const CategoryUrlPrefix: string := "https://dummyjson.com/products/category/"

  /** The catalog URL loaded for the selected category. */
  function ProductsUrl(category: string): (url: string)
    ensures category == "all" <==> url == AllProductsUrl
    ensures category != "all" ==> CategoryUrlPrefix <= url && url[|CategoryUrlPrefix|..] == category
  {
    if category == "all" then AllProductsUrl
    else
      var url := CategoryUrlPrefix + category;
      assert url[|CategoryUrlPrefix|..] == category;
      assert url[30] == '/' && AllProductsUrl[30] == '?';
      url
  }

  /** The category a catalog URL was chosen for. */
  function UrlCategory(url: string): string {
    if url == AllProductsUrl then "all"
    else if CategoryUrlPrefix <= url then url[|CategoryUrlPrefix|..]
    else url
  }

  /** `all` loads the first page of every product, any other category its
      own listing, and the URL determines the category it was chosen for. */
  lemma ProductsUrlSelects(category: string)
    ensures category == "all" ==> ProductsUrl(category) == AllProductsUrl
    ensures category != "all" ==> CategoryUrlPrefix <= ProductsUrl(category) && ProductsUrl(category)[|CategoryUrlPrefix|..] == category
    ensures UrlCategory(ProductsUrl(category)) == category
  {
    if category != "all" {
      var url := CategoryUrlPrefix + category;
      assert url[|CategoryUrlPrefix|..] == category;
      assert url != AllProductsUrl by {
        assert url[30] == '/' && AllProductsUrl[30] == '?';
      }
    }
  }

  /** Different categories load different URLs. */
  lemma ProductsUrlInjective(a: string, b: string)
    requires ProductsUrl(a) == ProductsUrl(b)
    ensures a == b
  {
    ProductsUrlSelects(a);
    ProductsUrlSelects(b);
  }

  /** The page's own product transform. */
  function ToProduct(p: RawProduct): Product {
    Product(p.id, p.title, p.description, "$" + p.price, p.category,
            p.tags.GetOr([]), p.rating > 4.5, p.thumbnail)
  }

  /** The page's transform and the store's agree on every record and so on
      every list: a server-rendered list and a searched one are comparable. */
  lemma SameTransformAsStore(raws: seq<RawProduct>)
    ensures forall p :: ToProduct(p) == ProductsStore.ToProduct(p)
    ensures Lists.Map(ToProduct, raws) == Lists.Map(ProductsStore.ToProduct, raws)
  {
  }
}
