/** The products store: the generic query cache over products, seeded with
    the category names as well. */
module ProductsStore {
  import opened Wrappers
  import opened Records
  import Lists
  import QueryCache
  import Strings

  type State = QueryCache.Store<Product, seq<string>>

  /** The message of the error thrown when the response is not `ok`. */
  const NotOkMessage: string := "Failed to fetch products"

  /** `products: [], initialProducts: [], categories: [], loading: false,
      error: null, cache: {}`. */
  function Initial(): (r: State)
    ensures r.shown == [] && r.initial == [] && r.extra == []
    ensures !r.loading && r.error == None
    ensures forall query :: !QueryCache.Cached(r, query)
  {
    QueryCache.Empty([])
  }

  /** The display shape of a product returned by the search endpoint. */
  function ToProduct(p: RawProduct): (r: Product)
    ensures r.id == p.id && r.name == p.title && r.description == p.description
    ensures r.price == "$" + p.price && r.category == p.category && r.image == p.thumbnail
    ensures r.popular <==> p.rating > 4.5
    ensures r.features == (if p.tags.Some? then p.tags.value else [])
  {
    Product(p.id, p.title, p.description, "$" + p.price, p.category,
            p.tags.GetOr([]), p.rating > 4.5, p.thumbnail)
  }

  /** `initialize(products, categories = [])`. */
  function Initialize(st: State, products: seq<Product>, categories: Option<seq<string>>): (r: State)
    ensures r.shown == products && r.initial == products && r.extra == categories.GetOr([])
    ensures r.loading == st.loading && r.error == st.error
    ensures r.cache.Keys == st.cache.Keys + {""} && r.cache[""] == products
    ensures forall k :: k in st.cache && k != "" ==> k in r.cache && r.cache[k] == st.cache[k]
  {
    QueryCache.Initialize(st, products, categories.GetOr([]))
  }

  /** `setProducts(products)`: only the products on display change. */
  function SetProducts(st: State, products: seq<Product>): (r: State)
    ensures r.shown == products
    ensures r.initial == st.initial && r.extra == st.extra && r.loading == st.loading
    ensures r.error == st.error && r.cache == st.cache
  {
    QueryCache.SetShown(st, products)
  }

  /** `searchProducts(query)`, `outcome` being what the search endpoint would
      answer. */
  function SearchProducts(st: State, query: string, outcome: QueryCache.Fetch<RawProduct>): (r: State)
    ensures !r.loading && r.extra == st.extra && r.initial == st.initial
    ensures QueryCache.Cached(st, Strings.Trim(query)) ==>
      r.shown == st.cache[Strings.Trim(query)] && r.cache == st.cache && r.error == None
    ensures !QueryCache.Cached(st, Strings.Trim(query)) && outcome.Fetched? ==>
      && |r.shown| == |outcome.records|
      && (forall i :: 0 <= i < |outcome.records| ==> r.shown[i] == ToProduct(outcome.records[i]))
      && r.cache == st.cache[Strings.Trim(query) := r.shown]
      && r.error == None
    ensures !QueryCache.Cached(st, Strings.Trim(query)) && outcome.NotOk? ==>
      r.error == Some("Failed to fetch products") && r.shown == st.shown && r.cache == st.cache
    ensures !QueryCache.Cached(st, Strings.Trim(query)) && outcome.Threw? ==>
      r.error == Some(outcome.message) && r.shown == st.shown && r.cache == st.cache
  {
    QueryCache.Search(st, query, outcome, ToProduct, NotOkMessage)
  }

  /** A search that reaches the endpoint and succeeds shows one product per
      result, in order: named by its title, priced with a `$`, popular exactly
      when rated above 4.5, and featuring its tags or nothing. */
  lemma SearchShowsResults(st: State, query: string, raws: seq<RawProduct>)
    requires !QueryCache.Cached(st, Strings.Trim(query))
    ensures
      var shown := SearchProducts(st, query, QueryCache.Fetched(raws)).shown;
      && |shown| == |raws|
      && forall i :: 0 <= i < |raws| ==>
           && shown[i].id == raws[i].id && shown[i].name == raws[i].title
           && shown[i].price == "$" + raws[i].price
           && (shown[i].popular <==> raws[i].rating > 4.5)
           && shown[i].features == (if raws[i].tags.Some? then raws[i].tags.value else [])
  {
  }

  /** A failed search reports the fixed message for a non-ok response and the
      thrown message otherwise, and keeps the products on display. */
  lemma SearchFailureMessage(st: State, query: string, outcome: QueryCache.Fetch<RawProduct>)
    requires !QueryCache.Cached(st, Strings.Trim(query)) && !outcome.Fetched?
    ensures
      var r := SearchProducts(st, query, outcome);
      && r.error == Some(if outcome.NotOk? then "Failed to fetch products" else outcome.message)
      && r.shown == st.shown && r.cache == st.cache && !r.loading
  {
  }
}
