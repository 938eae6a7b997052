/** The shape shared by the products and users stores: a memo from trimmed
    query text to the list it produced, the list on display, the list the
    page was seeded with, a loading flag and the last error. `X` is whatever
    else a store seeds alongside its list (the products store's category
    names). The search endpoint's reply is an input, and a search that misses
    the memo is split at its `await`. */
module QueryCache {
  import opened Wrappers
  import Lists
  import Strings

  datatype Store<R, X> = Store(
    shown: seq<R>,
    initial: seq<R>,
    extra: X,
    loading: bool,
    error: Option<string>,
    cache: map<string, seq<R>>)

  /** How a `fetch` of the search endpoint ends: a successful response with
      the raw records, a response whose `ok` is false, or a thrown error. */
  datatype Fetch<Raw> = Fetched(records: seq<Raw>) | NotOk | Threw(message: string)

  /** A search up to its `await`: answered from the memo, or waiting on the
      endpoint for `key`. */
  datatype Step<R, X> = Hit(after: Store<R, X>) | Miss(during: Store<R, X>, key: string)

  /** A fresh store: nothing shown, nothing memoised. */
  function Empty<R, X>(extra: X): Store<R, X> {
    Store([], [], extra, false, None, map[])
  }

  /** `initialize(records, extra)`: show and remember the seed, and memoise
      it under the empty query; every other memo entry is kept. */
  function Initialize<R, X>(st: Store<R, X>, records: seq<R>, extra: X): (r: Store<R, X>)
    ensures r.shown == records && r.initial == records && r.extra == extra
    ensures r.loading == st.loading && r.error == st.error
    ensures r.cache.Keys == st.cache.Keys + {""} && r.cache[""] == records
    ensures forall k :: k in st.cache && k != "" ==> r.cache[k] == st.cache[k]
  {
    st.(shown := records, initial := records, extra := extra, cache := st.cache[""  := records])
  }

  /** `setProducts` / `setUsers`: replace the list on display, nothing else. */
  function SetShown<R, X>(st: Store<R, X>, records: seq<R>): (r: Store<R, X>)
    ensures r.shown == records
    ensures r.initial == st.initial && r.extra == st.extra && r.loading == st.loading
    ensures r.error == st.error && r.cache == st.cache
  {
    st.(shown := records)
  }

  /** Whether the memo answers a query: an own entry under that key. */
  predicate Cached<R, X>(st: Store<R, X>, key: string) {
    key in st.cache
  }

  /** The names every plain object inherits from `Object.prototype`; reading
      any of them from an object without an own entry gives a truthy value. */
  const PrototypeNames: set<string> := {
    "constructor", "hasOwnProperty", "isPrototypeOf", "propertyIsEnumerable",
    "toLocaleString", "toString", "valueOf", "__proto__",
    "__defineGetter__", "__defineSetter__", "__lookupGetter__", "__lookupSetter__"}

  /** The memo test as the stores write it, `if (cache[trimmedQuery])` on a
      plain object: inherited names count as hits too. */
  predicate CachedAsWritten<R, X>(st: Store<R, X>, key: string) {
    key in st.cache || key in PrototypeNames
  }

  /** Searching for `constructor` on a store that has never memoised it is a
      hit as written, so the store would display `Object` itself instead of a
      list; the own-entry test sends it to the endpoint instead. */
  lemma PrototypeNameHitsAsWritten<R, X>(st: Store<R, X>, padding: string)
    requires Strings.AllWhitespace(padding) && "constructor" !in st.cache
    ensures CachedAsWritten(st, Strings.Trim(padding + "constructor"))
    ensures SearchBegin(st, padding + "constructor").Miss?
  {
    PaddedConstructor(padding);
  }

  lemma PaddedConstructor(padding: string)
    requires Strings.AllWhitespace(padding)
    ensures Strings.Trim(padding + "constructor") == "constructor"
  {
    var word := "constructor";
    assert word[0] == 'c' && word[|word| - 1] == 'r';
    assert !Strings.IsWhitespace('c') && !Strings.IsWhitespace('r');
    Strings.TrimPaddedWord(padding, word);
  }

  /** A search up to the `fetch`: the trimmed query either finds its entry,
      which is shown at once with no request, or sets `loading` and clears
      `error` before the request for that key. */
  function SearchBegin<R, X>(st: Store<R, X>, query: string): (step: Step<R, X>)
    ensures Cached(st, Strings.Trim(query)) <==> step.Hit?
    ensures step.Hit? ==> step.after == st.(shown := st.cache[Strings.Trim(query)], loading := false, error := None)
    ensures step.Miss? ==> step.key == Strings.Trim(query) && step.during == st.(loading := true, error := None)
  {
    var key := Strings.Trim(query);
    if Cached(st, key) then Hit(st.(shown := st.cache[key], loading := false, error := None))
    else Miss(st.(loading := true, error := None), key)
  }

  /** A search after the endpoint answers for `key`. Success shows the
      transformed records and memoises them under `key`; failure records the
      message and leaves the list on display and the memo as they were. */
  function SearchFinish<Raw, R, X>(st: Store<R, X>, key: string, outcome: Fetch<Raw>, transform: Raw -> R, notOkMessage: string): (r: Store<R, X>)
    ensures outcome.Fetched? ==>
      && r.shown == Lists.Map(transform, outcome.records)
      && !r.loading && r.error == st.error
      && r.cache == st.cache[key := r.shown]
      && r.initial == st.initial && r.extra == st.extra
    ensures !outcome.Fetched? ==>
      && r == st.(loading := false, error := Some(if outcome.NotOk? then notOkMessage else outcome.message))
  {
    match outcome
    case Fetched(raws) =>
      var records := Lists.Map(transform, raws);
      st.(shown := records, loading := false, cache := st.cache[key := records])
    case NotOk => st.(error := Some(notOkMessage), loading := false)
    case Threw(message) => st.(error := Some(message), loading := false)
  }

  /** A search as one step, `outcome` being what the endpoint would answer;
      it is not consulted on a memo hit. */
  function Search<Raw, R, X>(st: Store<R, X>, query: string, outcome: Fetch<Raw>, transform: Raw -> R, notOkMessage: string): (r: Store<R, X>)
    ensures !r.loading && r.initial == st.initial && r.extra == st.extra
    ensures Cached(st, Strings.Trim(query)) ==>
      r.shown == st.cache[Strings.Trim(query)] && r.cache == st.cache && r.error == None
    ensures !Cached(st, Strings.Trim(query)) && outcome.Fetched? ==>
      && r.shown == Lists.Map(transform, outcome.records)
      && r.cache == st.cache[Strings.Trim(query) := r.shown] && r.error == None
    ensures !Cached(st, Strings.Trim(query)) && !outcome.Fetched? ==>
      && r.shown == st.shown && r.cache == st.cache
      && r.error == Some(if outcome.NotOk? then notOkMessage else outcome.message)
  {
    match SearchBegin(st, query)
    case Hit(after) => after
    case Miss(during, key) => SearchFinish(during, key, outcome, transform, notOkMessage)
  }

  /** No operation removes a memo entry, and none changes the entry of a key
      other than the one it writes. */
  lemma MemoOnlyGrows<Raw, R, X>(st: Store<R, X>, records: seq<R>, extra: X, query: string, outcome: Fetch<Raw>, transform: Raw -> R, notOkMessage: string)
    ensures st.cache.Keys <= Initialize(st, records, extra).cache.Keys
    ensures SetShown(st, records).cache == st.cache
    ensures var r := Search(st, query, outcome, transform, notOkMessage);
      && st.cache.Keys <= r.cache.Keys
      && r.cache.Keys <= st.cache.Keys + {Strings.Trim(query)}
      && forall k :: k in st.cache && k != Strings.Trim(query) ==> r.cache[k] == st.cache[k]
  {
  }

  /** Queries that differ only in surrounding whitespace are the same search. */
  lemma PaddingIsIgnored<Raw, R, X>(st: Store<R, X>, w1: string, query: string, w2: string, outcome: Fetch<Raw>, transform: Raw -> R, notOkMessage: string)
    requires Strings.AllWhitespace(w1) && Strings.AllWhitespace(w2)
    ensures Search(st, w1 + query + w2, outcome, transform, notOkMessage) == Search(st, query, outcome, transform, notOkMessage)
  {
    Strings.TrimIgnoresPadding(w1, query, w2);
  }

  /** Repeating a successful search is answered from the memo: the second
      call makes no request, never sets `loading`, and shows the same list. */
  lemma RepeatIsMemoised<Raw, R, X>(st: Store<R, X>, query: string, raws: seq<Raw>, again: Fetch<Raw>, transform: Raw -> R, notOkMessage: string)
    ensures
      var first := Search(st, query, Fetched(raws), transform, notOkMessage);
      var step := SearchBegin(first, query);
      && step.Hit?
      && !step.after.loading
      && step.after.shown == first.shown
      && Search(first, query, again, transform, notOkMessage) == step.after
  {
  }

  /** After seeding, the empty query (and any all-whitespace query) shows the
      seed with no request. */
  lemma SeedAnswersEmptyQuery<Raw, R, X>(st: Store<R, X>, records: seq<R>, extra: X, blank: string, outcome: Fetch<Raw>, transform: Raw -> R, notOkMessage: string)
    requires Strings.AllWhitespace(blank)
    ensures
      var seeded := Initialize(st, records, extra);
      && SearchBegin(seeded, blank).Hit?
      && Search(seeded, blank, outcome, transform, notOkMessage).shown == records
  {
    Strings.TrimIgnoresPadding(blank, "", "");
    assert blank + "" + "" == blank;
  }

  /** A failed request keeps the last good list on display. */
  lemma FailureKeepsLastGoodList<Raw, R, X>(st: Store<R, X>, query: string, outcome: Fetch<Raw>, transform: Raw -> R, notOkMessage: string)
    requires !outcome.Fetched?
    ensures
      var r := Search(st, query, outcome, transform, notOkMessage);
      && r.shown == (if Cached(st, Strings.Trim(query)) then st.cache[Strings.Trim(query)] else st.shown)
      && r.cache == st.cache
      && !r.loading
  {
  }
}
