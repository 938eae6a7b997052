/** The paging logic of the users list: when the pager is shown, how many
    pages it offers, and where choosing a page navigates. */
module UsersClient {
  import opened Wrappers
  import Numbers
  import SearchParams
  import UsersPage

  /** `Math.ceil(a / b)` for integers, with `/` on reals. */
  function CeilDiv(a: int, b: int): (c: int)
    requires b != 0
    ensures b > 0 ==> (c - 1) * b < a <= c * b
    ensures b < 0 ==> c * b <= a < (c - 1) * b
  {
    if b > 0 then
      var q := (-a) / b;
      assert -a == b * q + (-a) % b;
      -q
    else
      var q := a / (-b);
      assert a == (-b) * q + a % (-b);
      -q
  }

  /** `Math.ceil(total / limit)`. */
  function PageCount(total: int, limit: int): int
    requires limit != 0
  {
    CeilDiv(total, limit)
  }

  /** `!debouncedSearchQuery && !loading && total > 0`. */
  predicate ShowPagination(query: string, loading: bool, total: int)
    ensures ShowPagination(query, loading, total) ==> query == "" && !loading && total >= 1
  {
    query == "" && !loading && total > 0
  }

  /** The pager is hidden while a search text is entered (even one of only
      spaces), while loading, and when there are no users. */
  lemma PaginationHidden(query: string, loading: bool, total: int)
    ensures query != "" ==> !ShowPagination(query, loading, total)
    ensures loading ==> !ShowPagination(query, loading, total)
    ensures total <= 0 ==> !ShowPagination(query, loading, total)
  {
  }

  /** With a positive limit the pages cover exactly the users: the last page
      starts before the end and a page more would start past it. */
  lemma PageCountCovers(total: int, limit: int)
    requires total > 0 && limit > 0
    ensures PageCount(total, limit) >= 1
    ensures UsersPage.Skip(PageCount(total, limit), limit) < total <= UsersPage.Skip(PageCount(total, limit) + 1, limit)
  {
  }

  /** A pager that is shown with a positive limit offers at least one page,
      and its last page starts at a user that exists. The page keeps a
      negative `limit` parameter as given; the pager is then shown with no
      page at all. */
  lemma ShownPagerOffersPages(query: string, loading: bool, total: int, limit: int)
    requires limit != 0 && ShowPagination(query, loading, total)
    ensures limit > 0 ==> PageCount(total, limit) >= 1
    ensures limit > 0 ==> 0 <= UsersPage.Skip(PageCount(total, limit), limit) < total
    ensures limit < 0 ==> PageCount(total, limit) <= 0
  {
    if limit > 0 {
      PageCountCovers(total, limit);
    } else {
      NegativeLimitNoPages(total, limit);
    }
  }

  /** With a negative limit, `Math.ceil(total / limit)` is not positive. */
  lemma NegativeLimitNoPages(total: int, limit: int)
    requires total > 0 && limit < 0
    ensures PageCount(total, limit) <= 0
  {
    var c := PageCount(total, limit);
    assert (c - 1) * limit > 0;
  }

  /** Every page the pager offers starts at a user that exists; with a
      negative limit there is no such page. */
  lemma OfferedPagesAreNonEmpty(total: int, limit: int)
    requires total > 0 && limit != 0
    ensures forall page :: 1 <= page <= PageCount(total, limit) ==> 0 <= UsersPage.Skip(page, limit) < total
  {
    if limit < 0 {
      NegativeLimitNoPages(total, limit);
      return;
    }
    var count := PageCount(total, limit);
    forall page | 1 <= page <= count
      ensures 0 <= UsersPage.Skip(page, limit) < total
    {
      assert (page - 1) * limit <= (count - 1) * limit by {
        assert (count - page) * limit >= 0;
      }
    }
  }

  /** `handlePageChange(event, value)`: the current parameters with `page`
      set to the chosen number, on `/users`. */
  function HandlePageChange(params: SearchParams.Params, value: int): (loc: SearchParams.Location)
    ensures loc.path == "/users"
    ensures SearchParams.Get(loc.params, "page") == Some(Numbers.IntToString(value))
    ensures SearchParams.Delete(loc.params, "page") == SearchParams.Delete(params, "page")
  {
    var next := SearchParams.Set(params, "page", Numbers.IntToString(value));
    SearchParams.GetAfterSet(params, "page", Numbers.IntToString(value));
    SearchParams.SetKeepsOthers(params, "page", Numbers.IntToString(value));
    SearchParams.Location("/users", next)
  }

  /** Choosing a page keeps every other parameter, leaves exactly one `page`
      parameter, and the page the server then renders is the one chosen. */
  lemma PageChangeRoundTrip(params: SearchParams.Params, value: int)
    requires value != 0
    ensures
      var loc := HandlePageChange(params, value);
      && SearchParams.Delete(loc.params, "page") == SearchParams.Delete(params, "page")
      && SearchParams.Count(loc.params, "page") == 1
      && SearchParams.Get(loc.params, "page") == Some(Numbers.IntToString(value))
      && UsersPage.Page(Numbers.ParseInt(SearchParams.Get(loc.params, "page").value)) == value
  {
    SearchParams.SetKeepsOthers(params, "page", Numbers.IntToString(value));
    SearchParams.GetAfterSet(params, "page", Numbers.IntToString(value));
    Numbers.IntToStringRoundTrip(value);
  }
}
