/** The users store: the generic query cache over users. */
module UsersStore {
  import opened Wrappers
  import opened Records
  import Lists
  import QueryCache
  import Strings

  type State = QueryCache.Store<User, ()>

  /** The message of the error thrown when the response is not `ok`. */
  const NotOkMessage: string := "Failed to fetch users"

  /** `users: [], initialUsers: [], loading: false, error: null, cache: {}`. */
  function Initial(): (r: State)
    ensures r.shown == [] && r.initial == []
    ensures !r.loading && r.error == None
    ensures forall query :: !QueryCache.Cached(r, query)
  {
    QueryCache.Empty(())
  }

  /** `value || fallback` for a string that may be missing. */
  function OrDefault(value: Option<string>, fallback: string): string {
    if value.Some? && value.value != "" then value.value else fallback
  }

  /** `user.address?.country || 'Unknown'`. */
  function Country(address: Option<Address>): string {
    OrDefault(if address.Some? then address.value.country else None, "Unknown")
  }

  /** `user.company?.department || 'General'`. */
  function Program(company: Option<Company>): string {
    OrDefault(if company.Some? then company.value.department else None, "General")
  }

  /** `user.id % 3 === 0 ? 'Pending' : 'Active'`. JavaScript's `%` truncates
      toward zero, but the remainder is zero for exactly the multiples of 3
      under either convention, so the test is the same for every id. */
  function Status(id: int): string {
    if id % 3 == 0 then "Pending" else "Active"
  }

  /** The display shape of a user returned by the search endpoint. */
  function ToUser(u: RawUser): (r: User)
    ensures Displayable(r)
    ensures r.id == u.id && r.firstName == u.firstName && r.lastName == u.lastName
    ensures r.email == u.email && r.age == u.age && r.gender == u.gender && r.role == u.role
    ensures r.address == u.address && r.company == u.company
  {
    User(u.id, u.firstName, u.lastName, u.firstName + " " + u.lastName, u.email,
         u.age, u.gender, u.address, u.company, u.role,
         Country(u.address), Program(u.company), Status(u.id))
  }

  /** What every displayed user satisfies: its full name is its first and
      last name around one space, country and program are never empty, and
      the status is `Pending` exactly for ids divisible by 3, else `Active`. */
  predicate Displayable(u: User) {
    && u.name == u.firstName + " " + u.lastName
    && u.country != "" && u.program != ""
    && (u.status == "Pending" <==> u.id % 3 == 0)
    && (u.status == "Active" <==> u.id % 3 != 0)
  }

  /** The user transform keeps the record's own fields and fills in the
      derived ones by the rules of `Displayable`, with `Unknown` and
      `General` for a missing or empty country and department. */
  lemma ToUserDisplayable(u: RawUser)
    ensures Displayable(ToUser(u))
    ensures ToUser(u).id == u.id && ToUser(u).firstName == u.firstName && ToUser(u).lastName == u.lastName
    ensures ToUser(u).address == u.address && ToUser(u).company == u.company
    ensures ToUser(u).email == u.email && ToUser(u).age == u.age && ToUser(u).gender == u.gender && ToUser(u).role == u.role
    ensures u.address.Some? && u.address.value.country.Some? && u.address.value.country.value != "" ==>
      ToUser(u).country == u.address.value.country.value
    ensures !(u.address.Some? && u.address.value.country.Some? && u.address.value.country.value != "") ==>
      ToUser(u).country == "Unknown"
    ensures u.company.Some? && u.company.value.department.Some? && u.company.value.department.value != "" ==>
      ToUser(u).program == u.company.value.department.value
    ensures !(u.company.Some? && u.company.value.department.Some? && u.company.value.department.value != "") ==>
      ToUser(u).program == "General"
  {
  }

  /** `initialize(users)`. */
  function Initialize(st: State, users: seq<User>): (r: State)
    ensures r.shown == users && r.initial == users
    ensures r.loading == st.loading && r.error == st.error
    ensures r.cache.Keys == st.cache.Keys + {""} && r.cache[""] == users
    ensures forall k :: k in st.cache && k != "" ==> k in r.cache && r.cache[k] == st.cache[k]
  {
    QueryCache.Initialize(st, users, ())
  }

  /** `setUsers(users)`: only the users on display change. */
  function SetUsers(st: State, users: seq<User>): (r: State)
    ensures r.shown == users
    ensures r.initial == st.initial && r.loading == st.loading
    ensures r.error == st.error && r.cache == st.cache
  {
    QueryCache.SetShown(st, users)
  }

  /** `searchUsers(query)`, `outcome` being what the search endpoint would answer. */
  function SearchUsers(st: State, query: string, outcome: QueryCache.Fetch<RawUser>): (r: State)
    ensures !r.loading && r.initial == st.initial
    ensures QueryCache.Cached(st, Strings.Trim(query)) ==>
      r.shown == st.cache[Strings.Trim(query)] && r.cache == st.cache && r.error == None
    ensures !QueryCache.Cached(st, Strings.Trim(query)) && outcome.Fetched? ==>
      && |r.shown| == |outcome.records|
      && (forall i :: 0 <= i < |outcome.records| ==> r.shown[i] == ToUser(outcome.records[i]) && Displayable(r.shown[i]))
      && r.cache == st.cache[Strings.Trim(query) := r.shown]
      && r.error == None
    ensures !QueryCache.Cached(st, Strings.Trim(query)) && outcome.NotOk? ==>
      r.error == Some("Failed to fetch users") && r.shown == st.shown && r.cache == st.cache
    ensures !QueryCache.Cached(st, Strings.Trim(query)) && outcome.Threw? ==>
      r.error == Some(outcome.message) && r.shown == st.shown && r.cache == st.cache
  {
    QueryCache.Search(st, query, outcome, ToUser, NotOkMessage)
  }

  /** A failed search reports the fixed message for a non-ok response and the
      thrown message otherwise, and keeps the users on display and the memo. */
  lemma SearchFailureMessage(st: State, query: string, outcome: QueryCache.Fetch<RawUser>)
    requires !QueryCache.Cached(st, Strings.Trim(query)) && !outcome.Fetched?
    ensures
      var r := SearchUsers(st, query, outcome);
      && r.error == Some(if outcome.NotOk? then "Failed to fetch users" else outcome.message)
      && r.shown == st.shown && r.cache == st.cache && !r.loading
  {
  }

  /** Every user a successful search shows, and every one it memoises, is
      displayable and is the transform of the result in the same position. */
  lemma SearchShowsDisplayableUsers(st: State, query: string, raws: seq<RawUser>)
    requires !QueryCache.Cached(st, Strings.Trim(query))
    ensures
      var r := SearchUsers(st, query, QueryCache.Fetched(raws));
      && |r.shown| == |raws|
      && r.cache[Strings.Trim(query)] == r.shown
      && forall i :: 0 <= i < |raws| ==> r.shown[i] == ToUser(raws[i]) && Displayable(r.shown[i])
  {
    forall i | 0 <= i < |raws| {
      ToUserDisplayable(raws[i]);
    }
  }
}
