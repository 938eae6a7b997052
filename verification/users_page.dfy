/** The users page, rendered on the server: which page of users to load and
    its own copy of the user transform. `page` and `limit` arrive already
    read as numbers; `None` stands for a missing or non-numeric parameter. */
module UsersPage {
  import opened Wrappers
  import opened Records
  import Lists
  import UsersStore

  /** `Number(params?.page) || 1`: missing, non-numeric and zero fall back to
      1; any other number, negative ones included, is kept. */
  function Page(param: Option<int>): (p: int)
    ensures p != 0
    ensures param.Some? && param.value != 0 ==> p == param.value
    ensures !(param.Some? && param.value != 0) ==> p == 1
  {
    if param.Some? && param.value != 0 then param.value else 1
  }

  /** `Number(params?.limit) || 10`, by the same rule. */
  function Limit(param: Option<int>): (l: int)
    ensures l != 0
    ensures param.Some? && param.value != 0 ==> l == param.value
    ensures !(param.Some? && param.value != 0) ==> l == 10
  {
    if param.Some? && param.value != 0 then param.value else 10
  }

  /** `(page - 1) * limit`: the number of users before the page, whose
      `limit` users end at `page * limit`. */
  function Skip(page: int, limit: int): (skip: int)
    ensures skip + limit == page * limit
    ensures page >= 1 && limit > 0 ==> skip >= 0
  {
    (page - 1) * limit
  }

  /** The first page starts at the first user, and consecutive pages start
      `limit` users apart. */
  lemma SkipSteps(page: int, limit: int)
    ensures Skip(1, limit) == 0
    ensures Skip(page + 1, limit) == Skip(page, limit) + limit
  {
  }

  /** Without parameters the page shows users 0 to 9. */
  lemma Defaults()
    ensures Page(None) == 1 && Limit(None) == 10 && Skip(Page(None), Limit(None)) == 0
  {
  }

  /** The page's own user transform. */
  function ToUser(u: RawUser): User {
    User(u.id, u.firstName, u.lastName, u.firstName + " " + u.lastName, u.email,
         u.age, u.gender, u.address, u.company, u.role,
         if u.address.Some? && u.address.value.country.Some? && u.address.value.country.value != "" then u.address.value.country.value else "Unknown",
         if u.company.Some? && u.company.value.department.Some? && u.company.value.department.value != "" then u.company.value.department.value else "General",
         if u.id % 3 == 0 then "Pending" else "Active")
  }

  /** The page's transform and the store's agree on every record and so on
      every list, so every user the page renders is displayable. */
  lemma SameTransformAsStore(raws: seq<RawUser>)
    ensures forall u :: ToUser(u) == UsersStore.ToUser(u)
    ensures Lists.Map(ToUser, raws) == Lists.Map(UsersStore.ToUser, raws)
    ensures forall i :: 0 <= i < |raws| ==> UsersStore.Displayable(Lists.Map(ToUser, raws)[i])
  {
    forall i | 0 <= i < |raws| {
      UsersStore.ToUserDisplayable(raws[i]);
    }
  }
}
