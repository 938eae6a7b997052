# Dashboard session, route gate and query caches

This project models the state and decision logic of a small Next.js dashboard
that lists products and users from a public catalog API behind a login. Four
pieces are modelled.

- **The route gate** (`middleware.js`). It runs before every request that the
  matcher selects. It decides from the `accessToken` cookie alone whether the
  request passes, goes to `/login`, or goes home to `/`.
- **The session store** (`store/useAuthStore.js`). This is the record
  `{user, loading, error, isAuthenticated}` together with its two replicas:
  client storage (`localStorage`, keys `user`, `accessToken` and
  `refreshToken`) and the browser cookie jar that the gate reads. Its
  operations are `loadUser`, `login` and `logout`.
  - Where an operation waits on the identity service, it is split at the
    `await` into a step before the call and a step after it.
  - The service's reply is an input of the second step.
- **The query caches** (`store/useProductsStore.js`,
  `store/useUsersStore.js`). Both stores have one shape: a memo from trimmed
  query text to the list it produced, plus the list on display, a loading
  flag and the last error. The model is one generic store (`QueryCache`),
  instantiated with each store's record transform.
- **The pages and the client controls** (`app/products/page.jsx`,
  `app/users/page.jsx`, `components/UsersClient.jsx`,
  `components/ProductsClient.jsx`). This covers:
  - the query-parameter defaults and the paging arithmetic;
  - the record transforms, which the pages duplicate from the stores;
  - the pager's visibility and page count;
  - the navigation targets of the page and category controls;
  - the category chip label.

Supporting modules:

- `Strings`: the JavaScript string operations the code relies on.
  - `split`/`join`, `indexOf`/`includes` and `replace(/-/g, ' ')`.
  - `trim`, using the whitespace set of ECMAScript's `String.prototype.trim`.
- `Numbers`: decimal text of integers.
- `SearchParams`: the `get`, `set` and `delete` operations of
  `URLSearchParams`, as defined in section 6.2 of the WHATWG URL Standard.
- `Cookies`: the browser cookie jar behind `document.cookie`. A cookie is
  identified by its name and domain, and the jar is read back as
  `name=value` rows joined by `"; "`.

Inputs instead of calls:

- The identity service, the search endpoints and `JSON.stringify`/`JSON.parse`
  are parameters. `AuthStore.Json` holds the two JSON functions. `parse`
  may give any JSON value (`AuthStore.Value`: `null`, an object, or another
  value) or fail with a message.
- `AuthStore.Faithful` is what the lemmas about a reload after a login
  assume of the JSON functions: parsing a stringified object gives it back.
  `AuthStore.NonObjectStoredUserSignsInWithoutUser` assumes only that the
  text `null` parses to `null`. The other members assume nothing about them.

The model follows the code as written, with one exception:

- The memo test of both stores is the corrected own-entry test, not the
  `cache[trimmedQuery]` read the stores perform (see "## Findings"). The
  as-written test is modelled separately (`QueryCache.CachedAsWritten`).

Behaviour of the code that the model keeps:

- `initialize` writes the `''` memo entry again on every call; it is not
  seeded only once.
- The optimistic restore in `loadUser` marks the session authenticated before
  the token has been verified.
- A failed `login` keeps whatever `user` was there.
- `logout` leaves `loading` as it was.

## Model

| member | source | states |
|---|---|---|
| Middleware.LoginWithTokenGoesHome | middleware.js:8-12 | a request for `/login` with a truthy token is redirected to `/` |
| Middleware.OpenPaths | middleware.js:8-13 | `/login` without a token, and every `/api/` path with or without one, pass |
| Middleware.ProtectedPaths | middleware.js:16-21 | any other path redirects to `/login` exactly when the token is falsy, and passes otherwise, with no check of the token's contents |
| Middleware.EmptyCookieIsNoToken | middleware.js:4-21 | an empty cookie value routes every path exactly as an absent cookie does |
| Middleware.RedirectTargets | middleware.js:8-21 | the gate only ever redirects to `/` or `/login` |
| Middleware.NoRedirectLoop | middleware.js:8-21 | with the same cookie, the target of any redirect is let through: there is no redirect loop |
| Middleware.StaticAssetsBypass | middleware.js:24-35 | paths under `/_next/static` or `/_next/image`, every path starting with `/favicon`, any one character and `ico` (so `/favicon.ico` and lookalikes such as `/favicon.ico/x`), and paths ending in `.svg`, `.png`, `.jpg`, `.jpeg`, `.gif` or `.webp` pass whatever the cookie |
| Middleware.FaviconLookalikesBypass | middleware.js:33 | because the `.` of `favicon.ico` is a regular-expression wildcard and the alternative is not anchored, `/favicon.ico/x` and `/faviconXico` pass ungated whatever the cookie |
| Middleware.PagesAreGated | middleware.js:17-21 | `/`, `/users` and `/products` are matched and gated: without a token they go to `/login`, with one they are served |
| Middleware.GateScenario | middleware.js:3-22 | concrete requests: `/users` with no cookie, `/login` with a cookie, `/users/5` with a cookie |
| Middleware.Gate | middleware.js:3-22 | the gate sends `/login` to `/` exactly when there is a truthy token, and sends any path outside `/login` and `/api/` to `/login` exactly when there is none; it redirects nowhere else |
| Middleware.Matched | middleware.js:24-35 | a matched path starts with `/` and is not under `/_next/static` or `/_next/image`, nor a path starting with `/favicon`, any one character and `ico` |
| Middleware.Route | middleware.js:3-35 | an unmatched path passes; a matched one gets the gate's decision; every redirect is of a matched path, to `/` or `/login` |
| AuthStore.StoredToken | store/useAuthStore.js:13-22 | a truthy storage token is used as is. Only when storage has no truthy token is the cookie fallback used. When the fallback finds no row, the falsy storage value is kept |
| AuthStore.CookieToken | store/useAuthStore.js:18-21 | the result is absent exactly when no `"; "`-separated row starts with `accessToken=`; otherwise it is the piece after the first `=` of the first such row |
| AuthStore.CookieTokenOfJar | store/useAuthStore.js:18-21 | the cookie fallback yields nothing when the jar has no `accessToken` cookie; otherwise it yields the value of the oldest one, cut at its first `=` |
| AuthStore.TokenRowIffName | store/useAuthStore.js:18 | for a cookie name without `=`, a rendered row starts with `accessToken=` exactly when the name is `accessToken` |
| AuthStore.LoadUserBegin | store/useAuthStore.js:11-37 | with no token, only `loading` is cleared and nothing is verified. With a token and no truthy stored user, the state is unchanged while the token is verified. A truthy stored user that parses is restored as `JSON.parse` gives it, with `isAuthenticated` and `loading` set. One that fails to parse ends the step with its message in `error` and `loading` cleared. The cookie is rewritten for one hour exactly when the cookie string lacks `accessToken=`. Storage is unchanged |
| AuthStore.LoadUser | store/useAuthStore.js:11-61 | `loading` always ends false. After a verification, the user is signed in as the verified record exactly when verification succeeds; on failure the storage keys are gone. Without a verification, storage, user and sign-in flag are unchanged |
| AuthStore.LoadUserFinish | store/useAuthStore.js:39-53 | on success, the fresh user and the token are stored and the user is signed in. On failure, the three storage keys are removed and no other key changes; the host-only cookie is expired; the user is signed out with `loading` false |
| AuthStore.ResyncMakesReplicasAgree | store/useAuthStore.js:24-28 | for a token without `;` (which the browser would cut): when storage has a token and the cookie string lacks `accessToken=`, the rewritten jar holds the cookie for one hour and the gate reads the stored token back whole; the fallback reads it up to its first `=`, so whole exactly when it has no `=` |
| AuthStore.EqualsSignCutsFallback | store/useAuthStore.js:18-28 | a stored token `a=b` is written to the cookie whole, but the cookie fallback reads back only `a` |
| AuthStore.LookalikeCookieSuppressesResync | store/useAuthStore.js:24-28 | the resync test is a substring test, so a cookie `xaccessToken` suppresses the rewrite while the gate still finds no token |
| AuthStore.RejectedTokenSignsOut | store/useAuthStore.js:30-53 | a token that fails verification ends signed out with all three storage keys and the host-only cookie gone, even after an optimistic restore |
| AuthStore.Identity | store/useAuthStore.js:71-79 | the kept user record has only identity fields that the reply has, never a token, and copies each identity field the reply has |
| AuthStore.LoginBegin | store/useAuthStore.js:66 | `loading` is set and `error` cleared before the call; user, flag and replicas are untouched |
| AuthStore.LoginFinish | store/useAuthStore.js:68-93 | on success: the identity projection is stored; both tokens are written to storage; the access token is written to the cookie for one hour; the result is `{success: true}`. On failure: the message is reported with `isAuthenticated` and `loading` false, the user is kept and the replicas are untouched |
| AuthStore.LoginOpensGate | store/useAuthStore.js:81-88 | when every `accessToken` cookie in the jar is host-only: after a successful login, storage and cookie hold the same access token; when it is non-empty, the gate passes every path other than `/login` |
| AuthStore.ReloadAfterLogin | store/useAuthStore.js:13-41 | after a login with a non-empty access token, a reload restores the stored identity optimistically, verifies the login's token and leaves the replicas as they were. With an empty access token (and only host-only `accessToken` cookies), the reload finds no token and settles at once, still signed in as the login's identity, without verifying anything |
| AuthStore.EmptyLoginTokenIsNoToken | store/useAuthStore.js:13-22 | after a login with an empty access token, and with only host-only `accessToken` cookies, the token `loadUser` finds is empty |
| AuthStore.LoginThenReload | store/useAuthStore.js:39-45 | after a login with a non-empty access token, a reload whose verification succeeds signs in as the verified user, keeps the login's token stored and leaves the cookie unchanged. With an empty access token (and only host-only `accessToken` cookies), the verification answer is never consulted and the reload leaves the session exactly as the login did |
| AuthStore.Logout | store/useAuthStore.js:97-106 | the three storage keys are removed and nothing else in storage changes. The cookie is expired host-only and for the page's host; every other cookie keeps its number of copies and its order. The user is signed out with `error` cleared |
| Cookies.Expire | store/useAuthStore.js:103-104 | exactly the cookies of the expired name and domain go; every other cookie keeps its number of copies, and the survivors are a sublist of the jar, in their original order |
| AuthStore.Login | store/useAuthStore.js:64-93 | `login` succeeds exactly when the endpoint answers and exactly then signs in, with the identity projection as user; `loading` ends false. A failure reports the message in the result and in `error`, and keeps the user and both replicas |
| AuthStore.Initial | store/useAuthStore.js:5-8 | the store starts with no user, loading, no error and signed out |
| AuthStore.LogoutClosesGate | store/useAuthStore.js:97-106 | when every `accessToken` cookie in the jar is host-only or for the page's host: after logout neither replica holds a token, the gate sends `/users` to `/login`, and the next `loadUser` settles signed out without a verification call |
| AuthStore.LogoutKeepsOtherDomainToken | store/useAuthStore.js:102-104 | an `accessToken` cookie for any other domain (a parent domain, say) survives logout and the gate still reads a token; when it was the only one and non-empty, `/users` is served |
| AuthStore.StepsKeepUserWhenSignedIn | store/useAuthStore.js:4-106 | every completed step keeps "signed in implies a user record"; the waiting state of `loadUser` keeps it when the stored `user` text is an object |
| AuthStore.NonObjectStoredUserSignsInWithoutUser | store/useAuthStore.js:31-36 | stored `user` text `null` is restored optimistically as a signed-in state with no user |
| AuthStore.LoginScenario | store/useAuthStore.js:64-93 | logging in as `emilys` stores both tokens and a four-field identity; a rejection reports the server's message and leaves the replicas alone |
| Cookies.StoreWellFormed | store/useAuthStore.js:27 | writing a cookie keeps the jar well formed: at most one cookie per name and domain |
| Cookies.LookupAfterStore | store/useAuthStore.js:86 | after a write, a jar whose `accessToken` cookies are all host-only reads back the written value |
| QueryCache.Initialize | store/useProductsStore.js:12-20 | the seed is shown, remembered and memoised under `''`; every other memo entry is kept |
| QueryCache.SearchBegin | store/useProductsStore.js:25-36 | an own memo entry for the trimmed query is a hit: the entry is shown with `loading` and `error` cleared. Anything else is a request for the trimmed query, with `loading` set and `error` cleared |
| QueryCache.SearchFinish | store/useProductsStore.js:41-67 | success shows the transformed records and memoises exactly that key. A non-ok response records the fixed message and a thrown error its own message; the list and the memo are kept |
| QueryCache.Search | store/useProductsStore.js:25-68 | `loading` ends false. An own memo entry is shown with no request and no error. On a miss, success shows and memoises the transformed records under the trimmed query; a failure keeps the list and the memo and records the message |
| QueryCache.SetShown | store/useProductsStore.js:22 | only the list on display changes |
| QueryCache.MemoOnlyGrows | store/useProductsStore.js:18-62 | no operation removes a memo key, and a search changes at most the entry of its trimmed query |
| QueryCache.PaddingIsIgnored | store/useProductsStore.js:26-62 | queries that differ only in surrounding whitespace give the same search |
| QueryCache.RepeatIsMemoised | store/useUsersStore.js:22-63 | repeating a successful search is a memo hit that shows the same list without a request |
| QueryCache.SeedAnswersEmptyQuery | store/useUsersStore.js:11-29 | after seeding, an empty or all-whitespace query shows the seed without a request |
| QueryCache.FailureKeepsLastGoodList | store/useUsersStore.js:37-39 | a failed search leaves the memo unchanged and `loading` false; on a miss it keeps the list on display |
| QueryCache.PrototypeNameHitsAsWritten | store/useProductsStore.js:30 | `constructor`, even padded, is a memo hit as written on a store that never memoised it; the own-entry test sends it to the endpoint |
| ProductsStore.Initialize | store/useProductsStore.js:12-20 | products and `initialProducts` are the seed, categories default to `[]`, `''` is memoised and is the only key added, other entries are kept, and `loading` and `error` are unchanged |
| ProductsStore.Initial | store/useProductsStore.js:4-9 | the store starts with no products, no seed, no categories, not loading, no error, and a memo that answers no query |
| ProductsStore.SetProducts | store/useProductsStore.js:22 | only the products on display change |
| ProductsStore.ToProduct | store/useProductsStore.js:47-56 | the product keeps the id, category and description, takes the title as name, the thumbnail as image and the price behind `$`, is popular iff rated above 4.5, and has the tags or `[]` as features |
| ProductsStore.SearchProducts | store/useProductsStore.js:25-68 | `loading` ends false, and `initialProducts` and the categories are unchanged. A memo hit shows the memoised list with the memo unchanged and no error. A successful request shows and memoises one transformed product per result, in order, and clears `error`. A non-ok response reports `Failed to fetch products`, and a thrown error its own message; both keep the list and the memo |
| ProductsStore.SearchShowsResults | store/useProductsStore.js:47-60 | a successful search shows one product per result, in order: the title as name, the price with a `$`, popular iff rated above 4.5, and tags or `[]` as features |
| ProductsStore.SearchFailureMessage | store/useProductsStore.js:41-43 | a non-ok response reports `Failed to fetch products` and a thrown error its own message; the products and the memo are kept |
| UsersStore.ToUserDisplayable | store/useUsersStore.js:43-57 | the transformed user has the name `first last`. The country is the address's if non-empty, else `Unknown`. The program is the department if non-empty, else `General`. The status is `Pending` iff the id is divisible by 3, else `Active`. The id, names, email, age, gender, address, company and role are copied |
| UsersStore.ToUser | store/useUsersStore.js:43-57 | every transformed user is displayable and keeps the record's own fields |
| UsersStore.SearchUsers | store/useUsersStore.js:22-68 | `loading` ends false and `initialUsers` is unchanged. A memo hit shows the memoised list with the memo unchanged and no error. A successful request shows and memoises one transformed user per result, in order, and clears `error`. A non-ok response reports `Failed to fetch users`, and a thrown error its own message; both keep the list and the memo |
| UsersStore.Initialize | store/useUsersStore.js:11-17 | users and `initialUsers` are the seed, `''` is memoised and is the only key added, other entries are kept, and `loading` and `error` are unchanged |
| UsersStore.Initial | store/useUsersStore.js:4-8 | the store starts with no users, no seed, not loading, no error, and a memo that answers no query |
| UsersStore.SetUsers | store/useUsersStore.js:19 | only the users on display change |
| UsersStore.SearchShowsDisplayableUsers | store/useUsersStore.js:43-63 | a successful search shows and memoises one displayable user per result, each the transform of the result in the same position |
| UsersStore.SearchFailureMessage | store/useUsersStore.js:35-67 | a non-ok response reports `Failed to fetch users` and a thrown error its own message; the users and the memo are kept |
| ProductsPage.Category | app/products/page.jsx:6 | the category is the parameter when it is present and non-empty, otherwise `all`; it is never empty |
| ProductsPage.Categories | app/products/page.jsx:18-19 | the list is `all` followed by each entry's slug (or the entry), in order, one longer than the entries |
| ProductsPage.ProductsUrlSelects | app/products/page.jsx:22-27 | `all` loads the fixed first-page URL, any other category its own listing, and the URL gives the category back |
| ProductsPage.ProductsUrlInjective | app/products/page.jsx:22-27 | different categories load different URLs |
| ProductsPage.ProductsUrl | app/products/page.jsx:22-27 | the URL is the fixed first-page URL exactly when the category is `all`; otherwise it is the category listing prefix followed by the category |
| ProductsPage.SameTransformAsStore | app/products/page.jsx:40-49 | the page's product transform equals the store's on every record and every list |
| UsersPage.Page | app/users/page.jsx:5 | the page is the number given when it is present and non-zero, otherwise 1; it is never 0 |
| UsersPage.Limit | app/users/page.jsx:6 | the limit is the number given when it is present and non-zero, otherwise 10; it is never 0 |
| UsersPage.SkipSteps | app/users/page.jsx:7 | page 1 starts at 0 and consecutive pages start `limit` apart |
| UsersPage.Skip | app/users/page.jsx:7 | the skip is the number of users before the page, so that the page's `limit` users end at `page * limit`; it is never negative for a valid page and limit |
| UsersPage.Defaults | app/users/page.jsx:5-7 | without parameters, users 0 to 9 are requested |
| UsersPage.SameTransformAsStore | app/users/page.jsx:21-35 | the page's user transform equals the store's on every record and list, so every rendered user is displayable |
| UsersClient.CeilDiv | components/UsersClient.jsx:66 | `Math.ceil(a / b)`: the least multiple count covering `a` for positive `b`, and the mirror-image bound for negative `b` |
| UsersClient.PaginationHidden | components/UsersClient.jsx:65 | the pager is hidden while there is a search text, while loading, and when there are no users |
| UsersClient.ShowPagination | components/UsersClient.jsx:65 | a shown pager implies an empty search text, no loading and at least one user |
| UsersClient.ShownPagerOffersPages | components/UsersClient.jsx:65-66 | a shown pager with a positive limit offers at least one page, and its last page starts at an existing user; with a negative limit, which the page passes through, it is shown with no page |
| UsersClient.NegativeLimitNoPages | components/UsersClient.jsx:66 | with users and a negative limit, the page count `Math.ceil(total / limit)` is not positive |
| UsersClient.PageCountCovers | components/UsersClient.jsx:66 | for positive total and limit there is at least one page; the last page starts before the end and one more would start past it |
| UsersClient.OfferedPagesAreNonEmpty | components/UsersClient.jsx:66 | for users and a non-zero limit, every page from 1 to the count starts at an existing user (with a negative limit there is no such page) |
| UsersClient.PageChangeRoundTrip | components/UsersClient.jsx:59-63 | choosing a page keeps every other parameter in order and leaves exactly one `page`; the page the server then reads is the one chosen |
| UsersClient.HandlePageChange | components/UsersClient.jsx:59-63 | the new location reads back the chosen page in decimal and has every other parameter as before |
| ProductsClient.HandleCategoryChange | components/ProductsClient.jsx:64-72 | choosing `all` leaves no `category`; any other choice reads back as that category; every other parameter is as before |
| ProductsClient.ChipLabel | components/ProductsClient.jsx:142 | `all` is labelled `All Products`; any other category keeps its length and has no `-` |
| ProductsClient.CategoryChangeRoundTrip | components/ProductsClient.jsx:64-72 | choosing `all` removes `category`, and any other choice sets it to exactly that value, once. Other parameters are kept in order, and the server then selects the chosen category |
| ProductsClient.ChipLabelShape | components/ProductsClient.jsx:142 | a label other than `All Products` has the category's length, no `-`, and each `-` turned into a space with every other character in place |
| ProductsClient.ChipLabelIdentifiesDashes | components/ProductsClient.jsx:142 | names that differ only between `-` and a space in the same positions get the same label |
| Strings.TrimIgnoresPadding | store/useProductsStore.js:26 | trimming ignores any whitespace added around the text |
| Strings.TrimIdempotent | store/useUsersStore.js:23 | trimming twice is trimming once |
| SearchParams.GetAfterSet | components/UsersClient.jsx:61 | after `set`, `get` returns the new value and it is the only pair of that name |
| SearchParams.SetKeepsOthers | components/ProductsClient.jsx:69 | `set` leaves every other pair in place and in order |
| SearchParams.DeleteIdempotent | components/ProductsClient.jsx:67 | deleting a name twice is deleting it once |
| Numbers.IntToStringRoundTrip | components/UsersClient.jsx:61 | reading back the decimal text that a page number is written as gives the number |

## Left out

- The `fetch` wrappers of `lib/auth.js` are not part of this model. The
  login endpoint and `getCurrentUser` are represented by their results
  (`Ok(data)` or `Err(message)`). `refreshAuthToken` is never called by the
  core.
- The search endpoints (URL building, `encodeURIComponent`, `response.json()`)
  are represented by a `Fetch` outcome: the raw records, a non-ok response, or
  a thrown error with its message.
- The server action in `app/actions.js` and the proxy rewrites in
  `next.config.mjs` are not part of this model.
- Rendering, layout, styling and the login form are not modelled; the chip
  label's `textTransform: capitalize` is a style and is not modelled.
- Debounce timers and races between overlapping searches or logins are not
  modelled. Each operation is a sequence of atomic steps, with no other
  operation in between.
- The server pages' own `fetch` calls are not modelled, nor the errors they
  throw on a non-ok response. The product and user lists they transform are
  inputs.
- `UsersPage.Page` and `UsersPage.Limit` take the result of `Number(...)` as an
  optional integer. Fractions, `NaN` from non-numeric text (treated as
  missing) and exponents are not modelled. `Numbers.ParseInt` reads only an
  optional `-` followed by decimal digits.
- `UsersClient.CeilDiv` models `Math.ceil(total / limit)` for integers only:
  floating-point division and a zero limit (which gives `Infinity` or `NaN`)
  are excluded by its precondition.
- Prices are text (the template literal `$${price}` is modelled as `"$"`
  followed by that text). Ratings are reals with exact comparison.
- JSON is a parameter. The lemmas about a reload after a login assume that
  parsing back what was stringified gives the object (`AuthStore.Faithful`).
  `AuthStore.Obj` renders every field as a string, and a parsed value other
  than `null` or an object is kept opaque.
- AuthStore.StepsKeepUserWhenSignedIn: the waiting state of `loadUser` keeps
  the invariant only when the stored `user` text parses to an object (or is
  not there). Stored text `null` breaks it, as
  `AuthStore.NonObjectStoredUserSignsInWithoutUser` shows.
- AuthStore.LoadUserBegin: the outer `catch` of `loadUser` is modelled only
  for a `JSON.parse` failure of the stored user, which sets `error` and clears
  `loading`. Storage access that throws is not modelled.
- Cookie expiry by the clock, the `path=/` attribute, the `expires` attribute
  and the browser cutting a written value at `;` are not modelled. A cookie
  stays until it is removed. `Cookies.WellFormed` assumes names without `=`
  or `;` and values without `;`.
- `Cookies.Lookup` gives the oldest cookie of a name, under any domain, as
  what the gate reads from `request.cookies`. Which duplicate a browser
  actually sends first is not modelled, nor which of several cookies of the
  same name `request.cookies.get` (middleware.js:4) picks.
- Strings are sequences of Unicode scalar values, while JavaScript strings are
  UTF-16 code units. Lengths (as in `ProductsClient.ChipLabelShape`) differ for
  characters outside the Basic Multilingual Plane, and lone surrogates are not
  modelled.
- ProductsStore.SearchProducts: uses the corrected memo test (an own entry is
  a hit), not the `cache[trimmedQuery]` read of store/useProductsStore.js:30;
  see "## Findings".
- UsersStore.SearchUsers: uses the corrected memo test (an own entry is a
  hit), not the `cache[trimmedQuery]` read of store/useUsersStore.js:26; see
  "## Findings".
- QueryCache.Search: uses the same corrected memo test; the as-written test
  is `QueryCache.CachedAsWritten`.
- `Middleware.StaticAssetsBypass`: the matcher is modelled as the pattern's
  negative lookahead applied to the path after `/`, so the favicon alternative
  lets through every path starting with `/favicon`, any character and `ico`
  (see `Middleware.FaviconLookalikesBypass`). How Next.js compiles
  matchers (trailing slashes, locales, data routes) is not modelled.
- `ProductsPage.Category`, `UsersPage.Page` and `UsersPage.Limit` take each
  query parameter as one optional string or number. A repeated key (such as
  `?category=a&category=b`) makes the value an array in the page's
  `searchParams`, which would fetch `/category/a,b` or give `NaN`; this is
  not modelled.
- `AuthStore.Logout` expires only the host-only cookie and the cookie for the
  page's own host, as the code does. Cookies for a parent domain or under a
  path other than `/` survive; the first case is stated by
  `AuthStore.LogoutKeepsOtherDomainToken`, and cookie paths are not modelled.
- `SearchParams`: serialisation to a query string and percent-encoding are
  not modelled. A navigation target is a path plus the ordered name-value
  list.

## Findings

| source | as written | input that shows it | evidently intended | confidence | as-written member | corrected member |
|---|---|---|---|---|---|---|
| store/useProductsStore.js:30 (and store/useUsersStore.js:26) | the memo test `cache[trimmedQuery]` reads a plain object, so names inherited from `Object.prototype` count as hits | searching for `constructor` before it was ever memoised: the store shows the function `Object` as its list and makes no request | only an own entry of the memo is a hit | not executed | QueryCache.PrototypeNameHitsAsWritten | QueryCache.SearchBegin |
