/** The session store: the record `{user, loading, error, isAuthenticated}`
    together with its two replicas, client storage (`localStorage`) and the
    cookie jar read by the route gate. The identity service's replies
    (`getCurrentUser`, the login endpoint) are inputs, and the operations that
    wait on them are split at the `await`: a first step up to the call and a
    second step that consumes the reply. */
module AuthStore {
  import opened Wrappers
  import Strings
  import Lists
  import Cookies
  import Middleware

  /** A JSON object with its fields rendered as strings; a field that is
      `undefined` is absent. */
  type Obj = map<string, string>

  /** A value the store can hold in `user`: `null`, an object, or any other
      JSON value (a number, string, boolean or array), kept as its text. */
  datatype Value = Null | Object(fields: Obj) | Other(text: string)

  /** `JSON.stringify` on user objects and `JSON.parse` on stored text;
      `parse` fails with the message of the `SyntaxError` it throws. */
  datatype Json = Json(stringify: Obj -> string, parse: string -> Result<Value>)

  /** Parsing what was stringified gives the object back, and the text of
      an object is never empty. */
  ghost predicate Faithful(json: Json) {
    forall o :: json.parse(json.stringify(o)) == Ok(Object(o)) && json.stringify(o) != ""
  }

  datatype AuthState = AuthState(user: Value, loading: bool, error: Option<string>, isAuthenticated: bool)

  type Storage = map<string, string>

  /** The two persisted replicas. */
  datatype Env = Env(storage: Storage, jar: Cookies.Jar)

  /** The store's state together with the replicas it writes. */
  datatype Snapshot = Snapshot(state: AuthState, env: Env)

  /** `loadUser` up to the identity check: either it has already finished,
      or it is waiting on `getCurrentUser(token)`. */
  datatype LoadStep = Settled(after: Snapshot) | Verifying(during: Snapshot, token: string) {
    /** The replicas as this step leaves them. */
    function Replicas(): Env {
      if Settled? then after.env else during.env
    }
  }

  datatype LoginResult = LoginResult(success: bool, error: Option<string>)

  /** `max-age` of the cookie written by `loadUser` and `login`, in seconds. */
  const OneHour: nat := 60 * 60

  /** The storage keys the store owns; they are always cleared together. */
  const StorageKeys: set<string> := {"user", "accessToken", "refreshToken"}

  /** The fields of the user record kept after a login. */
  const IdentityFields: set<string> := {"id", "username", "email", "firstName", "lastName", "gender", "image"}

  /** The state before any action runs: no user, still loading. */
  function Initial(): (st: AuthState)
    ensures st.user == Null && st.loading && st.error == None && !st.isAuthenticated
    ensures UserWhenSignedIn(st)
  {
    AuthState(Null, true, None, false)
  }

  /** `localStorage.getItem(key)`. */
  function GetItem(storage: Storage, key: string): Option<string> {
    if key in storage then Some(storage[key]) else None
  }

  /** A field read that is coerced to a string: an absent field reads as
      `"undefined"`. */
  function Field(o: Obj, key: string): string {
    if key in o then o[key] else "undefined"
  }

  predicate IsTokenRow(row: string) {
    "accessToken=" <= row
  }

  /** The cookie fallback of `loadUser`: the first `"; "`-separated row that
      starts with `accessToken=`, cut at the next `=`. */
  function CookieToken(cookie: string): (r: Option<string>)
    ensures r.Some? ==> !(forall i :: 0 <= i < |Strings.Split(cookie, "; ")| ==> !IsTokenRow(Strings.Split(cookie, "; ")[i]))
    ensures r.None? ==> forall i :: 0 <= i < |Strings.Split(cookie, "; ")| ==> !IsTokenRow(Strings.Split(cookie, "; ")[i])
    ensures r.Some? ==> FirstTokenValue(Strings.Split(cookie, "; "), r.value)
  {
    var rows := Strings.Split(cookie, "; ");
    match Lists.Find(IsTokenRow, rows)
    case None => None
    case Some(row) =>
      FirstTokenRow(rows, row);
      Some(Strings.Split(row, "=")[1])
  }

  /** `v` is what the first row starting with `accessToken=` gives when cut
      at its `=` signs: the piece after the first one. */
  ghost predicate FirstTokenValue(rows: seq<string>, v: string) {
    exists i :: && 0 <= i < |rows| && IsTokenRow(rows[i])
                && (forall j :: 0 <= j < i ==> !IsTokenRow(rows[j]))
                && |Strings.Split(rows[i], "=")| >= 2 && Strings.Split(rows[i], "=")[1] == v
  }

  lemma FirstTokenRow(rows: seq<string>, row: string)
    requires Lists.Find(IsTokenRow, rows) == Some(row)
    ensures |Strings.Split(row, "=")| >= 2
    ensures FirstTokenValue(rows, Strings.Split(row, "=")[1])
  {
    var i :| 0 <= i < |rows| && rows[i] == row && IsTokenRow(rows[i]) && forall j :: 0 <= j < i ==> !IsTokenRow(rows[j]);
    Strings.ContainsAt(row, "=", 11);
  }

  /** The token `loadUser` works with: client storage first, the cookie only
      when storage holds no truthy token. */
  function StoredToken(env: Env): (r: Option<string>)
    ensures Strings.Truthy(GetItem(env.storage, "accessToken")) ==> r == GetItem(env.storage, "accessToken")
    ensures !Strings.Truthy(GetItem(env.storage, "accessToken")) && CookieToken(Cookies.Render(env.jar)).Some? ==> r == CookieToken(Cookies.Render(env.jar))
    ensures !Strings.Truthy(GetItem(env.storage, "accessToken")) && CookieToken(Cookies.Render(env.jar)).None? ==> r == GetItem(env.storage, "accessToken")
  {
    var fromStorage := GetItem(env.storage, "accessToken");
    if Strings.Truthy(fromStorage) then fromStorage
    else
      match CookieToken(Cookies.Render(env.jar))
      case Some(t) => Some(t)
      case None => fromStorage
  }

  /** `loadUser` up to `await getCurrentUser(storedToken)`. */
  function LoadUserBegin(s: Snapshot, json: Json): (step: LoadStep)
    ensures !Strings.Truthy(StoredToken(s.env)) ==> step == Settled(Snapshot(s.state.(loading := false), s.env))
    ensures step.Verifying? ==> step.token == StoredToken(s.env).value && step.token != ""
    ensures step.Settled? ==> !step.after.state.loading
    ensures Strings.Truthy(StoredToken(s.env)) && !Strings.Truthy(GetItem(s.env.storage, "user")) ==>
      step.Verifying? && step.during.state == s.state
    ensures Strings.Truthy(StoredToken(s.env)) && Strings.Truthy(GetItem(s.env.storage, "user")) ==>
      match json.parse(s.env.storage["user"])
      case Ok(u) => step.Verifying? && step.during.state == s.state.(user := u, isAuthenticated := true, loading := true)
      case Err(msg) => step.Settled? && step.after.state == s.state.(loading := false, error := Some(msg))
    ensures step.Replicas().storage == s.env.storage
    ensures Strings.Truthy(StoredToken(s.env)) && Strings.Contains(Cookies.Render(s.env.jar), "accessToken=") ==>
      step.Replicas().jar == s.env.jar
    ensures Strings.Truthy(StoredToken(s.env)) && !Strings.Contains(Cookies.Render(s.env.jar), "accessToken=") ==>
      step.Replicas().jar == Cookies.Store(s.env.jar, "accessToken", StoredToken(s.env).value, OneHour)
  {
    var token := StoredToken(s.env);
    if !Strings.Truthy(token) then Settled(Snapshot(s.state.(loading := false), s.env))
    else
      var jar := if Strings.Contains(Cookies.Render(s.env.jar), "accessToken=") then s.env.jar
                 else Cookies.Store(s.env.jar, "accessToken", token.value, OneHour);
      var env := s.env.(jar := jar);
      var storedUser := GetItem(s.env.storage, "user");
      if !Strings.Truthy(storedUser) then Verifying(Snapshot(s.state, env), token.value)
      else
        match json.parse(storedUser.value)
        case Err(msg) => Settled(Snapshot(s.state.(loading := false, error := Some(msg)), env))
        case Ok(u) => Verifying(Snapshot(s.state.(user := u, isAuthenticated := true, loading := true), env), token.value)
  }

  /** `loadUser` after `getCurrentUser(token)` settles with `verdict`. */
  function LoadUserFinish(s: Snapshot, token: string, verdict: Result<Obj>, json: Json): (r: Snapshot)
    ensures verdict.Ok? ==>
      && r.state == s.state.(user := Object(verdict.value), isAuthenticated := true, loading := false)
      && r.env.storage == s.env.storage["user" := json.stringify(verdict.value)]["accessToken" := token]
      && r.env.jar == s.env.jar
    ensures verdict.Err? ==>
      && r.state == s.state.(user := Null, isAuthenticated := false, loading := false)
      && (forall k :: k in StorageKeys ==> k !in r.env.storage)
      && (forall k :: k !in StorageKeys ==> GetItem(r.env.storage, k) == GetItem(s.env.storage, k))
      && r.env.jar == Cookies.Expire(s.env.jar, "accessToken", None)
  {
    match verdict
    case Ok(data) =>
      Snapshot(s.state.(user := Object(data), isAuthenticated := true, loading := false),
               s.env.(storage := s.env.storage["user" := json.stringify(data)]["accessToken" := token]))
    case Err(_) =>
      Snapshot(s.state.(user := Null, isAuthenticated := false, loading := false),
               Env(s.env.storage - StorageKeys, Cookies.Expire(s.env.jar, "accessToken", None)))
  }

  /** `loadUser` as one step, `verdict` being what `getCurrentUser` would
      answer; it is not consulted when no token is found. */
  function LoadUser(s: Snapshot, json: Json, verdict: Result<Obj>): (r: Snapshot)
    ensures !r.state.loading
    ensures LoadUserBegin(s, json).Verifying? ==>
      && (r.state.isAuthenticated <==> verdict.Ok?)
      && r.state.user == (if verdict.Ok? then Object(verdict.value) else Null)
      && (verdict.Ok? ==> GetItem(r.env.storage, "accessToken") == StoredToken(s.env))
      && (verdict.Err? ==> forall k :: k in StorageKeys ==> k !in r.env.storage)
    ensures LoadUserBegin(s, json).Settled? ==>
      r.env.storage == s.env.storage && r.state.user == s.state.user && r.state.isAuthenticated == s.state.isAuthenticated
  {
    match LoadUserBegin(s, json)
    case Settled(after) => after
    case Verifying(during, token) => LoadUserFinish(during, token, verdict, json)
  }

  /** The user record kept by `login`: the seven identity fields of the
      reply, and nothing else. */
  function Identity(data: Obj): (u: Obj)
    ensures u.Keys <= IdentityFields && u.Keys <= data.Keys
    ensures "accessToken" !in u && "refreshToken" !in u
    ensures forall k :: k in IdentityFields && k in data ==> k in u && u[k] == data[k]
  {
    map k | k in IdentityFields && k in data :: data[k]
  }

  /** `login` up to `await apiLogin(...)`. */
  function LoginBegin(s: Snapshot): (r: Snapshot)
    ensures r.state.loading && r.state.error.None?
    ensures r.state.user == s.state.user && r.state.isAuthenticated == s.state.isAuthenticated && r.env == s.env
  {
    Snapshot(s.state.(loading := true, error := None), s.env)
  }

  /** `login` after the login endpoint settles with `reply`. */
  function LoginFinish(s: Snapshot, reply: Result<Obj>, json: Json): (r: (Snapshot, LoginResult))
    ensures reply.Ok? ==>
      var access := Field(reply.value, "accessToken");
      && r.1 == LoginResult(true, None)
      && r.0.state == AuthState(Object(Identity(reply.value)), false, None, true)
      && r.0.env.storage == s.env.storage["user" := json.stringify(Identity(reply.value))]["accessToken" := access]["refreshToken" := Field(reply.value, "refreshToken")]
      && r.0.env.jar == Cookies.Store(s.env.jar, "accessToken", access, OneHour)
    ensures reply.Err? ==>
      && r.1 == LoginResult(false, Some(reply.message))
      && r.0.state == s.state.(error := Some(reply.message), loading := false, isAuthenticated := false)
      && r.0.env == s.env
  {
    match reply
    case Ok(data) =>
      var user := Identity(data);
      var access := Field(data, "accessToken");
      var storage := s.env.storage["user" := json.stringify(user)]["accessToken" := access]["refreshToken" := Field(data, "refreshToken")];
      var jar := Cookies.Store(s.env.jar, "accessToken", access, OneHour);
      (Snapshot(AuthState(Object(user), false, None, true), Env(storage, jar)), LoginResult(true, None))
    case Err(msg) =>
      (Snapshot(s.state.(error := Some(msg), loading := false, isAuthenticated := false), s.env), LoginResult(false, Some(msg)))
  }

  /** `login` as one step, `reply` being what the login endpoint answers. */
  function Login(s: Snapshot, reply: Result<Obj>, json: Json): (r: (Snapshot, LoginResult))
    ensures r.1.success <==> reply.Ok?
    ensures r.1.success <==> r.0.state.isAuthenticated
    ensures !r.0.state.loading
    ensures reply.Ok? ==> r.0.state.user == Object(Identity(reply.value)) && r.1.error.None? && r.0.state.error.None?
    ensures reply.Err? ==>
      && r.1.error == Some(reply.message) && r.0.state.error == r.1.error
      && r.0.state.user == s.state.user && r.0.env == s.env
  {
    LoginFinish(LoginBegin(s), reply, json)
  }

  /** `logout`, on a page served from `hostname`: the three storage keys go,
      the cookie is expired both host-only and for `domain=hostname` (the
      other cookies keep their order), and the user is signed out; `loading` is left as it was. */
  function Logout(s: Snapshot, hostname: string): (r: Snapshot)
    ensures r.state == s.state.(user := Null, isAuthenticated := false, error := None)
    ensures forall k :: k in StorageKeys ==> k !in r.env.storage
    ensures forall k :: k !in StorageKeys ==> GetItem(r.env.storage, k) == GetItem(s.env.storage, k)
    ensures forall c :: c in r.env.jar <==> c in s.env.jar && !(c.name == "accessToken" && c.domain in {None, Some(hostname)})
    ensures Lists.IsSubsequence(r.env.jar, s.env.jar)
    ensures forall c: Cookies.Cookie :: !(c.name == "accessToken" && c.domain in {None, Some(hostname)}) ==>
      multiset(r.env.jar)[c] == multiset(s.env.jar)[c]
  {
    var first := Cookies.Expire(s.env.jar, "accessToken", None);
    var jar := Cookies.Expire(first, "accessToken", Some(hostname));
    Lists.SubsequenceTransitive(jar, first, s.env.jar);
    Snapshot(s.state.(user := Null, isAuthenticated := false, error := None), Env(s.env.storage - StorageKeys, jar))
  }

  // ---------------------------------------------------------------------
  // The cookie string and the jar behind it

  /** A rendered row starts with `accessToken=` exactly when it is the row of
      the cookie called `accessToken`. */
  lemma TokenRowIffName(name: string, value: string)
    requires '=' !in name
    ensures IsTokenRow(name + "=" + value) <==> name == "accessToken"
  {
    var row := name + "=" + value;
    var prefix := "accessToken=";
    if IsTokenRow(row) {
      assert forall k :: 0 <= k < 12 ==> row[k] == prefix[k];
      assert forall k :: 0 <= k < 11 ==> prefix[k] != '=';
      assert row[|name|] == '=' && row[11] == '=';
      assert forall k :: 0 <= k < |name| ==> row[k] == name[k] && name[k] != '=';
      assert |name| == 11;
      assert name == row[..11];
    }
  }

  lemma {:induction false} FindTokenRow(jar: Cookies.Jar)
    requires forall i :: 0 <= i < |jar| ==> '=' !in jar[i].name
    ensures Cookies.Lookup(jar, "accessToken").None? ==> Lists.Find(IsTokenRow, Cookies.Rows(jar)).None?
    ensures Cookies.Lookup(jar, "accessToken").Some? ==>
      Lists.Find(IsTokenRow, Cookies.Rows(jar)) == Some("accessToken=" + Cookies.Lookup(jar, "accessToken").value)
    decreases |jar|
  {
    if |jar| > 0 {
      var rows := Cookies.Rows(jar);
      var tail := Cookies.Rows(jar[1..]);
      assert rows[1..] == tail;
      TokenRowIffName(jar[0].name, jar[0].value);
      if jar[0].name == "accessToken" {
        assert rows[0] == "accessToken=" + jar[0].value;
        assert IsTokenRow(rows[0]);
      } else {
        assert !IsTokenRow(rows[0]);
        FindTokenRow(jar[1..]);
        assert Lists.Find(IsTokenRow, rows) == Lists.Find(IsTokenRow, tail);
      }
    }
  }

  /** Splitting the cookie string on `"; "` gives back the rows of a
      non-empty jar. */
  lemma RenderSplits(jar: Cookies.Jar)
    requires Cookies.WellFormed(jar) && |jar| > 0
    ensures Strings.Split(Cookies.Render(jar), "; ") == Cookies.Rows(jar)
  {
    var rows := Cookies.Rows(jar);
    forall i | 0 <= i < |rows|
      ensures ';' !in rows[i]
    {
      assert rows[i] == jar[i].name + "=" + jar[i].value;
    }
    Strings.SplitJoin(rows, "; ");
  }

  /** The part of a token row after `accessToken=` up to the next `=`. */
  lemma TokenRowValue(v: string)
    ensures |Strings.Split("accessToken=" + v, "=")| >= 2
    ensures Strings.Split("accessToken=" + v, "=")[1] == Strings.Split(v, "=")[0]
  {
    Strings.FirstOccurrenceAfter("accessToken", "=", v);
    var row := "accessToken" + "=" + v;
    assert row == "accessToken=" + v;
    assert row[12..] == v;
  }

  /** The cookie fallback reads back what the jar holds: the value of the
      oldest `accessToken` cookie, cut at its first `=`. */
  lemma CookieTokenOfJar(jar: Cookies.Jar)
    requires Cookies.WellFormed(jar)
    ensures Cookies.Lookup(jar, "accessToken").None? ==> CookieToken(Cookies.Render(jar)).None?
    ensures Cookies.Lookup(jar, "accessToken").Some? ==>
      CookieToken(Cookies.Render(jar)) == Some(Strings.Split(Cookies.Lookup(jar, "accessToken").value, "=")[0])
  {
    if |jar| == 0 {
      assert Cookies.Render(jar) == "";
      Strings.SplitJoin([""], "; ");
      assert Strings.Split("", "; ") == [""];
      assert !IsTokenRow("");
      assert Lists.Find(IsTokenRow, [""]) == None;
    } else {
      RenderSplits(jar);
      FindTokenRow(jar);
      if Cookies.Lookup(jar, "accessToken").Some? {
        TokenRowValue(Cookies.Lookup(jar, "accessToken").value);
      }
    }
  }

  /** A value without `=` is read back whole. */
  lemma CookieTokenWhole(jar: Cookies.Jar, v: string)
    requires Cookies.WellFormed(jar) && Cookies.Lookup(jar, "accessToken") == Some(v) && '=' !in v
    ensures CookieToken(Cookies.Render(jar)) == Some(v)
  {
    CookieTokenOfJar(jar);
    Strings.SplitJoin([v], "=");
  }

  /** If there is an `accessToken` cookie, the cookie string mentions `accessToken=`. */
  lemma TokenCookieIsMentioned(jar: Cookies.Jar)
    requires Cookies.Lookup(jar, "accessToken").Some?
    ensures Strings.Contains(Cookies.Render(jar), "accessToken=")
  {
    var i :| 0 <= i < |jar| && jar[i].name == "accessToken";
    var rows := Cookies.Rows(jar);
    assert rows[i][..12] == "accessToken=";
    Strings.ContainsAt(rows[i], "accessToken=", 0);
    Strings.ContainsInJoin(rows, "; ", i, "accessToken=");
  }

  /** The resync test is a substring test, so a cookie whose name merely ends
      in `accessToken` suppresses it: the store goes on to verify the stored
      token while the route gate still finds no token. */
  lemma LookalikeCookieSuppressesResync(json: Json)
    ensures
      var jar := [Cookies.Cookie("xaccessToken", "1", None, OneHour)];
      var s := Snapshot(Initial(), Env(map["accessToken" := "t"], jar));
      var step := LoadUserBegin(s, json);
      && step.Verifying? && step.token == "t"
      && step.during.env.jar == jar
      && Cookies.Lookup(jar, "accessToken").None?
      && Middleware.Route("/users", Cookies.Lookup(jar, "accessToken")) == Middleware.Redirect("/login")
  {
    var jar := [Cookies.Cookie("xaccessToken", "1", None, OneHour)];
    assert Cookies.Render(jar) == "xaccessToken=1";
    assert "xaccessToken=1"[1..][..12] == "accessToken=";
    Strings.ContainsAt("xaccessToken=1", "accessToken=", 1);
    Middleware.PagesAreGated("/users", None);
  }

  // ---------------------------------------------------------------------
  // The two replicas and the route gate

  /** Resync: when storage holds a token and the cookie string has no
      `accessToken=`, `loadUser` writes the cookie for one hour and from then
      on the route gate reads the same token storage holds. The cookie
      fallback reads it back cut at its first `=`, so whole exactly when the
      token has no `=`. */
  lemma ResyncMakesReplicasAgree(s: Snapshot, json: Json)
    requires Cookies.WellFormed(s.env.jar)
    requires Strings.Truthy(GetItem(s.env.storage, "accessToken"))
    requires ';' !in s.env.storage["accessToken"]
    requires !Strings.Contains(Cookies.Render(s.env.jar), "accessToken=")
    ensures
      var t := s.env.storage["accessToken"];
      var jar := LoadUserBegin(s, json).Replicas().jar;
      && Cookies.Cookie("accessToken", t, None, OneHour) in jar
      && Cookies.Lookup(jar, "accessToken") == Some(t)
      && CookieToken(Cookies.Render(jar)) == Some(Strings.Split(t, "=")[0])
    ensures
      var t := s.env.storage["accessToken"];
      '=' !in t ==> CookieToken(Cookies.Render(LoadUserBegin(s, json).Replicas().jar)) == Some(t)
  {
    var t := s.env.storage["accessToken"];
    var jar := Cookies.Store(s.env.jar, "accessToken", t, OneHour);
    assert LoadUserBegin(s, json).Replicas().jar == jar by {
      assert StoredToken(s.env) == Some(t);
    }
    assert Cookies.Lookup(s.env.jar, "accessToken").None? by {
      if Cookies.Lookup(s.env.jar, "accessToken").Some? {
        TokenCookieIsMentioned(s.env.jar);
      }
    }
    Cookies.StoreContains(s.env.jar, "accessToken", t, OneHour);
    assert Cookies.WellFormed(jar) && Cookies.Lookup(jar, "accessToken") == Some(t) by {
      StoreTokenFound(s.env.jar, t);
      Cookies.StoreWellFormed(s.env.jar, "accessToken", t, OneHour);
    }
    CookieTokenOfJar(jar);
    if '=' !in t {
      CookieTokenWhole(jar, t);
    }
  }

  /** A token with `=` in it is read back by the cookie fallback only up to
      its first `=`, while the gate reads it whole. */
  lemma EqualsSignCutsFallback(json: Json)
    ensures
      var s := Snapshot(Initial(), Env(map["accessToken" := "a=b"], []));
      var jar := LoadUserBegin(s, json).Replicas().jar;
      && Cookies.Lookup(jar, "accessToken") == Some("a=b")
      && CookieToken(Cookies.Render(jar)) == Some("a")
  {
    var s := Snapshot(Initial(), Env(map["accessToken" := "a=b"], []));
    assert Cookies.Render(s.env.jar) == "" by {
      assert Cookies.Rows([]) == [];
    }
    assert !Strings.Contains("", "accessToken=");
    assert Strings.Split("a=b", "=")[0] == "a" by {
      Strings.FirstOccurrenceAfter("a", "=", "b");
      assert "a" + "=" + "b" == "a=b";
    }
    ResyncMakesReplicasAgree(s, json);
  }

  /** Storing a token in a jar without an `accessToken` cookie makes that
      token the one found under `accessToken`. */
  lemma StoreTokenFound(jar: Cookies.Jar, t: string)
    requires Cookies.Lookup(jar, "accessToken").None?
    ensures Cookies.Lookup(Cookies.Store(jar, "accessToken", t, OneHour), "accessToken") == Some(t)
  {
    var name := "accessToken";
    assert forall c :: c in jar ==> c.name != name;
    Cookies.LookupAfterStore(jar, name, t, OneHour);
  }

  /** After a successful login the replicas agree on the access token and,
      when it is non-empty, the route gate lets every page but `/login` through. */
  lemma LoginOpensGate(s: Snapshot, data: Obj, json: Json)
    requires forall c :: c in s.env.jar && c.name == "accessToken" ==> c.domain == None
    ensures
      var after := Login(s, Ok(data), json).0;
      var token := Cookies.Lookup(after.env.jar, "accessToken");
      && token == Some(Field(data, "accessToken"))
      && token == GetItem(after.env.storage, "accessToken")
      && (Field(data, "accessToken") != "" ==> forall path :: path != "/login" ==> Middleware.Gate(path, token) == Middleware.Pass)
  {
    Cookies.LookupAfterStore(s.env.jar, "accessToken", Field(data, "accessToken"), OneHour);
  }

  /** After logout neither replica holds a token (provided the only
      `accessToken` cookies were host-only or for this host): the gate sends
      every protected page to `/login`, and a following `loadUser` makes no
      verification call and leaves the user signed out. */
  lemma LogoutClosesGate(s: Snapshot, hostname: string, json: Json)
    requires Cookies.WellFormed(s.env.jar)
    requires forall c :: c in s.env.jar && c.name == "accessToken" ==> c.domain in {None, Some(hostname)}
    ensures
      var after := Logout(s, hostname);
      && Cookies.Lookup(after.env.jar, "accessToken") == None
      && Middleware.Route("/users", Cookies.Lookup(after.env.jar, "accessToken")) == Middleware.Redirect("/login")
      && LoadUserBegin(after, json).Settled?
      && !LoadUserBegin(after, json).after.state.isAuthenticated
      && LoadUserBegin(after, json).after.state.user == Null
  {
    var after := Logout(s, hostname);
    var j1 := Cookies.Expire(s.env.jar, "accessToken", None);
    Cookies.ExpireWellFormed(s.env.jar, "accessToken", None);
    Cookies.ExpireWellFormed(j1, "accessToken", Some(hostname));
    CookieTokenOfJar(after.env.jar);
    Middleware.PagesAreGated("/users", None);
  }

  /** `logout` expires only the host-only cookie and the one for the page's
      own host. An `accessToken` cookie for any other domain, such as a
      parent domain, survives, and the gate still finds a token. */
  lemma LogoutKeepsOtherDomainToken(s: Snapshot, hostname: string, c: Cookies.Cookie)
    requires c in s.env.jar && c.name == "accessToken" && c.domain !in {None, Some(hostname)}
    ensures c in Logout(s, hostname).env.jar
    ensures Cookies.Lookup(Logout(s, hostname).env.jar, "accessToken").Some?
    ensures s.env.jar == [c] && c.value != "" ==>
      Middleware.Route("/users", Cookies.Lookup(Logout(s, hostname).env.jar, "accessToken")) == Middleware.Pass
  {
    var jar := Logout(s, hostname).env.jar;
    assert c in jar;
    var i :| 0 <= i < |jar| && jar[i] == c;
    if s.env.jar == [c] && c.value != "" {
      assert jar[0] in s.env.jar;
      Middleware.PagesAreGated("/users", Cookies.Lookup(jar, "accessToken"));
    }
  }

  /** A reload after a successful login, up to the verification call. With
      a non-empty access token, the stored identity is restored
      optimistically from storage, the token comes from storage, and the
      cookie is left alone. With an empty one (and no `accessToken` cookie
      for a domain), no token is found: the reload settles at once, still
      signed in as the login left it, without verifying anything. */
  lemma ReloadAfterLogin(s: Snapshot, data: Obj, json: Json)
    requires Faithful(json)
    ensures
      var after := Login(s, Ok(data), json).0;
      var step := LoadUserBegin(after, json);
      Field(data, "accessToken") != "" ==>
        && step.Verifying?
        && step.token == Field(data, "accessToken")
        && step.during.state.user == Object(Identity(data))
        && step.during.state.isAuthenticated && step.during.state.loading
        && step.during.env == after.env
    ensures
      var after := Login(s, Ok(data), json).0;
      var step := LoadUserBegin(after, json);
      && Field(data, "accessToken") == ""
      && Cookies.WellFormed(s.env.jar)
      && (forall c :: c in s.env.jar && c.name == "accessToken" ==> c.domain == None)
      ==>
        && step == Settled(after)
        && step.after.state.user == Object(Identity(data))
        && step.after.state.isAuthenticated
  {
    var after := Login(s, Ok(data), json).0;
    var access := Field(data, "accessToken");
    if access != "" {
      var text := json.stringify(Identity(data));
      assert GetItem(after.env.storage, "accessToken") == Some(access);
      assert StoredToken(after.env) == Some(access);
      assert GetItem(after.env.storage, "user") == Some(text);
      assert json.parse(text) == Ok(Object(Identity(data))) && text != "";
      Cookies.StoreContains(s.env.jar, "accessToken", access, OneHour);
      TokenCookieIsMentioned(after.env.jar);
    } else if Cookies.WellFormed(s.env.jar) && forall c :: c in s.env.jar && c.name == "accessToken" ==> c.domain == None {
      EmptyLoginTokenIsNoToken(s, data, json);
    }
  }

  /** After a login whose access token is empty, neither replica yields a
      truthy token, provided every `accessToken` cookie was host-only. */
  lemma EmptyLoginTokenIsNoToken(s: Snapshot, data: Obj, json: Json)
    requires Field(data, "accessToken") == ""
    requires Cookies.WellFormed(s.env.jar)
    requires forall c :: c in s.env.jar && c.name == "accessToken" ==> c.domain == None
    ensures StoredToken(Login(s, Ok(data), json).0.env) == Some("")
  {
    var after := Login(s, Ok(data), json).0;
    assert GetItem(after.env.storage, "accessToken") == Some("");
    Cookies.LookupAfterStore(s.env.jar, "accessToken", "", OneHour);
    Cookies.StoreWellFormed(s.env.jar, "accessToken", "", OneHour);
    CookieTokenWhole(after.env.jar, "");
  }

  /** A whole reload after a successful login, verification answering
      `current`. With a non-empty access token, the final state is signed in
      as `current`, the login's token is still stored and the cookie is
      unchanged. With an empty one (and only host-only `accessToken`
      cookies), the answer is never consulted: the reload leaves the session
      exactly as the login did, signed in as the login's identity. */
  lemma LoginThenReload(s: Snapshot, data: Obj, current: Obj, json: Json)
    requires Faithful(json)
    ensures
      var after := Login(s, Ok(data), json).0;
      var reloaded := LoadUser(after, json, Ok(current));
      Field(data, "accessToken") != "" ==>
        && reloaded.state.user == Object(current) && reloaded.state.isAuthenticated && !reloaded.state.loading
        && GetItem(reloaded.env.storage, "accessToken") == Some(Field(data, "accessToken"))
        && reloaded.env.jar == after.env.jar
    ensures
      var after := Login(s, Ok(data), json).0;
      var reloaded := LoadUser(after, json, Ok(current));
      && Field(data, "accessToken") == ""
      && Cookies.WellFormed(s.env.jar)
      && (forall c :: c in s.env.jar && c.name == "accessToken" ==> c.domain == None)
      ==>
        && reloaded == after
        && reloaded.state.user == Object(Identity(data)) && reloaded.state.isAuthenticated
  {
    ReloadAfterLogin(s, data, json);
  }

  // ---------------------------------------------------------------------
  // Invariants and scenarios

  /** A signed-in state always carries a user record. The converse does not
      hold: a failed login keeps whatever user was there. */
  predicate UserWhenSignedIn(st: AuthState) {
    st.isAuthenticated ==> st.user.Object?
  }

  /** The stored `user` text, when truthy and parseable, is an object. */
  predicate StoredUserIsRecord(env: Env, json: Json) {
    var stored := GetItem(env.storage, "user");
    !Strings.Truthy(stored) || (json.parse(stored.value).Ok? ==> json.parse(stored.value).value.Object?)
  }

  /** Every completed step keeps `UserWhenSignedIn`. The intermediate state
      of `loadUser` keeps it only when the stored `user` text is an object:
      text such as `null` is restored optimistically as a signed-in state
      without a user (see `NonObjectStoredUserSignsInWithoutUser`). */
  lemma StepsKeepUserWhenSignedIn(s: Snapshot, json: Json, verdict: Result<Obj>, reply: Result<Obj>, hostname: string)
    requires UserWhenSignedIn(s.state)
    ensures match LoadUserBegin(s, json)
            case Settled(after) => UserWhenSignedIn(after.state)
            case Verifying(during, _) => StoredUserIsRecord(s.env, json) ==> UserWhenSignedIn(during.state)
    ensures UserWhenSignedIn(LoadUser(s, json, verdict).state)
    ensures UserWhenSignedIn(LoginBegin(s).state)
    ensures UserWhenSignedIn(Login(s, reply, json).0.state)
    ensures UserWhenSignedIn(Logout(s, hostname).state)
  {
  }

  /** Stored `user` text that parses to `null` is restored optimistically:
      while the token is being verified the store is signed in with no user. */
  lemma NonObjectStoredUserSignsInWithoutUser(json: Json)
    requires json.parse("null") == Ok(Null)
    ensures
      var s := Snapshot(Initial(), Env(map["accessToken" := "t", "user" := "null"], []));
      var step := LoadUserBegin(s, json);
      && !StoredUserIsRecord(s.env, json)
      && step.Verifying?
      && step.during.state.isAuthenticated && step.during.state.user == Null
      && !UserWhenSignedIn(step.during.state)
  {
    var s := Snapshot(Initial(), Env(map["accessToken" := "t", "user" := "null"], []));
    assert StoredToken(s.env) == Some("t");
    assert GetItem(s.env.storage, "user") == Some("null");
  }

  /** A token that fails verification signs the user out and clears both
      replicas, also when the stored user had been restored optimistically. */
  lemma RejectedTokenSignsOut(s: Snapshot, json: Json, message: string)
    requires LoadUserBegin(s, json).Verifying?
    ensures
      var r := LoadUser(s, json, Err(message));
      && r.state.user == Null && !r.state.isAuthenticated && !r.state.loading
      && (forall k :: k in StorageKeys ==> k !in r.env.storage)
      && (forall c :: c in r.env.jar ==> !(c.name == "accessToken" && c.domain.None?))
  {
  }

  /** Logging in as `emilys`: a reply carrying tokens signs in and stores
      the access token; a rejection carries the server's message. */
  lemma LoginScenario(s: Snapshot, json: Json)
    ensures
      var data := map["id" := "1", "username" := "emilys", "firstName" := "Emily", "lastName" := "Smith",
                      "accessToken" := "tok-123", "refreshToken" := "ref-456"];
      var (ok, okResult) := Login(s, Ok(data), json);
      && okResult == LoginResult(true, None)
      && ok.state.isAuthenticated
      && GetItem(ok.env.storage, "accessToken") == Some("tok-123")
      && GetItem(ok.env.storage, "refreshToken") == Some("ref-456")
      && ok.state.user == Object(map["id" := "1", "username" := "emilys", "firstName" := "Emily", "lastName" := "Smith"])
    ensures
      var (failed, failedResult) := Login(s, Err("Invalid credentials"), json);
      && failedResult == LoginResult(false, Some("Invalid credentials"))
      && !failed.state.isAuthenticated
      && failed.env == s.env
  {
    var data := map["id" := "1", "username" := "emilys", "firstName" := "Emily", "lastName" := "Smith",
                    "accessToken" := "tok-123", "refreshToken" := "ref-456"];
    assert Identity(data) == map["id" := "1", "username" := "emilys", "firstName" := "Emily", "lastName" := "Smith"];
  }
}
