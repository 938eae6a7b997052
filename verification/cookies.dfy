/** The browser's cookie jar as the application sees it through
    `document.cookie`. A write `name=value; path=/; max-age=N` with N > 0
    stores (or overwrites in place) the cookie; a write with `max-age=0`
    removes it and keeps the other cookies in their order. Cookies written
    with a `domain=` attribute are a different cookie from the host-only one
    of the same name. Reading `document.cookie`
    gives `name=value` for every cookie, joined by `"; "`, oldest first.
    Expiry by the clock is not modelled: a stored cookie stays until removed. */
module Cookies {
  import opened Wrappers
  import Strings
  import Lists

  datatype Cookie = Cookie(name: string, value: string, domain: Option<string>, maxAge: nat)

  type Jar = seq<Cookie>

  /** What a browser can hold: names free of `=` and `;`, values free of `;`,
      and at most one cookie per name and domain. */
  predicate WellFormed(jar: Jar) {
    && (forall i :: 0 <= i < |jar| ==> Valid(jar[i]))
    && (forall i, j :: 0 <= i < j < |jar| ==> !SameSlot(jar[i], jar[j]))
  }

  predicate Valid(c: Cookie) {
    '=' !in c.name && ';' !in c.name && ';' !in c.value
  }

  /** Two cookies the browser keeps apart only if name or domain differ. */
  predicate SameSlot(c: Cookie, d: Cookie) {
    c.name == d.name && c.domain == d.domain
  }

  /** A jar with a first cookie is well formed exactly when that cookie is
      valid, the rest is well formed, and no later cookie shares its slot. */
  lemma WellFormedCons(c: Cookie, rest: Jar)
    ensures WellFormed([c] + rest) <==>
      Valid(c) && WellFormed(rest) && forall d :: d in rest ==> !SameSlot(c, d)
  {
    if Valid(c) && WellFormed(rest) && forall d :: d in rest ==> !SameSlot(c, d) {
      WellFormedConsIntro(c, rest);
    }
    if WellFormed([c] + rest) {
      WellFormedConsElim(c, rest);
    }
  }

  lemma WellFormedConsIntro(c: Cookie, rest: Jar)
    requires Valid(c) && WellFormed(rest) && forall d :: d in rest ==> !SameSlot(c, d)
    ensures WellFormed([c] + rest)
  {
    var jar := [c] + rest;
    assert forall i :: 0 < i < |jar| ==> jar[i] == rest[i - 1];
    forall i, j | 0 <= i < j < |jar|
      ensures !SameSlot(jar[i], jar[j])
    {
      if i == 0 {
        assert jar[j] in rest;
      }
    }
  }

  lemma WellFormedConsElim(c: Cookie, rest: Jar)
    requires WellFormed([c] + rest)
    ensures Valid(c) && WellFormed(rest) && forall d :: d in rest ==> !SameSlot(c, d)
  {
    var jar := [c] + rest;
    assert jar[0] == c;
    assert forall i :: 0 <= i < |rest| ==> rest[i] == jar[i + 1];
    forall d | d in rest
      ensures !SameSlot(c, d)
    {
      var k :| 0 <= k < |rest| && rest[k] == d;
      assert !SameSlot(jar[0], jar[k + 1]);
    }
    forall i, j | 0 <= i < j < |rest|
      ensures !SameSlot(rest[i], rest[j])
    {
      assert !SameSlot(jar[i + 1], jar[j + 1]);
    }
  }

  /** The `name=value` rows, one per cookie. */
  function Rows(jar: Jar): (rows: seq<string>)
    ensures |rows| == |jar|
    ensures forall i :: 0 <= i < |jar| ==> rows[i] == jar[i].name + "=" + jar[i].value
  {
    seq(|jar|, i requires 0 <= i < |jar| => jar[i].name + "=" + jar[i].value)
  }

  /** The `document.cookie` getter. */
  function Render(jar: Jar): string {
    Strings.Join(Rows(jar), "; ")
  }

  /** The value of the oldest cookie called `name`, under any domain. */
  function Lookup(jar: Jar, name: string): (r: Option<string>)
    ensures r.None? <==> forall i :: 0 <= i < |jar| ==> jar[i].name != name
    ensures r.Some? ==> exists i :: 0 <= i < |jar| && jar[i].name == name && jar[i].value == r.value && forall j :: 0 <= j < i ==> jar[j].name != name
    decreases |jar|
  {
    if |jar| == 0 then None
    else if jar[0].name == name then Some(jar[0].value)
    else Lookup(jar[1..], name)
  }

  /** `document.cookie = name + '=' + value + '; path=/; max-age=' + maxAge`
      with `maxAge > 0`: the host-only cookie of that name takes the new value
      and lifetime where it stands, or is appended. */
  function Store(jar: Jar, name: string, value: string, maxAge: nat): Jar
    requires maxAge > 0
    decreases |jar|
  {
    if |jar| == 0 then [Cookie(name, value, None, maxAge)]
    else if jar[0].name == name && jar[0].domain == None then [Cookie(name, value, None, maxAge)] + jar[1..]
    else [jar[0]] + Store(jar[1..], name, value, maxAge)
  }

  /** `document.cookie = name + '=; path=/; max-age=0'` (with `domain=d` when
      `domain == Some(d)`): the cookie with that name and domain is removed. */
  function Expire(jar: Jar, name: string, domain: Option<string>): (r: Jar)
    ensures forall c :: c in r <==> c in jar && !(c.name == name && c.domain == domain)
    ensures |r| <= |jar|
    ensures Lists.IsSubsequence(r, jar)
    ensures forall c: Cookie :: !(c.name == name && c.domain == domain) ==> multiset(r)[c] == multiset(jar)[c]
    decreases |jar|
  {
    if |jar| == 0 then []
    else
      assert jar == [jar[0]] + jar[1..];
      if jar[0].name == name && jar[0].domain == domain then Expire(jar[1..], name, domain)
      else
        var rest := Expire(jar[1..], name, domain);
        assert ([jar[0]] + rest)[1..] == rest;
        [jar[0]] + rest
  }

  /** After a store, the jar holds the stored cookie. */
  lemma {:induction false} StoreContains(jar: Jar, name: string, value: string, maxAge: nat)
    requires maxAge > 0
    ensures Cookie(name, value, None, maxAge) in Store(jar, name, value, maxAge)
    decreases |jar|
  {
    if |jar| > 0 && !(jar[0].name == name && jar[0].domain == None) {
      StoreContains(jar[1..], name, value, maxAge);
    }
  }

  /** After a store, the host-only cookie of that name holds exactly the new
      value and lifetime, and every other cookie is kept. */
  lemma {:induction false} StoreFacts(jar: Jar, name: string, value: string, maxAge: nat)
    requires maxAge > 0 && WellFormed(jar)
    ensures forall c :: c in Store(jar, name, value, maxAge) && c.name == name && c.domain == None ==> c == Cookie(name, value, None, maxAge)
    ensures forall c :: c in jar && !(c.name == name && c.domain == None) ==> c in Store(jar, name, value, maxAge)
    ensures forall c :: c in Store(jar, name, value, maxAge) ==> c in jar || c == Cookie(name, value, None, maxAge)
    decreases |jar|
  {
    if |jar| > 0 {
      if jar[0].name == name && jar[0].domain == None {
        forall c | c in jar[1..]
          ensures !(c.name == name && c.domain == None)
        {
          var k :| 0 <= k < |jar[1..]| && jar[1..][k] == c;
          assert jar[k + 1] == c;
        }
      } else {
        StoreFacts(jar[1..], name, value, maxAge);
      }
    }
  }

  lemma {:induction false} StoreWellFormed(jar: Jar, name: string, value: string, maxAge: nat)
    requires maxAge > 0 && WellFormed(jar)
    requires '=' !in name && ';' !in name && ';' !in value
    ensures WellFormed(Store(jar, name, value, maxAge))
    decreases |jar|
  {
    var stored := Cookie(name, value, None, maxAge);
    if |jar| == 0 {
      WellFormedCons(stored, []);
    } else {
      assert jar == [jar[0]] + jar[1..];
      WellFormedCons(jar[0], jar[1..]);
      if SameSlot(jar[0], stored) {
        WellFormedCons(stored, jar[1..]);
      } else {
        var rest := Store(jar[1..], name, value, maxAge);
        StoreWellFormed(jar[1..], name, value, maxAge);
        StoreFacts(jar[1..], name, value, maxAge);
        WellFormedCons(jar[0], rest);
      }
    }
  }

  lemma {:induction false} ExpireWellFormed(jar: Jar, name: string, domain: Option<string>)
    requires WellFormed(jar)
    ensures WellFormed(Expire(jar, name, domain))
    decreases |jar|
  {
    if |jar| > 0 {
      assert jar == [jar[0]] + jar[1..];
      WellFormedCons(jar[0], jar[1..]);
      ExpireWellFormed(jar[1..], name, domain);
      if !(jar[0].name == name && jar[0].domain == domain) {
        WellFormedCons(jar[0], Expire(jar[1..], name, domain));
      }
    }
  }

  /** When every cookie called `name` is host-only, storing under `name`
      makes the new value the one found first. */
  lemma {:induction false} LookupAfterStore(jar: Jar, name: string, value: string, maxAge: nat)
    requires maxAge > 0
    requires forall c :: c in jar && c.name == name ==> c.domain == None
    ensures Lookup(Store(jar, name, value, maxAge), name) == Some(value)
    decreases |jar|
  {
    if |jar| > 0 && jar[0].name != name {
      LookupAfterStore(jar[1..], name, value, maxAge);
    }
  }
}
