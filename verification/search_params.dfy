/** The name-value list behind `URLSearchParams`, with the `get`, `set` and
    `delete` operations of the WHATWG URL Standard (section 6.2, "Interface
    URLSearchParams"). Serialisation and percent-encoding are not modelled:
    a navigation target is kept as a path plus this list. */
module SearchParams {
  import opened Wrappers

  datatype Param = Param(name: string, value: string)

  type Params = seq<Param>

  /** A navigation target, `path + '?' + params.toString()`. */
  datatype Location = Location(path: string, params: Params)

  /** `params.get(name)`: the value of the first pair called `name`. */
  function Get(ps: Params, name: string): (r: Option<string>)
    ensures r.Some? <==> exists i :: 0 <= i < |ps| && ps[i].name == name
    ensures r.Some? ==> exists i :: 0 <= i < |ps| && ps[i] == Param(name, r.value) && forall j :: 0 <= j < i ==> ps[j].name != name
    decreases |ps|
  {
    if |ps| == 0 then None
    else if ps[0].name == name then Some(ps[0].value)
    else Get(ps[1..], name)
  }

  /** `params.delete(name)`: every pair called `name` removed, the rest in order. */
  function Delete(ps: Params, name: string): (r: Params)
    ensures forall i :: 0 <= i < |r| ==> r[i].name != name
    ensures forall p :: p in r <==> p in ps && p.name != name
    ensures |r| <= |ps|
    decreases |ps|
  {
    if |ps| == 0 then []
    else if ps[0].name == name then Delete(ps[1..], name)
    else [ps[0]] + Delete(ps[1..], name)
  }

  /** `params.set(name, value)`: the first pair called `name` takes the new
      value and the other pairs of that name go; with no such pair, one is
      appended. */
  function Set(ps: Params, name: string, value: string): Params
    decreases |ps|
  {
    if |ps| == 0 then [Param(name, value)]
    else if ps[0].name == name then [Param(name, value)] + Delete(ps[1..], name)
    else [ps[0]] + Set(ps[1..], name, value)
  }

  /** The number of pairs called `name`. */
  function Count(ps: Params, name: string): nat
    decreases |ps|
  {
    if |ps| == 0 then 0 else (if ps[0].name == name then 1 else 0) + Count(ps[1..], name)
  }

  lemma {:induction false} DeleteNoneLeft(ps: Params, name: string)
    ensures Count(Delete(ps, name), name) == 0
    decreases |ps|
  {
    if |ps| > 0 {
      DeleteNoneLeft(ps[1..], name);
      if ps[0].name != name {
        assert Delete(ps, name)[1..] == Delete(ps[1..], name);
      }
    }
  }

  /** After `set`, `get` returns the new value and it is the only pair of
      that name. */
  lemma {:induction false} GetAfterSet(ps: Params, name: string, value: string)
    ensures Get(Set(ps, name, value), name) == Some(value)
    ensures Count(Set(ps, name, value), name) == 1
    decreases |ps|
  {
    var r := Set(ps, name, value);
    if |ps| == 0 {
    } else if ps[0].name == name {
      assert r[1..] == Delete(ps[1..], name);
      DeleteNoneLeft(ps[1..], name);
    } else {
      assert r[1..] == Set(ps[1..], name, value);
      GetAfterSet(ps[1..], name, value);
    }
  }

  /** Deleting a name twice is deleting it once. */
  lemma {:induction false} DeleteIdempotent(ps: Params, name: string)
    ensures Delete(Delete(ps, name), name) == Delete(ps, name)
    decreases |ps|
  {
    if |ps| > 0 {
      DeleteIdempotent(ps[1..], name);
      if ps[0].name != name {
        assert Delete(ps, name)[1..] == Delete(ps[1..], name);
      }
    }
  }

  /** `set` touches no other name: with that name removed from both sides,
      the list after `set` is the list before it, order included. */
  lemma {:induction false} SetKeepsOthers(ps: Params, name: string, value: string)
    ensures Delete(Set(ps, name, value), name) == Delete(ps, name)
    decreases |ps|
  {
    var r := Set(ps, name, value);
    if |ps| == 0 {
    } else if ps[0].name == name {
      assert r[1..] == Delete(ps[1..], name);
      DeleteIdempotent(ps[1..], name);
    } else {
      assert r[1..] == Set(ps[1..], name, value);
      SetKeepsOthers(ps[1..], name, value);
    }
  }
}
