/** Small helpers shared by the model: optional values, error results,
    Python truthiness, and the order in which Python visits a set. */
module Util {

  datatype Option<T> = None | Some(value: T)

  datatype Result<T, E> = Ok(value: T) | Err(error: E)

  /** Python truthiness of an optional string: `None` and `''` are false. */
  predicate TruthyStr(s: Option<string>) {
    s.Some? && s.value != ""
  }

  /** Python truthiness of an optional number: `None` and `0` are false. */
  predicate TruthyInt(x: Option<int>) {
    x.Some? && x.value != 0
  }

  ghost predicate Distinct<T>(s: seq<T>) {
    forall i, j :: 0 <= i < j < |s| ==> s[i] != s[j]
  }

  /** Every key in `order` is a key of `m`. */
  ghost predicate KeysIn<K, V>(order: seq<K>, m: map<K, V>) {
    forall k | k in order :: k in m
  }

  /** `order` visits every element of `keys` exactly once. */
  ghost predicate Enumerates<K(!new)>(order: seq<K>, keys: set<K>) {
    Distinct(order) && (forall k :: k in order <==> k in keys)
  }

  /** Iterating a Python set: the elements come out once each, in an order
      the runtime chooses. */
  method Enumerate<K(!new)>(s: set<K>) returns (order: seq<K>)
    ensures Enumerates(order, s)
  {
    order := [];
    var rest := s;
    while rest != {}
      invariant Distinct(order)
      invariant forall k :: k in order ==> k in s && k !in rest
      invariant forall k :: k in s ==> k in order || k in rest
      invariant rest <= s
      decreases rest
    {
      var k :| k in rest;
      order := order + [k];
      rest := rest - {k};
    }
  }

  /** Python's `set.add` on a set whose elements compare by key `k`: an
      element equal to one already present is not added. */
  function Insert<K, V>(m: map<K, V>, k: K, v: V): (r: map<K, V>)
    ensures r.Keys == m.Keys + {k}
    ensures k in m ==> r[k] == m[k]
    ensures k !in m ==> r[k] == v
    ensures forall j :: j in m ==> r[j] == m[j]
  {
    if k in m then m else m[k := v]
  }

  /** The set built by `add`ing the elements of `xs`, in order, to an empty
      set whose elements compare by `key`: every element's key is present,
      and every member is one of the elements, filed under its own key. */
  function SetOf<K, V>(xs: seq<V>, key: V -> K): (r: map<K, V>)
    ensures forall i | 0 <= i < |xs| :: key(xs[i]) in r
    ensures forall k | k in r :: key(r[k]) == k && r[k] in xs
    decreases |xs|
  {
    if xs == [] then map[]
    else
      var last := xs[|xs| - 1];
      Insert(SetOf(xs[..|xs| - 1], key), key(last), last)
  }

  /** Adding one more element to the set built from `xs`. */
  lemma {:induction false} SetOfSnoc<K, V>(xs: seq<V>, x: V, key: V -> K)
    ensures SetOf(xs + [x], key) == Insert(SetOf(xs, key), key(x), x)
  {
    assert (xs + [x])[..|xs|] == xs;
  }

  /** One step of a loop adding the elements of `xs` in order. */
  lemma SetOfStep<K, V>(xs: seq<V>, i: nat, key: V -> K)
    requires i < |xs|
    ensures SetOf(xs[..i + 1], key) == Insert(SetOf(xs[..i], key), key(xs[i]), xs[i])
  {
    assert xs[..i + 1] == xs[..i] + [xs[i]];
    SetOfSnoc(xs[..i], xs[i], key);
  }

  /** Python's `for x in xs: s.add(x)` on an empty set whose elements compare by `key`. */
  method AddEach<K, V>(xs: seq<V>, key: V -> K) returns (r: map<K, V>)
    ensures r == SetOf(xs, key)
  {
    r := map[];
    for i := 0 to |xs|
      invariant r == SetOf(xs[..i], key)
    {
      SetOfStep(xs, i, key);
      r := Insert(r, key(xs[i]), xs[i]);
    }
    assert xs[..|xs|] == xs;
  }
}
