/**
 * The decoded JSON document that both analysis scripts walk, and the
 * outcomes of walking it.
 *
 * An object is an ordered list of key/value pairs, so that iteration
 * follows the order of the decoded dictionary. A decoder never produces
 * two equal keys in one object; lookups take the first match.
 */
module JsonValue {

  datatype Json =
    | Obj(fields: seq<(string, Json)>)
    | Arr(items: seq<Json>)
    | Str(text: string)
    | Num(value: real)
    | Bool(flag: bool)
    | Null

  datatype Option<+T> = None | Some(value: T)

  /** The exceptions the scripts let escape while walking a document. */
  datatype Error =
    | NotAnObject        // the top-level value has no `.items()`
    | PathNotText        // `bgn_atom` is not a string, so `.strip` fails
    | TypeNotText        // an interaction type that is not a string
    | DistanceNotNumber  // `float(distance)` rejects a truthy distance

  datatype Result<+T> = Ok(value: T) | Err(error: Error)

  /** `dict.get(key)`: the value stored under `key`, if any. */
  function Get(fields: seq<(string, Json)>, key: string): (r: Option<Json>)
    ensures r.Some? <==> exists i :: 0 <= i < |fields| && fields[i].0 == key
    ensures r.Some? ==> (key, r.value) in fields
  {
    if |fields| == 0 then None
    else if fields[0].0 == key then Some(fields[0].1)
    else Get(fields[1..], key)
  }

  /** `dict.get(key, default)`. */
  function GetOr(fields: seq<(string, Json)>, key: string, default: Json): Json
  {
    match Get(fields, key)
    case Some(v) => v
    case None => default
  }

  /** Python truthiness of a decoded value is false. */
  predicate Falsy(v: Json)
  {
    match v
    case Obj(fs) => |fs| == 0
    case Arr(xs) => |xs| == 0
    case Str(s) => |s| == 0
    case Num(x) => x == 0.0
    case Bool(b) => !b
    case Null => true
  }

  /** A value that is not a list stands for a one-element list. */
  function AsList(v: Json): seq<Json>
  {
    if v.Arr? then v.items else [v]
  }

  /** `acc + rest` when `rest` succeeded; the error otherwise. */
  function Prepend<T>(acc: seq<T>, rest: Result<seq<T>>): Result<seq<T>>
  {
    match rest
    case Ok(xs) => Ok(acc + xs)
    case Err(e) => Err(e)
  }

  /** Sequential composition: stop at the first error, else concatenate. */
  function Then<T>(first: Result<seq<T>>, rest: Result<seq<T>>): Result<seq<T>>
  {
    match first
    case Ok(xs) => Prepend(xs, rest)
    case Err(e) => Err(e)
  }

  lemma PrependNothing<T>(rest: Result<seq<T>>)
    ensures Prepend([], rest) == rest
  {
    if rest.Ok? {
      assert [] + rest.value == rest.value;
    }
  }

  lemma PrependPrepend<T>(a: seq<T>, b: seq<T>, rest: Result<seq<T>>)
    ensures Prepend(a, Prepend(b, rest)) == Prepend(a + b, rest)
  {
    if rest.Ok? {
      assert a + (b + rest.value) == (a + b) + rest.value;
    }
  }

  lemma ThenPrepend<T>(a: seq<T>, first: Result<seq<T>>, rest: Result<seq<T>>)
    ensures Then(Prepend(a, first), rest) == Prepend(a, Then(first, rest))
  {
    if first.Ok? {
      PrependPrepend(a, first.value, rest);
    }
  }

  lemma ThenAssociative<T>(x: Result<seq<T>>, y: Result<seq<T>>, z: Result<seq<T>>)
    ensures Then(Then(x, y), z) == Then(x, Then(y, z))
  {
    if x.Ok? {
      ThenPrepend(x.value, y, z);
    }
  }
}
