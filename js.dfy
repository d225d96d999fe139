/** The slice of the JavaScript value model that the command-line core relies on:
    plain values, `undefined`, arrays, insertion-ordered objects, and the host
    operations (number conversion, case conversion) that the core calls but does
    not define. */
module Js {

  datatype Option<+T> = None | Some(value: T)

  datatype Result<+T, +E> = Ok(value: T) | Err(error: E)

  /** A JavaScript value as it can appear in a parsed-argument object. */
  datatype Val =
    | Undef
    | Str(s: string)
    | Num(n: real)
    | Bool(b: bool)
    | List(items: seq<Val>)

  /** A declaration field typed `T | T[]`, possibly absent. */
  datatype Arrayable<T> = Absent | Single(x: T) | Array(xs: seq<T>)

  /** Host operations the core calls but does not define. They are parameters of
      the model: the model relies on nothing about them beyond their types. */
  datatype Runtime = Runtime(
    toNumber: string -> Option<real>,   // unary `+s`, kept only when finite (`x * 0 === 0`)
    parseFloat: string -> Option<real>, // `Number.parseFloat(s)`, None for NaN
    numberToString: real -> string,     // `String(n)`
    camelCase: string -> string,        // scule `camelCase`
    kebabCase: string -> string,        // scule `kebabCase`
    upperCase: string -> string)        // `String.prototype.toUpperCase`

  /** An object with string keys in insertion order. */
  datatype Dict<V> = Dict(keys: seq<string>, vals: map<string, V>)
  {
    ghost predicate Valid() {
      (forall i, j | 0 <= i < j < |keys| :: keys[i] != keys[j]) &&
      (forall k :: k in vals <==> k in keys)
    }

    /** `obj[k] = v`: a new key goes to the end, an existing key keeps its place. */
    function Put(k: string, v: V): (d: Dict<V>)
      ensures d.vals == vals[k := v]
      ensures k in vals ==> d.keys == keys
      ensures k !in vals ==> d.keys == keys + [k]
      ensures Valid() ==> d.Valid()
    {
      if k in vals then Dict(keys, vals[k := v]) else Dict(keys + [k], vals[k := v])
    }
  }

  function EmptyDict<V>(): (d: Dict<V>)
    ensures d.Valid() && d.keys == []
  {
    Dict([], map[])
  }

  /** `obj[k]` on an object of values: `undefined` when the key is missing. */
  function Get(d: Dict<Val>, k: string): Val {
    if k in d.vals then d.vals[k] else Undef
  }

  /** `s.startsWith("-")`, equivalently `s.charCodeAt(0) === 45`. */
  predicate StartsWithDash(s: string) {
    |s| > 0 && s[0] == '-'
  }

  /** `Array.prototype.join(sep)` on strings. */
  function Join(parts: seq<string>, sep: string): string {
    if |parts| == 0 then ""
    else if |parts| == 1 then parts[0]
    else parts[0] + sep + Join(parts[1..], sep)
  }

  /** `String(v)` (and template-literal interpolation). Inside an array, JavaScript
      renders `undefined` as the empty string. */
  function Display(v: Val, rt: Runtime): string {
    match v
    case Undef => "undefined"
    case Str(s) => s
    case Num(n) => rt.numberToString(n)
    case Bool(b) => if b then "true" else "false"
    case List(items) => Join(DisplayItems(items, rt), ",")
  }

  function DisplayItems(items: seq<Val>, rt: Runtime): (r: seq<string>)
    ensures |r| == |items|
  {
    if |items| == 0 then []
    else [if items[0] == Undef then "" else Display(items[0], rt)] + DisplayItems(items[1..], rt)
  }

  /** Truthiness of an optional string (`""` and absence are falsy). */
  predicate Truthy(s: Option<string>) {
    s.Some? && s.value != ""
  }
}
