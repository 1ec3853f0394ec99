/**
  The part of the zod validation library the editor messages and the play page use: schemas are
  values built from a few combinators, and `Accepts` says which JavaScript values a schema lets
  through. Objects let unknown keys through (zod's default), a key that is absent reads as
  `undefined`, and a union tries its options in order.
*/
module Zod {
  import opened Wrappers

  /** A JavaScript value, as far as the validators look at it. */
  datatype Value =
    | Undefined
    | Null
    | Bool(b: bool)
    | Number(n: real)
    | Str(s: string)
    | Array(items: seq<Value>)
    | Object(fields: map<string, Value>)

  /** Reading property `key`: `undefined` when the key is absent. */
  function Get(fields: map<string, Value>, key: string): (v: Value)
    ensures key !in fields ==> v == Undefined
    ensures key in fields ==> v == fields[key]
  {
    if key in fields then fields[key] else Undefined
  }

  /** The checks `.refine` adds to a string schema in this code base. */
  datatype Refinement =
    | LengthIs(length: nat)
    | StartsWith(prefix: string)

  datatype Schema =
    | ZString
    | ZNumber
    | ZBoolean
    | ZLiteral(literal: string)
    | ZEnum(options: seq<string>)
      /** `z.array(z.number())`, with `.length(n)` when `length` is given. */
    | ZNumberArray(length: Option<nat>)
    | ZObject(shape: seq<Field>)
    | ZOptional(inner: Schema)
    | ZNullable(inner: Schema)
    | ZUnion(first: Schema, second: Schema)
    | ZRefine(base: Schema, check: Refinement)

  datatype Field = Field(key: string, schema: Schema)

  /** `.partial()`: every field of the shape becomes optional. */
  function Partial(shape: seq<Field>): (r: seq<Field>)
    ensures |r| == |shape|
    ensures forall i :: 0 <= i < |shape| ==> r[i] == Field(shape[i].key, ZOptional(shape[i].schema))
  {
    if shape == [] then []
    else [Field(shape[0].key, ZOptional(shape[0].schema))] + Partial(shape[1..])
  }

  predicate Holds(check: Refinement, s: string)
  {
    match check
    case LengthIs(n) => |s| == n
    case StartsWith(p) => p <= s
  }

  predicate AllNumbers(items: seq<Value>)
  {
    forall i :: 0 <= i < |items| ==> items[i].Number?
  }

  /** Whether parsing `v` with `schema` succeeds. */
  predicate Accepts(schema: Schema, v: Value)
    decreases schema
  {
    match schema
    case ZString => v.Str?
    case ZNumber => v.Number?
    case ZBoolean => v.Bool?
    case ZLiteral(l) => v == Str(l)
    case ZEnum(options) => v.Str? && v.s in options
    case ZNumberArray(length) =>
      v.Array? && AllNumbers(v.items) && (length.Some? ==> |v.items| == length.value)
    case ZObject(shape) =>
      v.Object? && forall i :: 0 <= i < |shape| ==> Accepts(shape[i].schema, Get(v.fields, shape[i].key))
    case ZOptional(inner) => v == Undefined || Accepts(inner, v)
    case ZNullable(inner) => v == Null || Accepts(inner, v)
    case ZUnion(first, second) => Accepts(first, v) || Accepts(second, v)
    case ZRefine(base, check) => Accepts(base, v) && v.Str? && Holds(check, v.s)
  }
}
