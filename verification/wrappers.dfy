/** Option and Result, and the three-way shape of a field read from a parsed JSON body. */
module Wrappers {

  datatype Option<+T> = None | Some(value: T)

  datatype Result<+T, +E> = Ok(value: T) | Err(error: E)

  /** A JavaScript value that may be `undefined`, `null` or present. */
  datatype Js<+T> = Undefined | Null | Val(value: T) {

    /** `v === undefined || v === null`: what the `??` operator tests. */
    predicate IsNullish() {
      !Val?
    }

    /** `v ?? fallback`: only `undefined` and `null` fall back; `0`, `false` and `""` are kept. */
    function Coalesce(fallback: T): (r: T)
      ensures Val? ==> r == value
      ensures IsNullish() ==> r == fallback
    {
      match this
      case Val(v) => v
      case _ => fallback
    }
  }

  /** JavaScript truthiness of a string field: `undefined`, `null` and `""` are falsy. */
  predicate TruthyString(v: Js<string>) {
    v.Val? && v.value != ""
  }

  /** JavaScript truthiness of an object or array field: only `undefined` and `null` are falsy,
      so an empty array is truthy. */
  predicate TruthyObject<T>(v: Js<T>) {
    v.Val?
  }
}
