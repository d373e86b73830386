/** JavaScript values as the reactive core sees them. */
module Values {

  datatype Option<T> = None | Some(value: T)

  /**
   * The exceptions the modelled core can raise, all `TypeError`s: a member access on null or
   * undefined, `Object.keys` of null or undefined, and a call of a data value that shadows the
   * `init` or `proxyData` method.
   */
  datatype Error = TypeError

  datatype Result<T> = Ok(value: T) | Err(error: Error)

  /** Identity of a heap object: `!==` on two `Ref`s compares these. */
  type ObjId = nat

  /** A JavaScript value. Strict (in)equality `===`/`!==` is datatype (in)equality. */
  datatype Value =
    | Undefined
    | Null
    | Bool(b: bool)
    | Num(n: int)
    | Str(s: string)
    | Ref(obj: ObjId)

  /** Member access on these throws a TypeError. */
  predicate Nullish(v: Value) {
    v.Undefined? || v.Null?
  }
}
