/** A property that may be absent, as JavaScript's `undefined` is. */
module Options {

  datatype Option<T> = None | Some(value: T)

  /** The present value, or `fallback` when the property is absent (a default parameter). */
  function ValueOr<T>(o: Option<T>, fallback: T): (v: T)
    ensures o.Some? ==> v == o.value
    ensures o.None? ==> v == fallback
  {
    if o.Some? then o.value else fallback
  }
}
