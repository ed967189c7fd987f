/** Failure-carrying values shared by every module of the model. */
module Results {

  /** A value that may be absent (an optional field, or a parse that found nothing). */
  datatype Option<+T> = None | Some(value: T)

  /** The outcome of an operation that either returns a value or throws an Error
      whose message is `message`. */
  datatype Result<+T> = Ok(value: T) | Err(message: string)

  function MapOption<T, U>(o: Option<T>, f: T -> U): (r: Option<U>)
    ensures r.Some? <==> o.Some?
    ensures r.Some? ==> r.value == f(o.value)
  {
    match o
    case None => None
    case Some(v) => Some(f(v))
  }
}
