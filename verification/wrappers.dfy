/** Nullable references and failing constructors of the modelled code. */
module Wrappers {

  /** A C# reference that may be null: `None` is null. */
  datatype Option<+T> = None | Some(value: T)

  /** The outcome of a constructor that may throw. */
  datatype Result<+T, +E> = Success(value: T) | Failure(error: E)

  /** Applies `f` to a non-null value and keeps null as null. */
  function MapOption<T, U>(o: Option<T>, f: T -> U): (r: Option<U>)
    ensures r.None? <==> o.None?
    ensures o.Some? ==> r.value == f(o.value)
  {
    match o
    case None => None
    case Some(v) => Some(f(v))
  }
}
