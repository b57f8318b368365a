/** An optional value: a query that may have no answer, or a cached value
    that may not have been computed yet. */
module Options {
  datatype Option<T> = None | Some(value: T)
}
