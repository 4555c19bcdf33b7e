/** Optional values: a C# reference that may be null, a dictionary lookup that may miss. */
module Options {

  datatype Option<+T> = None | Some(value: T)

  /** Outcome of an operation that either succeeds or raises an argument error. */
  datatype Outcome = Ok | ArgumentNull(paramName: string)
}
