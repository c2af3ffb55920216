/** The "maybe an object" values of the engine: a pick that may miss, a parent that
    may not exist, a selection that may be empty. */
module Optional {
  datatype Option<T> = None | Some(value: T)
}
