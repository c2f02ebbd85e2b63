/** An optional value: the JavaScript `undefined` / `null` of a lookup that finds nothing. */
module Optional {
  datatype Option<T> = None | Some(value: T)
}
