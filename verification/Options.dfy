/** Results that may be absent. */
module Options {
  datatype Option<X> = None | Some(value: X)
}
