/** An optional value, used for decoded records that may be missing or malformed. */
module Options {

  datatype Option<+T> = None | Some(value: T)
}
