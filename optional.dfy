/** An optional value, used for lookups that can miss and for parsing that can fail. */
module Optional {

  datatype Option<+T> = None | Some(value: T)
}
