/** Stand-in for the optional values (`llvm::Optional`, null pointers) of the modelled sources. */
module Options {
  datatype Option<+T> = None | Some(value: T)
}
