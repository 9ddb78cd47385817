/** The absent-or-present value used where the program uses Rust's and Python's optionals. */
module Options {

  datatype Option<+T> = None | Some(value: T)
}
