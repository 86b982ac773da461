/** The optional value used wherever the script either has a value or does not:
    a missing dictionary entry, an exception that escapes, a string that does not parse. */
module Wrappers {

  datatype Option<+T> = None | Some(value: T)
}
