/** The stock Some/None datatype, standing for a JavaScript value that may be undefined or null. */
module Options {

  datatype Option<+T> = None | Some(value: T)
}
