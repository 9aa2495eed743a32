/** The optional value used wherever the scraped page may or may not supply something. */
module Wrappers {

  datatype Option<+T> = None | Some(value: T)
}
