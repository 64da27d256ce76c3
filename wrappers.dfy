/** The nullable values of the application (a PHP `?int`) as an option type. */
module Wrappers {

  datatype Option<+T> = None | Some(value: T)
}
