/** Option type used for the parse paths of the ledger core. */
module Wrappers {

  datatype Option<+T> = None | Some(value: T)
}
