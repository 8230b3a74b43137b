/** The optional-value wrapper used for adapter outcomes and the watcher's best rows. */
module Wrappers {

  datatype Option<+T> = None | Some(value: T)
}
