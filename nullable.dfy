/** Kotlin's nullable types (`T?`): a value that may be absent. */
module Nullable {

  datatype Option<+T> = None | Some(value: T)
}
