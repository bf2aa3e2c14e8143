/** The optional value the Kotlin code expresses with nullable types
    (`pollFirst()` on an empty deque, `toIntOrNull`, a failed regex `find`). */
module Wrappers {

  datatype Option<+T> = None | Some(value: T)
}
