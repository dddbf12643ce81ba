/** Optional values: a missing cell of the event table (no winner, no dismissed
    player) and a text that does not parse as a number. */
module Wrappers {

  datatype Option<+T> = None | Some(value: T)
}
