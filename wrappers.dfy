/** The optional value that stands for Swift's `T?` (a missing dictionary key, a failed `as?` cast,
    `first` of an empty array, or a handler that reports nothing). */
module Wrappers {

  datatype Option<+T> = None | Some(value: T)
}
