/** The optional-value type used for the nullable fields of the slice
    (`completedAt?: string`, `currentListIndex: number | null`). */
module Wrappers {

  datatype Option<+T> = None | Some(value: T)
}
