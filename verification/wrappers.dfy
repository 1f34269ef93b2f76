/** The optional value used for a record's end time and for decoders that can fail. */
module Wrappers {

  /** `None` stands for JavaScript's `null`; `Some(v)` for a present value. */
  datatype Option<+T> = None | Some(value: T)
}
