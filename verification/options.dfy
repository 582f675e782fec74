/** The optional-value datatype used wherever the source has `None`. */
module Options {

  /** `None` stands for Python's `None`; `Some(v)` for a present value. */
  datatype Option<+T> = None | Some(value: T)
}
