/** The optional value of a cell or of a metric: `None` stands for Python's `None`
    (and for pandas' missing value where the model says so). */
module Options {
  datatype Option<+T> = None | Some(value: T)
}
