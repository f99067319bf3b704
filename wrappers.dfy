/** An optional value: `None` stands for a cell pandas leaves empty (NaN) or
    for a pipeline run that raised. */
module Wrappers {
  datatype Option<+T> = None | Some(value: T)
}
