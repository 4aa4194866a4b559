/**
 The optional and failing results the model uses in place of Python's `None`
 and raised exceptions.
 */
module Outcomes {

  datatype Option<+T> = None | Some(value: T)

  /** The one failure the dashboard can meet: a column it indexes by name is
      not in the data (pandas raises `KeyError`). */
  datatype Error = MissingColumn(name: string)

  datatype Result<+T> = Ok(value: T) | Err(error: Error)
}
