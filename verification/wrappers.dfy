/** Failure-carrying datatypes shared by the whole model.
    `Option` stands for Python's `X | None`; `Result` stands for a call that
    either returns a value or raises one of the exceptions listed in `Error`. */
module Wrappers {

  datatype Option<+T> = None | Some(value: T)

  /** The Python / NumPy exceptions the modelled code can raise. */
  datatype Error =
    | AssertionError     // a failed `assert`
    | IndexError         // indexing past the end of a list
    | ValueError         // a reshape to a shape the data does not fit
    | ZeroDivisionError  // integer or float division by zero
    | LinAlgError        // inverting a singular matrix

  datatype Result<+T> = Ok(value: T) | Err(error: Error)
}
