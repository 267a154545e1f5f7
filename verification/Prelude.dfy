/** Results, options and the error kinds of src/error.rs; message texts are not modelled. */
module Prelude {

  datatype Option<+T> = None | Some(value: T)

  /** `Panic` stands for an aborted thread; the other constructors are the source's error kinds. */
  datatype Error = AlreadyExists | InvalidInput | Io | NotFound | PreconditionFailed | Storage | Execution | Panic

  datatype Result<+T> = Ok(value: T) | Err(error: Error) {

    predicate IsFailure() {
      Err?
    }

    function PropagateFailure<U>(): Result<U>
      requires Err?
    {
      Err(error)
    }

    function Extract(): T
      requires Ok?
    {
      value
    }
  }
}
