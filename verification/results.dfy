/** The outcomes of the title codec: a value, or the Python exception the
    source raises. TypeError is not among them: the model's static types
    rule out the arguments that raise it. */
module Results {

  datatype Error = ValueError | NotImplementedError

  datatype Result<+T> = Ok(value: T) | Err(error: Error)

  datatype Option<+T> = None | Some(value: T)
}
