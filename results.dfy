/** Outcomes of the pipeline's operations: a value, or the exception a Python
    call raises, with its message. */
module Results {

  datatype Option<T> = None | Some(value: T)

  datatype Outcome<T> = Ok(value: T) | Err(error: seq<char>)
}
