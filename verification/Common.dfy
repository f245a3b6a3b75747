/** Failure-carrying values shared by the modules of the model. */
module Common {
  type byte = b: int | 0 <= b < 256

  datatype Option<+T> = None | Some(value: T)

  /** The return codes of the repository's operations, reduced to the cases that the modelled code can return. */
  datatype Rc = Success | InvalidArgument | IoErrWrite
}
