/** The result types shared by the models of the readers and of the metadata objects. */
module Results {

  datatype Option<+T> = None | Some(value: T)

  /** The status kinds in use; Thrown stands for a C++ exception that leaves the call. */
  datatype Status = OK | Invalid | IndexError | KeyError | IOError | Thrown

  datatype Result<+T> = Success(value: T) | Failure(error: Status)
}
