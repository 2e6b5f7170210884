/** Options, and the errors a filesystem call can return. */
module Results {

  datatype Option<+T> = None | Some(value: T)

  datatype FsError = NoSpace | InvalidInput | NotFound | Unsupported

  datatype Result<+T> = Ok(value: T) | Err(error: FsError)
}
