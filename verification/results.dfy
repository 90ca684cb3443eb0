/** Success and failure values shared by every component. */
module Results {

  /** The errors the modelled operations can report (fvfs-core's FvfsError). */
  datatype FvfsError =
    | InvalidPath
    | NotFound
    | IsADirectory
    | Backend        // a backend call failed for a reason of its own
    | NotSafeToEvict // no copy on a colder tier
    | ForeignKey     // SQLite refused a row whose reference does not exist

  datatype Result<+T> = Ok(value: T) | Err(error: FvfsError)

  datatype Option<+T> = None | Some(value: T)
}
