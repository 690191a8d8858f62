/** Optional values and the errors that abort a run. */
module Options {

  datatype Option<T> = None | Some(value: T)

  /** The conditions under which a run stops: a requested page that the
      template does not have, or a file that is read before it was written. */
  datatype Error =
    | PageIndexError(page: int)
    | FileMissing(path: string)

  datatype Result<T> = Ok(value: T) | Err(error: Error)
}
