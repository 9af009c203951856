/** Optional values and the outcomes of the request handlers. */
module Results {

  datatype Option<+T> = None | Some(value: T)

  /** Why a request did not change the store.
      - NotFound: `get_or_404` found no row with the requested id (HTTP 404).
      - BadRequest: a form key the handler reads with `request.form[...]` is missing (HTTP 400).
      - CommitFailed: the database refused the commit; the handler reports it and the
        session's pending changes are discarded. */
  datatype Error = NotFound | BadRequest | CommitFailed

  datatype Result<+T> = Ok(value: T) | Err(error: Error)

  datatype Outcome = Done | Failed(error: Error)
}
