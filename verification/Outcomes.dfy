/** Results of API calls, shared by every controller of the provider. */
module Outcomes {

  datatype Option<+T> = None | Some(value: T)

  /** Errors as the controllers classify them; the texts they are matched on are not modelled. */
  datatype Error = NotFound | AlreadyExists | Transient | Invalid

  datatype Result<+T> = Ok(value: T) | Err(error: Error)

  /** What happens to one call to the MinIO server: it is served and answered, it never
      reaches the server, or it takes effect there and only its answer is lost. */
  datatype Call = Served | Dropped | ReplyLost {
    predicate Applied() { !Dropped? }
  }

  /** What Observe reports to the managed reconciler. */
  datatype Observation = Observation(present: bool, upToDate: bool)
}
