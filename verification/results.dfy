/** Optional values, the error taxonomy of the REST endpoints, and the result
    every endpoint answers with. */
module Results {

  /** A nullable value (`int?`, `string?`, `DateTime?`). */
  datatype Option<+T> = None | Some(value: T)

  /** Why an endpoint refused a request.
      - NotFound: the addressed issue or task does not exist (HTTP 404).
      - Forbidden: the role may call the endpoint, but not on this row (HTTP 403 from `Forbid()`).
      - BadRequest: a validator rule failed or a referenced row does not exist (HTTP 400);
        `messages` are the human-readable reasons.
      - RoleMismatch: the endpoint's `[Authorize(Roles = ...)]` does not admit the caller's role. */
  datatype Error =
    | NotFound
    | Forbidden
    | BadRequest(messages: seq<string>)
    | RoleMismatch

  datatype Result<+T> = Ok(value: T) | Err(error: Error)
}
