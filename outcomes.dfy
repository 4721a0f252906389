/// The tagged results every handler returns instead of writing an HTTP status.
module Outcomes {

  datatype Option<+T> = None | Some(value: T)

  /** The failure kinds the handlers signal, one per HTTP error status they write. */
  datatype Error =
    | BadRequest     // 400: malformed or out-of-range input, or a late cancellation
    | NotFound       // 404: missing user, membership, vehicle, rental or invoice
    | Conflict       // 409: an existing active rental, or an unavailable vehicle
    | Forbidden      // 403: VIP-only vehicle, user without VIP access
    | InternalError  // 500: a lookup inside a transaction failed and it was rolled back

  datatype Response<+T> = Ok(value: T) | Fail(error: Error)
}
