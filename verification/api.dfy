/**
 * Shared vocabulary of the server: document ids, optional values, the
 * outcome of a controller and the HTTP error taxonomy its handlers answer
 * with.
 */
module Api {

  /** A MongoDB ObjectId. Ids are handed out by the store; a malformed id
      (a Mongoose CastError) behaves like an id that is not in the store. */
  type Id = nat

  /** A JSON field that may be absent (`undefined` or `null`). */
  datatype Option<+T> = None | Some(value: T)

  datatype Result<+T, +E> = Ok(value: T) | Err(error: E)

  /** The error responses of the controllers, by HTTP status. */
  datatype Error =
    | BadRequest(message: string)   // 400
    | Forbidden(message: string)    // 403
    | NotFound(message: string)     // 404
    | ServerError(message: string)  // 500, whatever the catch block received
  {
    function Status(): nat {
      match this
      case BadRequest(_) => 400
      case Forbidden(_) => 403
      case NotFound(_) => 404
      case ServerError(_) => 500
    }
  }

  /** The 404 message both controllers answer with when a bug id is not
      in the store. */
  const BugNotFound := "Bug not found"

  /** One failed schema validator: the path it guards and its message. */
  datatype Violation = Violation(path: string, message: string)

  /** What `Model.create` does with a candidate document: either the
      document that is saved, or the validators that failed. */
  datatype Validated<+T> = Valid(doc: T) | Invalid(violations: seq<Violation>)

  /** The parts of a Mongoose ValidationError message after the prefix:
      each failed path as `path: message`, separated by ", ". */
  function JoinViolations(vs: seq<Violation>): string
  {
    if vs == [] then ""
    else if |vs| == 1 then vs[0].path + ": " + vs[0].message
    else vs[0].path + ": " + vs[0].message + ", " + JoinViolations(vs[1..])
  }

  /** The message of the ValidationError that `Model.create` throws; the
      controllers' catch blocks answer 500 with it. */
  function ValidationFailure(model: string, vs: seq<Violation>): Error
  {
    ServerError(model + " validation failed: " + JoinViolations(vs))
  }
}
