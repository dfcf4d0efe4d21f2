/** Failure-compatible result types shared by every service of the model.

    `Error` is the HTTP error taxonomy the services throw (Nest's
    BadRequestException, UnauthorizedException, ForbiddenException,
    NotFoundException, ConflictException), plus `Unhandled` for a store
    error the code does not catch, which reaches the client as a server error.
 */
module Wrappers {

  datatype Option<+T> = None | Some(value: T)

  /** Store-level failures that no service translates. */
  datatype StoreFault =
    | UniqueViolation      // a unique index rejected the write (Prisma code P2002)
    | ForeignKeyViolation  // a referenced row does not exist (Prisma code P2003)
    | MissingRelation      // a required relation loaded with `include` is absent

  datatype Error =
    | BadRequest(message: string)
    | Unauthorized(message: string)
    | Forbidden(message: string)
    | NotFound(message: string)
    | Conflict(message: string)
    | Unhandled(fault: StoreFault)

  datatype Result<+T> = Ok(value: T) | Err(error: Error) {

    predicate IsFailure() {
      Err?
    }

    function PropagateFailure<U>(): Result<U>
      requires Err?
    {
      Err(error)
    }

    function Extract(): T
      requires Ok?
    {
      value
    }
  }
}
