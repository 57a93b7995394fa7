/** Optional values and outcomes used throughout the model: an optional value
    (a JavaScript `undefined`/`null` or a present value) and the outcome of an
    operation that either returns or throws. */
module Wrappers {

  /** A value that may be absent (`undefined` or `null` in JavaScript). */
  datatype Option<+T> = None | Some(value: T)

  /** The outcome of an operation that either returns a value or throws. */
  datatype Result<+T, +E> = Ok(value: T) | Err(error: E)
}

/** The exceptions the auth core throws, by the NestJS exception class (or the
    plain JavaScript error) that carries them. */
module Http {

  datatype Failure =
    | Unauthorized(message: string)      // UnauthorizedException, 401
    | Conflict(message: string)          // ConflictException, 409
    | NotFound(message: string)          // NotFoundException, 404
    | InternalServerError                // InternalServerErrorException or an uncaught TypeError, 500
    | BadRequest                         // rejected by the global ValidationPipe, 400
    | FileRejected(message: string)      // the plain Error raised by the upload file filter
    | PayloadTooLarge                    // the upload exceeded the size limit
}
