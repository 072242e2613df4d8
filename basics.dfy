/** Value types shared by the whole model: nullable values, results that carry
    the exception a .NET call would throw, the 32-bit integer range, and the
    null-or-empty test the services use as a guard. */
module Basics {

  /** A possibly-null value: `None` stands for a C# `null`. */
  datatype Option<+T> = None | Some(value: T) {
    /** The value, or `default` when it is null. */
    function GetOr(default: T): T {
      match this
      case Some(v) => v
      case None => default
    }
  }

  /** The outcome of a call that either returns a value or throws. */
  datatype Result<+T> = Ok(value: T) | Err(error: Error)

  /** The exceptions the core can raise or let through. */
  datatype Error =
    | ArgumentNull(paramName: string)  // ArgumentNullException, named by its parameter
    | EmptyKey                         // ArgumentException: a SymmetricSecurityKey made from zero bytes
    | TokenCreationFailed              // the JWT handler threw while creating or writing a token
    | ValidationFault                  // the JWT handler threw something other than a SecurityTokenException
    | VerifyFault                      // BCrypt.Verify threw (for instance on a malformed stored hash)

  /** The values of a C# `int`. */
  type Int32 = x: int | -0x8000_0000 <= x < 0x8000_0000

  /** `string.IsNullOrEmpty`. */
  predicate IsNullOrEmpty(s: Option<string>) {
    s.None? || s.value == ""
  }
}
