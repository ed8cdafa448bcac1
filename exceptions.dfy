/**
 * The errors the binding can raise. Its own hierarchy is
 *   VacuumError(Exception)
 *   VacuumInputError(VacuumError, ValueError)
 *   VacuumFatalError(VacuumError)
 * and the rest are what the libraries it calls raise on the paths it takes.
 */
module Exceptions {
  import opened Utf8

  /** What went wrong with one field during validation of a record. */
  datatype Issue = Missing | NotAnObject | NotAString | NotAnInt

  /** One entry of a pydantic ValidationError: the path of keys to the field, and the issue. */
  datatype FieldError = FieldError(loc: seq<Text>, issue: Issue)

  datatype Error =
    | VacuumError(message: Text)
    | VacuumInputError(message: Text)
    | VacuumFatalError(message: Text)
      /** pydantic's ValidationError, a subclass of ValueError in both major versions. */
    | ValidationError(errors: seq<FieldError>)
      /** orjson.JSONDecodeError, a subclass of ValueError. */
    | JsonDecodeError
      /** UnicodeEncodeError / UnicodeDecodeError (subclasses of ValueError), with the start offset. */
    | UnicodeEncodeError(start: nat)
    | UnicodeDecodeError(start: nat)
      /** TypeError: subscripting or iterating a value of the wrong kind. */
    | TypeError

  /** `isinstance(e, VacuumError)`. */
  predicate IsVacuumError(e: Error) {
    e.VacuumError? || e.VacuumInputError? || e.VacuumFatalError?
  }

  /** `isinstance(e, ValueError)`. */
  predicate IsValueError(e: Error) {
    e.VacuumInputError? || e.ValidationError? || e.JsonDecodeError? ||
    e.UnicodeEncodeError? || e.UnicodeDecodeError?
  }

  /** `isinstance(e, VacuumFatalError)`. */
  predicate IsVacuumFatalError(e: Error) {
    e.VacuumFatalError?
  }

  /**
   * Of the binding's own errors exactly the input error is also a ValueError,
   * and the fatal error is a VacuumError that is not one.
   */
  lemma Hierarchy(e: Error)
    ensures IsVacuumError(e) && IsValueError(e) <==> e.VacuumInputError?
    ensures IsVacuumFatalError(e) ==> IsVacuumError(e) && !IsValueError(e)
  {
  }
}
