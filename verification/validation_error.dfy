/**
 * The result every validator returns: Go's pair `(bool, ValidationError)`.
 */
module ValidationErrors {

  /** The error record: the fields it is about, their field group and a message for the operator. */
  datatype ValidationError = ValidationError(tags: seq<string>, fieldGroup: string, message: string)

  /** Go's zero value `ValidationError{}`: no tags, empty field group, empty message. */
  const NO_ERROR := ValidationError([], "", "")

  /** The pair a validator returns: whether the value passed, and the error when it did not. */
  datatype Verdict = Verdict(ok: bool, err: ValidationError)

  /** `return true, ValidationError{}`. */
  const PASS := Verdict(true, NO_ERROR)

  /** `return false, ValidationError{Tags: tags, FieldGroup: fgName, Message: message}`. */
  function Fail(tags: seq<string>, fgName: string, message: string): Verdict {
    Verdict(false, ValidationError(tags, fgName, message))
  }

  /**
   * The shape every validator keeps: a pass carries the zero error, and a
   * failure is reported against the field group it was asked to check.
   */
  predicate Conforms(v: Verdict, fgName: string) {
    (v.ok ==> v.err == NO_ERROR) && (!v.ok ==> v.err.fieldGroup == fgName)
  }
}
