/** The exception that carries a failed validation to the error handler. */
module Exceptions {
  import opened Wrappers
  import opened Collaborators

  /**
   * An immutable record. The constructor's defaults are the PHP ones: no
   * redirect URI, an empty message and code 0. The destructors are the
   * accessors `validation()`, `redirectUri()`, `getMessage()` and
   * `getCode()`; being a value, no operation can change a field after
   * construction.
   */
  datatype ValidationException = ValidationException(
    validation: Validation,
    redirectUri: Option<string> := None,
    message: string := "",
    code: int := 0)

  /** Each accessor returns exactly what the constructor was given. */
  lemma AccessorsReturnConstructorArguments(v: Validation, uri: Option<string>, message: string, code: int)
    ensures ValidationException(v, uri, message, code).validation == v
    ensures ValidationException(v, uri, message, code).redirectUri == uri
    ensures ValidationException(v, uri, message, code).message == message
    ensures ValidationException(v, uri, message, code).code == code
  {
  }

  /** Omitted arguments: a null redirect URI, message `''` and code 0. */
  lemma ConstructorDefaults(v: Validation)
    ensures ValidationException(v).redirectUri == None
    ensures ValidationException(v).message == ""
    ensures ValidationException(v).code == 0
    ensures ValidationException(v, Some("uri")).redirectUri == Some("uri")
  {
  }
}
