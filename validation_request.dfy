/** The request-validation helper that route handlers receive. */
module Http {
  import opened Wrappers
  import opened Php
  import opened Collaborators
  import opened Exceptions

  /** What `validate` does: return the validation, or throw the carrying exception. */
  datatype Validated =
    | Return(validation: Validation)
    | Throw(exception: ValidationException)

  /**
   * The helper holds its four collaborators. `With...` copies the helper
   * with one collaborator replaced; the destructors are the accessors.
   */
  datatype ValidationRequest = ValidationRequest(
    validator: Validator,
    requester: Requester,
    responser: Responser,
    router: Router)
  {
    /**
     * Validates the request input against `rules`. Without
     * `throwExceptionOnFailure`, or when the data is valid, the validation is
     * returned. Otherwise a `ValidationException` is thrown carrying the
     * validation and `errorMessage`; its redirect URI is the URL of
     * `redirectRouteName` when that name is not PHP-empty and the router
     * knows it, and the caller's `redirectUri` otherwise.
     */
    function Validate(
      rules: Rules,
      redirectUri: Option<string> := None,
      redirectRouteName: Option<string> := None,
      errorMessage: string := "",
      throwExceptionOnFailure: bool := true): (r: Validated)
      ensures r.Return? ==> r.validation == validator(requester.input, rules)
      ensures !throwExceptionOnFailure ==> r.Return?
      ensures throwExceptionOnFailure ==> (r.Return? <==> validator(requester.input, rules).isValid)
      ensures r.Throw? ==>
        && r.exception.validation == validator(requester.input, rules)
        && !r.exception.validation.isValid
        && r.exception.message == errorMessage
        && r.exception.code == 0
      ensures r.Throw? && !IsEmpty(redirectRouteName) && router(redirectRouteName.value).Some? ==>
        r.exception.redirectUri == router(redirectRouteName.value)
      ensures r.Throw? && (IsEmpty(redirectRouteName) || router(redirectRouteName.value).None?) ==>
        r.exception.redirectUri == redirectUri
    {
      var validation := validator(requester.input, rules);
      if !throwExceptionOnFailure then Return(validation)
      else if validation.isValid then Return(validation)
      else
        var uri :=
          if !IsEmpty(redirectRouteName) && router(redirectRouteName.value).Some?
          then router(redirectRouteName.value)  // a UrlException leaves the caller's URI
          else redirectUri;
        Throw(ValidationException(validation, redirectUri := uri, message := errorMessage))
    }

    function WithValidator(v: Validator): (r: ValidationRequest)
      ensures r.validator == v
      ensures r.requester == requester && r.responser == responser && r.router == router
    {
      this.(validator := v)
    }

    function WithRequester(q: Requester): (r: ValidationRequest)
      ensures r.requester == q
      ensures r.validator == validator && r.responser == responser && r.router == router
    {
      this.(requester := q)
    }

    function WithResponser(s: Responser): (r: ValidationRequest)
      ensures r.responser == s
      ensures r.validator == validator && r.requester == requester && r.router == router
    {
      this.(responser := s)
    }

    function WithRouter(t: Router): (r: ValidationRequest)
      ensures r.router == t
      ensures r.validator == validator && r.requester == requester && r.responser == responser
    {
      this.(router := t)
    }
  }

  /** The accessors return exactly the collaborators the helper was built with. */
  lemma AccessorsReturnStored(v: Validator, q: Requester, s: Responser, t: Router)
    ensures ValidationRequest(v, q, s, t).validator == v
    ensures ValidationRequest(v, q, s, t).requester == q
    ensures ValidationRequest(v, q, s, t).responser == s
    ensures ValidationRequest(v, q, s, t).router == t
  {
  }

  /**
   * Replacing a collaborator with the one already held gives back the same
   * helper, and replacing one and then restoring it leaves the original.
   */
  lemma WithRoundTrip(req: ValidationRequest, v: Validator, q: Requester, s: Responser, t: Router)
    ensures req.WithValidator(req.validator) == req
    ensures req.WithValidator(v).WithValidator(req.validator) == req
    ensures req.WithRequester(q).WithRequester(req.requester) == req
    ensures req.WithResponser(s).WithResponser(req.responser) == req
    ensures req.WithRouter(t).WithRouter(req.router) == req
  {
  }
}
