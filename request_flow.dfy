/**
 * What a failed request validation turns into once the error handler has
 * rendered it: the two halves (`validate` throwing, the handler choosing
 * a response) composed.
 */
module RequestFlow {
  import opened Wrappers
  import opened Php
  import opened Collaborators
  import opened Exceptions
  import opened Http
  import opened ErrorHandler

  /**
   * Where a redirect after a failed `validate` goes: the URL of the route
   * when a non-empty route name resolves (even when the caller also gave a
   * URI), and the previous URI if that URL is itself PHP-empty; otherwise
   * the caller's URI when it is not PHP-empty; otherwise the previous URI.
   */
  lemma RedirectDestination(req: ValidationRequest, rules: Rules, redirectUri: Option<string>,
                              routeName: Option<string>, message: string, previousUri: string)
    requires req.Validate(rules, redirectUri, routeName, message).Throw?
    ensures var e := req.Validate(rules, redirectUri, routeName, message).exception;
      RedirectTarget(e, previousUri) ==
        if !IsEmpty(routeName) && req.router(routeName.value).Some? then
          (if IsEmpty(req.router(routeName.value)) then previousUri else req.router(routeName.value).value)
        else if !IsEmpty(redirectUri) then redirectUri.value
        else previousUri
  {
  }

  /**
   * The JSON message after a failed `validate`: the caller's `errorMessage`
   * when it is not PHP-empty, otherwise the first validation error's
   * message (or `""`).
   */
  lemma JsonMessageAfterValidate(req: ValidationRequest, rules: Rules, redirectUri: Option<string>,
                                 routeName: Option<string>, message: string)
    requires req.Validate(rules, redirectUri, routeName, message).Throw?
    ensures var v := req.validator(req.requester.input, rules);
      JsonMessage(req.Validate(rules, redirectUri, routeName, message).exception) ==
        if IsEmptyString(message) then FirstMessage(v.errors) else message
  {
  }

  /**
   * The JSON `errors` object after a failed `validate` groups exactly the
   * validation's errors.
   */
  lemma JsonErrorsAfterValidate(req: ValidationRequest, rules: Rules, redirectUri: Option<string>,
                                routeName: Option<string>, message: string)
    requires req.Validate(rules, redirectUri, routeName, message).Throw?
    ensures var e := req.Validate(rules, redirectUri, routeName, message).exception;
      GroupedCorrectly(req.validator(req.requester.input, rules).errors, GroupByKey(e.validation.errors))
  {
    var e := req.Validate(rules, redirectUri, routeName, message).exception;
    GroupByKeyCorrect(e.validation.errors);
  }

  /**
   * A single failed `required` rule on `title`, with no error message
   * given: the JSON body repeats the rule's message as `message` and lists
   * it under `title`.
   */
  lemma SingleErrorJsonBody(m: string)
    ensures var e := ValidationException(Validation(false, [Error("title", m)], map[]));
      JsonBody(JsonMessage(e), GroupByKey(e.validation.errors)) == JsonBody(m, [Group("title", [m])])
  {
  }
}
