# app-validation: request validation and validation-error rendering, modelled in Dafny

This project models the adapter that plugs a validation library into an
application's HTTP request lifecycle:

- `ValidationException` carries a failed validation. It also holds an
  optional redirect URI, a message and a code
  (`validation_exception.dfy`, module `Exceptions`).
- `ValidationRequest.validate` runs the validator on the request input. It
  then either returns the validation or throws the exception. The redirect
  URI of the exception may come from a named route
  (`validation_request.dfy`, module `Http`).
- `HttpValidationErrorHandler` turns that exception into a response
  (`http_validation_error_handler.dfy`, module `ErrorHandler`):
  - a JSON body with status 422 when the client wants JSON or sends an
    AJAX request;
  - otherwise a redirect, with flashed messages and the submitted data as
    old input.
- The `Validator` boot step (`validator_boot.dfy`, module `ValidatorBoot`)
  installs the translation migration only when a `trans` directory is
  registered. It also builds the ordered message-modifier pipeline, which
  depends on whether a translator is registered.

The services the adapter calls are values in module `Collaborators`
(`collaborators.dfy`). These are the validation engine, the requester, the
router and the responser. A validation is reduced to its validity flag, its
ordered `(key, message)` errors and its data. The validator is a function
from input and rules to a validation. The router is a partial function
from route names to URLs, where `None` stands for the router's
`UrlException`. The responser is a class, because the adapter changes its
flash-message bag in place.

`Sequences.FirstIndex` (`sequences.dfy`) gives the first position of an
element in a sequence. The model uses it for the first appearance of an
error key and for positions in the modifier pipeline.

PHP's `empty()` on a `null|string` is `Php.IsEmpty`: `null`, `""` and
`"0"` are empty. So an exception message `"0"` counts as no message, and so
does a redirect URI or a route name of `"0"`. PHP's default arguments
become Dafny default parameters, both on the exception's constructor and on
`Validate`. A PHP `throw` from `validate` becomes the `Throw` case of the
`Validated` result.

`RequestFlow` (`request_flow.dfy`) composes `validate` with the handler.
It states where the redirect goes after a failed validation, and what the
JSON body holds. One consequence of the code as written: if the named
route resolves to `""` or `"0"`, that value replaces the caller's redirect
URI. The handler then treats it as empty, so the redirect goes to the
previous URI and not to the caller's URI.

The JSON `errors` object is built by a loop that appends each message to
its key. This loop is `ErrorHandler.JsonResponse`, proved against the fold
`GroupByKey`. `GroupedCorrectly` describes the object independently of
how it is built:
- the keys are the distinct error keys, each once, in order of first
  appearance;
- each key lists its messages in their original order;
- the message count equals the error count.

`GroupByKeyIsTheGrouping` proves that a list of groups meets this
description exactly when it equals what the loop builds.

## Model

| member | source | states |
|---|---|---|
| Exceptions.AccessorsReturnConstructorArguments | src/Exception/ValidationException.php:33-61 | `validation()`, `redirectUri()`, `getMessage()` and `getCode()` return exactly the constructor's arguments; the record is immutable, so no later call changes them |
| Exceptions.ConstructorDefaults | src/Exception/ValidationException.php:33-41 | an omitted redirect URI is null, the message defaults to `''` and the code to 0; a given URI (`'uri'`) is kept |
| Http.ValidationRequest.Validate | src/Http/ValidationRequest.php:52-86 | with the flag off the validation is always returned; with it on, it is returned iff valid; a throw carries the same (invalid) validation, `errorMessage` and code 0; its redirect URI is the URL of a non-empty route name that the router resolves (overriding the given URI), and the caller's URI when the name is empty or the lookup fails |
| Http.ValidationRequest.WithValidator | src/Http/ValidationRequest.php:94-99 | the copy holds the new validator and the other three collaborators unchanged |
| Http.ValidationRequest.WithRequester | src/Http/ValidationRequest.php:107-112 | the copy holds the new requester and the other three collaborators unchanged |
| Http.ValidationRequest.WithResponser | src/Http/ValidationRequest.php:120-125 | the copy holds the new responser and the other three collaborators unchanged |
| Http.ValidationRequest.WithRouter | src/Http/ValidationRequest.php:133-138 | the copy holds the new router and the other three collaborators unchanged |
| Http.WithRoundTrip | src/Http/ValidationRequest.php:94-138 | putting back the replaced collaborator gives the original helper, which is itself never altered |
| Http.AccessorsReturnStored | src/Http/ValidationRequest.php:37-42 | the accessors (lines 145-168) return exactly the collaborators given to the constructor |
| ErrorHandler.HandleThrowable | src/Boot/HttpValidationErrorHandler.php:43-56 | a throwable that is not a validation exception comes back unhandled; a validation exception becomes the JSON response when the client wants JSON or is AJAX, the redirect otherwise; only the redirect changes the flash messages |
| ErrorHandler.RedirectTarget | src/Boot/HttpValidationErrorHandler.php:68-72 | the redirect goes to the exception's URI when it is not PHP-empty, and to the previous URI otherwise |
| ErrorHandler.RedirectFlashes | src/Boot/HttpValidationErrorHandler.php:74-78 | an `'error'` entry with the exception message appears, first, exactly when that message is not PHP-empty; then every validation error follows in order |
| ErrorHandler.RedirectResponse | src/Boot/HttpValidationErrorHandler.php:64-83 | the response redirects to the chosen target with the validation's data as old input, and the flash bag grows by exactly those entries |
| ErrorHandler.FirstMessage | src/Boot/HttpValidationErrorHandler.php:96 | the first error's message, `""` when there are no errors |
| ErrorHandler.JsonMessage | src/Boot/HttpValidationErrorHandler.php:93-97 | the exception message when not PHP-empty; otherwise the first error's message, or `""` without errors |
| ErrorHandler.JsonResponse | src/Boot/HttpValidationErrorHandler.php:91-112 | status 422 and a body of exactly `message` and `errors`; its loop builds `GroupByKey` of the errors, which meets `GroupedCorrectly` |
| ErrorHandler.AppendMessageKeys | src/Boot/HttpValidationErrorHandler.php:101-103 | one append keeps the keys distinct and equal to the keys of the errors seen so far |
| ErrorHandler.AppendMessageOrder | src/Boot/HttpValidationErrorHandler.php:101-103 | one append keeps the keys in order of first appearance |
| ErrorHandler.AppendMessageMessages | src/Boot/HttpValidationErrorHandler.php:101-103 | one append keeps each key's list equal to its messages in original order |
| ErrorHandler.AppendMessageTotal | src/Boot/HttpValidationErrorHandler.php:102 | one append adds exactly one message |
| ErrorHandler.AppendMessageCorrect | src/Boot/HttpValidationErrorHandler.php:101-103 | one loop step keeps the grouping correct for the errors seen so far |
| ErrorHandler.GroupByKeyCorrect | src/Boot/HttpValidationErrorHandler.php:99-103 | the built object has the distinct error keys in first-appearance order, each with its messages in order, and as many messages as errors |
| ErrorHandler.GroupedCorrectlyUnique | src/Boot/HttpValidationErrorHandler.php:99-103 | at most one list of groups meets that description |
| ErrorHandler.GroupByKeyIsTheGrouping | src/Boot/HttpValidationErrorHandler.php:99-103 | a list of groups meets the description if and only if it is what the loop builds |
| ValidatorBoot.Pipeline | src/Boot/Validator.php:66-85 | `ParameterReplacer` is last and occurs once; `RuleParametersModifier` occurs exactly once; both translating modifiers are present iff a translator is registered, and none is present without one |
| ValidatorBoot.TranslatingPipelineOrder | src/Boot/Validator.php:68-85 | with a translator: message translation, then rule parameters, then `:attribute` translation, then parameter replacement last |
| ValidatorBoot.PipelineExactly | src/Boot/Validator.php:66-85 | with a translator exactly `[Translator('validator'), RuleParametersModifier, ParameterTranslator([':attribute'], '*'), ParameterReplacer]`; without one exactly `[RuleParametersModifier, ParameterReplacer]` |
| ValidatorBoot.CreateModifiers | src/Boot/Validator.php:66-85 | the `add` sequence builds exactly `Pipeline` into a fresh collection |
| ValidatorBoot.InstallTranslations | src/Boot/Validator.php:54-56 | the translations migration is installed once when a `trans` directory is registered, and nothing is installed otherwise |
| RequestFlow.RedirectDestination | src/Http/ValidationRequest.php:73-85 | after a failed validation the redirect goes to the resolved route URL when it is not PHP-empty, else to the previous URI; without a resolving route it goes to the caller's URI when not PHP-empty, else to the previous URI |
| RequestFlow.JsonMessageAfterValidate | src/Boot/HttpValidationErrorHandler.php:93-97 | after a failed validation the JSON message is the caller's `errorMessage` unless PHP-empty, else the first validation error's message |
| RequestFlow.JsonErrorsAfterValidate | src/Boot/HttpValidationErrorHandler.php:99-103 | after a failed validation the JSON `errors` object groups exactly the validator's errors |
| RequestFlow.SingleErrorJsonBody | tests/Http/AppValidationRequestTest.php:339-341 | a single `title` error and no message give `{"message": m, "errors": {"title": [m]}}` |
| Collaborators.Responser.Add | src/Boot/HttpValidationErrorHandler.php:75 | `messages()->add('error', …)` appends one entry to the flash bag |
| Collaborators.Responser.Push | src/Boot/HttpValidationErrorHandler.php:78 | `messages()->push(errors)` appends every error, in order |

## Left out

- The validation engine (rule parsing and evaluation, `DefaultRules`,
  `AutowiringRuleFactory`, message composition) is external. The validator
  is a function from input and rules to a validation.
- The modifiers' behaviour (translation, parameter replacement) is
  external. Modifiers are tags. The translator service they hold is not
  modelled; only its presence is.
- Container registration is not modelled: the lazy `app->set` closures for
  `RulesInterface` and `ValidatorInterface`, `MessagesFactory` with its null
  logger, `app->has/get`, boot order, `HANDLER_PRIORITY`, `INFO` and `BOOT`.
  `CreateModifiers` models the modifier part of the factory closure, and
  `InstallTranslations` the guard before it.
- Installing a migration is I/O. It is recorded as an entry in a list.
- Router URL generation is external. A `UrlException` is `None`. Other
  exceptions the router may raise propagate out of `validate` in PHP and
  are not modelled.
- The requester's header parsing (`wantsJson`, `isAjax`) and `input()` are
  external. They are given values.
- The responser's `withInput` and `redirect`, and the response's status, are
  external. The redirect response carries the target URI and the old input
  directly. The flash storage behind `messages()` is a sequence.
- JSON encoding, PSR-7 objects and response emission are not modelled.
- ErrorHandler.JsonResponse: PHP turns numeric-string error keys such as
  `"0"` into integer array keys. When those keys are `0..n-1`, the
  `errors` object is encoded as a JSON list. The model keeps the keys as
  strings in an ordered list of groups, so it does not capture this.
- Request input and validated data are maps from strings to strings.
  Nested arrays are not modelled.
- The PHP exception hierarchy (`RuntimeException`, the `$previous` chain)
  is not modelled. Throwing is the `Throw` result, and throwables that are
  not validation exceptions are `OtherThrowable`.
- The exception code is an unbounded integer. PHP's integer width does not
  matter to any rule modelled here.
