/**
 * The services the adapter calls but does not implement (the validation
 * engine, the requester, the router and the responser), reduced to the
 * values the adapter reads from them.
 */
module Collaborators {
  import opened Wrappers

  /** Request input and validated data: field name to submitted value. */
  type Input = map<string, string>

  /** The rules handed to the validator: field name to rule definition. */
  type Rules = map<string, string>

  /** One failed rule: the field it concerns and its (already composed) message. */
  datatype Error = Error(key: string, message: string)

  /** The outcome of a validation run, treated as opaque beyond these three parts. */
  datatype Validation = Validation(isValid: bool, errors: seq<Error>, data: Input)

  /** The validation engine: validates data against rules. */
  type Validator = (Input, Rules) -> Validation

  /** What the adapter reads from the incoming request. */
  datatype Requester = Requester(input: Input, wantsJson: bool, isAjax: bool)

  /** URL generation by route name; `None` is the router's `UrlException`. */
  type Router = string -> Option<string>

  /** An entry of the flash-message bag. */
  datatype Flash =
    | Added(level: string, text: string)   // `messages()->add(level, text)`
    | Pushed(error: Error)                 // one message of a bag given to `messages()->push(...)`

  /** The flash entries that pushing a validation's error bag appends, in order. */
  function PushedErrors(errors: seq<Error>): (r: seq<Flash>)
    ensures |r| == |errors|
    ensures forall i :: 0 <= i < |errors| ==> r[i] == Pushed(errors[i])
  {
    if errors == [] then [] else [Pushed(errors[0])] + PushedErrors(errors[1..])
  }

  /** A response built by the responser. */
  datatype Response =
    | Json(body: JsonBody, status: int)
    | Redirect(uri: string, oldInput: Input)

  /** The JSON body of a validation failure: exactly the fields `message` and `errors`. */
  datatype JsonBody = JsonBody(message: string, errors: seq<Group>)

  /** One entry of the `errors` object: a key and its messages (a PHP list). */
  datatype Group = Group(key: string, messages: seq<string>)

  /** The responser, of which the adapter changes only its flash-message bag. */
  class Responser {
    var messages: seq<Flash>

    constructor ()
      ensures messages == []
    {
      messages := [];
    }

    /** `messages()->add(level, text)`. */
    method Add(level: string, text: string)
      modifies this
      ensures messages == old(messages) + [Added(level, text)]
    {
      messages := messages + [Added(level, text)];
    }

    /** `messages()->push(errors)`: every error message, in order. */
    method Push(errors: seq<Error>)
      modifies this
      ensures messages == old(messages) + PushedErrors(errors)
    {
      messages := messages + PushedErrors(errors);
    }
  }
}
