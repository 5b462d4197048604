/**
 * The error handler that turns a thrown `ValidationException` into an HTTP
 * response: a JSON error body (status 422) for clients that want JSON or
 * send an AJAX request, a redirect with flashed messages otherwise.
 */
module ErrorHandler {
  import opened Wrappers
  import opened Php
  import opened Collaborators
  import opened Exceptions
  import opened Sequences

  /** HTTP 422 Unprocessable Content, the status of every JSON error response. */
  const UnprocessableStatus := 422

  /** What reaches the handler: the validation exception or anything else. */
  datatype Throwable =
    | ValidationFailure(exception: ValidationException)
    | OtherThrowable(description: string)

  /** The handler's answer: the throwable itself ("cannot handle") or a response. */
  datatype Handled =
    | Unhandled(throwable: Throwable)
    | Rendered(response: Response)

  /*
   * ---------------------------------------------------------------------
   * Redirect response
   * ---------------------------------------------------------------------
   */

  /** The redirect target: the exception's URI unless PHP-empty, else the previous URI. */
  function RedirectTarget(e: ValidationException, previousUri: string): (uri: string)
    ensures !IsEmpty(e.redirectUri) ==> uri == e.redirectUri.value
    ensures IsEmpty(e.redirectUri) ==> uri == previousUri
  {
    if !IsEmpty(e.redirectUri) then e.redirectUri.value else previousUri
  }

  /**
   * The flash entries a redirect appends: an `'error'` entry with the
   * exception message, only when that message is not PHP-empty, and then
   * every validation error in order.
   */
  function RedirectFlashes(e: ValidationException): (r: seq<Flash>)
    ensures |r| == |e.validation.errors| + (if IsEmptyString(e.message) then 0 else 1)
    ensures IsEmptyString(e.message) ==> r == PushedErrors(e.validation.errors)
    ensures !IsEmptyString(e.message) ==>
      r[0] == Added("error", e.message) && r[1..] == PushedErrors(e.validation.errors)
  {
    (if IsEmptyString(e.message) then [] else [Added("error", e.message)])
      + PushedErrors(e.validation.errors)
  }

  /** `redirectResponse`: flashes the messages and redirects, carrying the validated data as old input. */
  method RedirectResponse(e: ValidationException, previousUri: string, responser: Responser)
    returns (r: Response)
    modifies responser
    ensures r == Redirect(RedirectTarget(e, previousUri), e.validation.data)
    ensures responser.messages == old(responser.messages) + RedirectFlashes(e)
  {
    var uri := previousUri;
    if !IsEmpty(e.redirectUri) {
      uri := e.redirectUri.value;
    }
    if !IsEmptyString(e.message) {
      responser.Add("error", e.message);
    }
    responser.Push(e.validation.errors);
    r := Redirect(uri, e.validation.data);
  }

  /*
   * ---------------------------------------------------------------------
   * JSON response
   * ---------------------------------------------------------------------
   */

  /** `(string) errors()->first()?->message()`: the first message, `""` when there is none. */
  function FirstMessage(errors: seq<Error>): (m: string)
    ensures errors != [] ==> m == errors[0].message
    ensures errors == [] ==> m == ""
  {
    ToString(if errors == [] then None else Some(errors[0].message))
  }

  /** The JSON `message`: the exception message, or the first error's message when that is PHP-empty. */
  function JsonMessage(e: ValidationException): (m: string)
    ensures !IsEmptyString(e.message) ==> m == e.message
    ensures IsEmptyString(e.message) && e.validation.errors != [] ==> m == e.validation.errors[0].message
    ensures IsEmptyString(e.message) && e.validation.errors == [] ==> m == ""
  {
    if IsEmptyString(e.message) then FirstMessage(e.validation.errors) else e.message
  }

  /** The keys of the errors, in order. */
  function ErrorKeys(errors: seq<Error>): (keys: seq<string>)
    ensures |keys| == |errors|
    ensures forall i :: 0 <= i < |errors| ==> keys[i] == errors[i].key
  {
    seq(|errors|, i requires 0 <= i < |errors| => errors[i].key)
  }

  /** The keys of the groups, in order. */
  function GroupKeys(groups: seq<Group>): (keys: seq<string>)
    ensures |keys| == |groups|
    ensures forall i :: 0 <= i < |groups| ==> keys[i] == groups[i].key
  {
    seq(|groups|, i requires 0 <= i < |groups| => groups[i].key)
  }

  /** The messages of the errors with key `k`, in their original order. */
  function MessagesFor(errors: seq<Error>, k: string): seq<string> {
    if errors == [] then []
    else (if errors[0].key == k then [errors[0].message] else []) + MessagesFor(errors[1..], k)
  }

  /** The number of messages over all groups. */
  function TotalMessages(groups: seq<Group>): nat {
    if groups == [] then 0 else |groups[0].messages| + TotalMessages(groups[1..])
  }

  /**
   * `$errors[$key][] = $message` on the PHP array: append to the list of an
   * existing key, or add the key at the end with a one-message list.
   */
  function AppendMessage(groups: seq<Group>, e: Error): seq<Group> {
    var i := FirstIndex(GroupKeys(groups), e.key);
    if i < |groups| then groups[i := Group(e.key, groups[i].messages + [e.message])]
    else groups + [Group(e.key, [e.message])]
  }

  /** The `errors` object the loop of `jsonResponse` builds, as a left fold. */
  function GroupByKey(errors: seq<Error>): seq<Group>
    decreases |errors|
  {
    if errors == [] then []
    else AppendMessage(GroupByKey(errors[..|errors| - 1]), errors[|errors| - 1])
  }

  /** Each key names one group only. */
  ghost predicate DistinctKeys(groups: seq<Group>) {
    forall i, j :: 0 <= i < j < |groups| ==> groups[i].key != groups[j].key
  }

  /** The group keys are exactly the keys of the errors. */
  ghost predicate SameKeys(errors: seq<Error>, groups: seq<Group>) {
    forall k :: k in GroupKeys(groups) <==> k in ErrorKeys(errors)
  }

  /** The groups come in the order in which their keys first appear among the errors. */
  ghost predicate FirstAppearanceOrder(errors: seq<Error>, groups: seq<Group>) {
    forall i, j :: 0 <= i < j < |groups| ==>
      FirstIndex(ErrorKeys(errors), groups[i].key) < FirstIndex(ErrorKeys(errors), groups[j].key)
  }

  /** Each group lists the messages of its key, in their original order. */
  ghost predicate MessagesInOrder(errors: seq<Error>, groups: seq<Group>) {
    forall i :: 0 <= i < |groups| ==> groups[i].messages == MessagesFor(errors, groups[i].key)
  }

  /**
   * What the `errors` object is meant to be, independently of how it is
   * built: its keys are exactly the distinct error keys, each once, in
   * order of first appearance; each key lists its messages in their
   * original order; and no message is lost or added.
   */
  ghost predicate GroupedCorrectly(errors: seq<Error>, groups: seq<Group>) {
    && DistinctKeys(groups)
    && SameKeys(errors, groups)
    && FirstAppearanceOrder(errors, groups)
    && MessagesInOrder(errors, groups)
    && TotalMessages(groups) == |errors|
  }

  /** `jsonResponse`: the message fallback and the grouping loop, status 422. */
  method JsonResponse(e: ValidationException) returns (r: Response)
    ensures r == Json(JsonBody(JsonMessage(e), GroupByKey(e.validation.errors)), UnprocessableStatus)
    ensures GroupedCorrectly(e.validation.errors, r.body.errors)
  {
    var message := e.message;
    if IsEmptyString(message) {
      message := FirstMessage(e.validation.errors);
    }
    var all := e.validation.errors;
    var errors: seq<Group> := [];
    var n := 0;
    while n < |all|
      invariant n <= |all|
      invariant errors == GroupByKey(all[..n])
    {
      assert all[..n + 1][..n] == all[..n];
      errors := AppendMessage(errors, all[n]);
      n := n + 1;
    }
    assert all[..n] == all;
    GroupByKeyCorrect(all);
    r := Json(JsonBody(message, errors), UnprocessableStatus);
  }

  /*
   * ---------------------------------------------------------------------
   * Dispatch
   * ---------------------------------------------------------------------
   */

  /**
   * `handleThrowable`: anything but a `ValidationException` is handed back
   * unhandled; a validation exception becomes a JSON response when the
   * client wants JSON or sends an AJAX request, and a redirect otherwise.
   * Only the redirect touches the flash messages.
   */
  method HandleThrowable(t: Throwable, requester: Requester, previousUri: string, responser: Responser)
    returns (h: Handled)
    modifies responser
    ensures t.OtherThrowable? ==> h == Unhandled(t)
    ensures t.ValidationFailure? && (requester.wantsJson || requester.isAjax) ==>
      h == Rendered(Json(JsonBody(JsonMessage(t.exception), GroupByKey(t.exception.validation.errors)), UnprocessableStatus))
    ensures t.ValidationFailure? && !requester.wantsJson && !requester.isAjax ==>
      && h == Rendered(Redirect(RedirectTarget(t.exception, previousUri), t.exception.validation.data))
      && responser.messages == old(responser.messages) + RedirectFlashes(t.exception)
    ensures t.OtherThrowable? || requester.wantsJson || requester.isAjax ==>
      responser.messages == old(responser.messages)
  {
    if !t.ValidationFailure? {
      return Unhandled(t);
    }
    var response;
    if requester.wantsJson || requester.isAjax {
      response := JsonResponse(t.exception);
    } else {
      response := RedirectResponse(t.exception, previousUri, responser);
    }
    h := Rendered(response);
  }

  /*
   * ---------------------------------------------------------------------
   * Properties of the grouping
   * ---------------------------------------------------------------------
   */

  lemma {:induction false} MessagesForAppend(errors: seq<Error>, e: Error, k: string)
    ensures MessagesFor(errors + [e], k) ==
      MessagesFor(errors, k) + (if e.key == k then [e.message] else [])
  {
    if errors != [] {
      assert (errors + [e])[1..] == errors[1..] + [e];
      MessagesForAppend(errors[1..], e, k);
    }
  }

  lemma {:induction false} MessagesForAbsent(errors: seq<Error>, k: string)
    requires k !in ErrorKeys(errors)
    ensures MessagesFor(errors, k) == []
  {
    if errors != [] {
      assert ErrorKeys(errors)[0] == errors[0].key;
      assert forall i :: 0 <= i < |errors| - 1 ==> ErrorKeys(errors[1..])[i] == ErrorKeys(errors)[i + 1];
      MessagesForAbsent(errors[1..], k);
    }
  }

  lemma {:induction false} TotalMessagesUpdate(groups: seq<Group>, i: nat, g: Group)
    requires i < |groups|
    ensures TotalMessages(groups[i := g]) == TotalMessages(groups) - |groups[i].messages| + |g.messages|
  {
    if i > 0 {
      assert groups[i := g][1..] == groups[1..][i - 1 := g];
      TotalMessagesUpdate(groups[1..], i - 1, g);
    }
  }

  lemma {:induction false} TotalMessagesAppend(groups: seq<Group>, g: Group)
    ensures TotalMessages(groups + [g]) == TotalMessages(groups) + |g.messages|
  {
    if groups != [] {
      assert (groups + [g])[1..] == groups[1..] + [g];
      TotalMessagesAppend(groups[1..], g);
    }
  }

  /** Every grouped key occurs among the errors, so its first index is a real position. */
  lemma GroupedKeysOccur(errors: seq<Error>, groups: seq<Group>)
    requires SameKeys(errors, groups)
    ensures forall i :: 0 <= i < |groups| ==> FirstIndex(ErrorKeys(errors), groups[i].key) < |errors|
  {
    forall i | 0 <= i < |groups| ensures FirstIndex(ErrorKeys(errors), groups[i].key) < |errors| {
      var k := groups[i].key;
      assert GroupKeys(groups)[i] == k;
      assert k in GroupKeys(groups);
      var j :| 0 <= j < |errors| && ErrorKeys(errors)[j] == k;
    }
  }

  lemma ErrorKeysAppend(errors: seq<Error>, e: Error)
    ensures ErrorKeys(errors + [e]) == ErrorKeys(errors) + [e.key]
  {
  }

  /** A step of the loop keeps the keys distinct and equal to the keys seen so far. */
  lemma AppendMessageKeys(seen: seq<Error>, groups: seq<Group>, e: Error)
    requires DistinctKeys(groups) && SameKeys(seen, groups)
    ensures DistinctKeys(AppendMessage(groups, e)) && SameKeys(seen + [e], AppendMessage(groups, e))
  {
    var next := AppendMessage(groups, e);
    ErrorKeysAppend(seen, e);
    if FirstIndex(GroupKeys(groups), e.key) < |groups| {
      assert GroupKeys(next) == GroupKeys(groups);
    } else {
      assert GroupKeys(next) == GroupKeys(groups) + [e.key];
    }
  }

  /** A step of the loop keeps the groups in order of first appearance. */
  lemma AppendMessageOrder(seen: seq<Error>, groups: seq<Group>, e: Error)
    requires SameKeys(seen, groups) && FirstAppearanceOrder(seen, groups)
    ensures FirstAppearanceOrder(seen + [e], AppendMessage(groups, e))
  {
    var next := AppendMessage(groups, e);
    ErrorKeysAppend(seen, e);
    GroupedKeysOccur(seen, groups);
    forall i | 0 <= i < |groups|
      ensures FirstIndex(ErrorKeys(seen + [e]), groups[i].key) == FirstIndex(ErrorKeys(seen), groups[i].key)
    {
      FirstIndexAppend(ErrorKeys(seen), e.key, groups[i].key);
    }
    if FirstIndex(GroupKeys(groups), e.key) == |groups| {
      assert e.key !in GroupKeys(groups);
      FirstIndexAppend(ErrorKeys(seen), e.key, e.key);
    }
  }

  /** A step of the loop keeps every group's messages those of its key. */
  lemma AppendMessageMessages(seen: seq<Error>, groups: seq<Group>, e: Error)
    requires DistinctKeys(groups) && SameKeys(seen, groups) && MessagesInOrder(seen, groups)
    ensures MessagesInOrder(seen + [e], AppendMessage(groups, e))
  {
    assert forall i :: 0 <= i < |groups| ==> GroupKeys(groups)[i] == groups[i].key;
    forall k ensures MessagesFor(seen + [e], k) == MessagesFor(seen, k) + (if e.key == k then [e.message] else []) {
      MessagesForAppend(seen, e, k);
    }
    if FirstIndex(GroupKeys(groups), e.key) == |groups| {
      assert e.key !in GroupKeys(groups);
      MessagesForAbsent(seen, e.key);
    }
  }

  /** A step of the loop adds exactly one message. */
  lemma AppendMessageTotal(groups: seq<Group>, e: Error)
    ensures TotalMessages(AppendMessage(groups, e)) == TotalMessages(groups) + 1
  {
    var i := FirstIndex(GroupKeys(groups), e.key);
    if i < |groups| {
      TotalMessagesUpdate(groups, i, Group(e.key, groups[i].messages + [e.message]));
    } else {
      TotalMessagesAppend(groups, Group(e.key, [e.message]));
    }
  }

  /** One step of the loop keeps the grouping correct for the errors seen so far. */
  lemma AppendMessageCorrect(seen: seq<Error>, groups: seq<Group>, e: Error)
    requires GroupedCorrectly(seen, groups)
    ensures GroupedCorrectly(seen + [e], AppendMessage(groups, e))
  {
    AppendMessageKeys(seen, groups, e);
    AppendMessageOrder(seen, groups, e);
    AppendMessageMessages(seen, groups, e);
    AppendMessageTotal(groups, e);
  }

  /** The fold builds exactly the intended `errors` object. */
  lemma {:induction false} GroupByKeyCorrect(errors: seq<Error>)
    ensures GroupedCorrectly(errors, GroupByKey(errors))
    decreases |errors|
  {
    if errors != [] {
      var seen := errors[..|errors| - 1];
      GroupByKeyCorrect(seen);
      AppendMessageCorrect(seen, GroupByKey(seen), errors[|errors| - 1]);
      assert seen + [errors[|errors| - 1]] == errors;
    }
  }

  /**
   * Two key sequences, each strictly ordered by first index in `ks` and
   * holding the same keys, are the same sequence.
   */
  lemma {:induction false} OrderedKeysUnique(ks: seq<string>, a: seq<string>, b: seq<string>)
    requires forall i, j :: 0 <= i < j < |a| ==> FirstIndex(ks, a[i]) < FirstIndex(ks, a[j])
    requires forall i, j :: 0 <= i < j < |b| ==> FirstIndex(ks, b[i]) < FirstIndex(ks, b[j])
    requires forall k :: k in a <==> k in b
    ensures a == b
    decreases |a|
  {
    // a key in either sequence is in the other, so both are empty or neither is
    if a != [] {
      assert a[0] in b;
    }
    if b != [] {
      assert b[0] in a;
    }
    if a != [] {
      // both heads have the least first index of all the keys
      var i :| 0 <= i < |a| && a[i] == b[0];
      var j :| 0 <= j < |b| && b[j] == a[0];
      assert FirstIndex(ks, a[0]) <= FirstIndex(ks, a[i]) == FirstIndex(ks, b[0]);
      assert FirstIndex(ks, b[0]) <= FirstIndex(ks, b[j]) == FirstIndex(ks, a[0]);
      assert a[0] == b[0];
      forall k ensures k in a[1..] <==> k in b[1..] {
        if k in a[1..] {
          var m :| 1 <= m < |a| && a[m] == k;
          assert k in b;
        }
        if k in b[1..] {
          var m :| 1 <= m < |b| && b[m] == k;
          assert k in a;
        }
      }
      OrderedKeysUnique(ks, a[1..], b[1..]);
      assert a == [a[0]] + a[1..] && b == [b[0]] + b[1..];
    }
  }

  /** At most one `errors` object meets the intended description. */
  lemma GroupedCorrectlyUnique(errors: seq<Error>, g1: seq<Group>, g2: seq<Group>)
    requires GroupedCorrectly(errors, g1) && GroupedCorrectly(errors, g2)
    ensures g1 == g2
  {
    var ks := ErrorKeys(errors);
    var a, b := GroupKeys(g1), GroupKeys(g2);
    forall k ensures k in a <==> k in b {
      assert k in a <==> k in ks;
    }
    OrderedKeysUnique(ks, a, b);
    assert |g1| == |g2|;
    forall i | 0 <= i < |g1| ensures g1[i] == g2[i] {
      assert a[i] == b[i];
    }
  }

  /**
   * The loop's result is characterised by the description alone: a list
   * of groups is the intended `errors` object exactly when it is what the
   * loop builds.
   */
  lemma GroupByKeyIsTheGrouping(errors: seq<Error>, groups: seq<Group>)
    ensures GroupedCorrectly(errors, groups) <==> groups == GroupByKey(errors)
  {
    GroupByKeyCorrect(errors);
    if GroupedCorrectly(errors, groups) {
      GroupedCorrectlyUnique(errors, groups, GroupByKey(errors));
    }
  }
}
