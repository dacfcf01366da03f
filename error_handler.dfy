// The hook that registers errors in the application's error widget (hooks/useErrorHandler.tsx):
// ignorable errors are dropped, a service that is temporarily unavailable (HTTP 503) is
// reported once under a fixed id, a 404 is only logged, and anything else is registered under
// the caller's id.
module ErrorHandler {
  import opened Results

  const TypeError := "TypeError"
  const TemporarilyUnavailableId := "temporarily-unavailable"

  /** The server's error response as a fetch error carries it. */
  datatype ErrorResponseInfo = ErrorResponseInfo(canBeIgnored: bool)

  /**
   * An error cause as the hook reads it: whether it is a fetch error, its `httpStatus`, its
   * `status` (the field of an error response) and, for a fetch error, its error response.
   */
  datatype Cause = Cause(isFetchError: bool, httpStatus: Option<int>, status: Option<int>,
                         errorResponse: Option<ErrorResponseInfo>)

  /** `canBeIgnored`: a fetch error whose response says so; a fetch error without a response fails. */
  function CanBeIgnored(cause: Option<Cause>): Result<bool, string>
  {
    if cause.None? || !cause.value.isFetchError then Ok(false)
    else if cause.value.errorResponse.None? then Err(TypeError)
    else Ok(cause.value.errorResponse.value.canBeIgnored)
  }

  /** A fetch error with that HTTP status, or an error response with that status. */
  predicate HasStatus(cause: Option<Cause>, code: int)
  {
    cause.Some? && ((cause.value.isFetchError && cause.value.httpStatus == Some(code)) || cause.value.status == Some(code))
  }

  predicate IsTemporarilyUnavailable(cause: Option<Cause>)
  {
    HasStatus(cause, 503)
  }

  predicate IsNotFound(cause: Option<Cause>)
  {
    HasStatus(cause, 404)
  }

  /** A new entry for the error store. */
  datatype NewError = NewError(id: string, message: string, cause: Option<Cause>, alternativeIntent: Option<string>)

  /** The notification element the hook returns. */
  datatype Notification = Notification(message: string, warning: bool)

  /** What a registration does: the error it dispatches to the store and the notification it returns. */
  datatype Registration = Registration(dispatched: Option<NewError>, notification: Option<Notification>)

  /**
   * `registerError`, with the translated 503 message passed in (it is built from the cause's
   * detail message by the translation function).
   */
  function RegisterError(errorId: string, errorMessage: string, cause: Option<Cause>,
                         temporarilyUnavailableMessage: Option<Cause> -> string): Result<Registration, string>
  {
    match CanBeIgnored(cause)
    case Err(e) => Err(e)
    case Ok(ignored) =>
      if ignored then Ok(Registration(None, None))
      else if IsTemporarilyUnavailable(cause) then
        var message := temporarilyUnavailableMessage(cause);
        Ok(Registration(Some(NewError(TemporarilyUnavailableId, message, None, Some("warning"))), Some(Notification(message, false))))
      else if IsNotFound(cause) then Ok(Registration(None, None))
      else Ok(Registration(Some(NewError(errorId, errorMessage, cause, None)), Some(Notification(errorMessage, true))))
  }

  /**
   * The classification, in its order of precedence: an ignorable error registers nothing; a
   * 503 registers one warning under the fixed id, with no cause and whatever id the caller
   * gave; a 404 registers nothing; anything else registers exactly the caller's id, message
   * and cause and shows the message as a warning. Only a fetch error without a response fails.
   */
  lemma RegisterErrorSpec(errorId: string, errorMessage: string, cause: Option<Cause>,
                          temporarilyUnavailableMessage: Option<Cause> -> string)
    ensures var r := RegisterError(errorId, errorMessage, cause, temporarilyUnavailableMessage);
            && (r.Err? <==> cause.Some? && cause.value.isFetchError && cause.value.errorResponse.None?)
            && (CanBeIgnored(cause) == Ok(true) ==> r == Ok(Registration(None, None)))
            && (CanBeIgnored(cause) == Ok(false) && IsTemporarilyUnavailable(cause) ==>
                  r.Ok? && r.value.dispatched.Some?
                  && r.value.dispatched.value.id == TemporarilyUnavailableId
                  && r.value.dispatched.value.cause.None?
                  && r.value.dispatched.value.alternativeIntent == Some("warning")
                  && r.value.notification == Some(Notification(r.value.dispatched.value.message, false)))
            && (CanBeIgnored(cause) == Ok(false) && !IsTemporarilyUnavailable(cause) && IsNotFound(cause) ==>
                  r == Ok(Registration(None, None)))
            && (CanBeIgnored(cause) == Ok(false) && !IsTemporarilyUnavailable(cause) && !IsNotFound(cause) ==>
                  r == Ok(Registration(Some(NewError(errorId, errorMessage, cause, None)), Some(Notification(errorMessage, true)))))
  {
  }

  /** A 503 is registered the same way whatever id and message the caller passes. */
  lemma TemporarilyUnavailableIgnoresCaller(id1: string, message1: string, id2: string, message2: string,
                                            cause: Option<Cause>, temporarilyUnavailableMessage: Option<Cause> -> string)
    requires CanBeIgnored(cause) == Ok(false) && IsTemporarilyUnavailable(cause)
    ensures RegisterError(id1, message1, cause, temporarilyUnavailableMessage)
            == RegisterError(id2, message2, cause, temporarilyUnavailableMessage)
  {
  }

  /** A missing cause is never ignored, never a 503 and never a 404, so it is always registered as given. */
  lemma MissingCauseRegistered(errorId: string, errorMessage: string, temporarilyUnavailableMessage: Option<Cause> -> string)
    ensures RegisterError(errorId, errorMessage, None, temporarilyUnavailableMessage)
            == Ok(Registration(Some(NewError(errorId, errorMessage, None, None)), Some(Notification(errorMessage, true))))
  {
  }

  /** Something is dispatched exactly when a notification is returned, and never for an ignorable error or a 404. */
  lemma DispatchedIffNotified(errorId: string, errorMessage: string, cause: Option<Cause>,
                              temporarilyUnavailableMessage: Option<Cause> -> string)
    ensures var r := RegisterError(errorId, errorMessage, cause, temporarilyUnavailableMessage);
            r.Ok? ==> (r.value.dispatched.Some? <==> r.value.notification.Some?)
                      && (r.value.dispatched.Some? <==>
                            (CanBeIgnored(cause) == Ok(false) && (IsTemporarilyUnavailable(cause) || !IsNotFound(cause))))
  {
  }

  /** The store action `clearErrors` dispatches: the given ids, or none to clear every error. */
  datatype ClearAction = ClearOneOrMoreErrors(errorIds: Option<seq<string>>)

  function ClearErrors(errorIds: Option<seq<string>>): (r: ClearAction)
    ensures r.errorIds == errorIds
  {
    ClearOneOrMoreErrors(errorIds)
  }
}
