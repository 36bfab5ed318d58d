/**
 * How a page's request ends, as the pages' `catch` blocks see it, and the
 * alert state both pages share.
 */
module PageOutcome {
  import opened Wrappers

  /** The end of one request: the response body on success; an axios error
      with the response's status (`None` when no response arrived) and the
      `error` string of its body; any other thrown `Error` with its message
      (the page's own no-file error, or a `TypeError` raised while reading the
      response, among them); or a thrown value that is not an `Error`. */
  datatype Outcome<T> =
    | Ok(payload: T)
    | HttpErr(status: Option<int>, error: string)
    | LocalErr(message: string)
    | Other

  const GenericErrorMessage: string := "Something went wrong! Please try again later."

  /** The success alert, the error alert and the error alert's message. */
  datatype Alerts = Alerts(successOpen: bool, errorOpen: bool, errorMessage: string)

  /** `resetAlerts`: both alerts closed, no message. */
  const Closed: Alerts := Alerts(false, false, "")

  /** An attempt that succeeded. */
  const Succeeded: Alerts := Alerts(true, false, "")

  /** An attempt that failed, showing `message`. */
  function Failed(message: string): (a: Alerts)
    ensures a.errorOpen && !a.successOpen && a.errorMessage == message
  {
    Alerts(false, true, message)
  }

  /** Exactly one of the two alerts is open. */
  predicate Settled(a: Alerts) {
    a.successOpen != a.errorOpen
  }

  /** Whether the server answered with status 400. */
  predicate IsBadRequest<T>(o: Outcome<T>) {
    o.HttpErr? && o.status == Some(400)
  }
}
