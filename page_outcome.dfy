/** What a Razor page handler hands back: a redirect carrying a TempData
    message, the page shown again with a model error, NotFound, or an
    exception the handler does not catch. */
module PageOutcome {
  import opened Base
  import opened Entities

  /** The TempData message set before RedirectToPage: a fixed success or
      error text, or the message of a caught exception. */
  datatype Notice = Success(text: string) | Error(text: string) | ErrorFrom(failure: Failure)

  datatype Outcome =
    | Redirect(notice: Notice)
    | Redisplay(modelError: Option<Failure>)
    | NotFoundResult
    | Crash(failure: Failure)

  /** The handler reported success. */
  predicate Succeeded(o: Outcome) {
    o.Redirect? && o.notice.Success?
  }
}
