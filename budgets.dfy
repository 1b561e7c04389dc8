/**
 * `custom_validate` of the budget schemas (src/schemas/budgets.py): the
 * start date must not be in the future, then the end date must be in the
 * future. Each check reads the clock itself, so the two readings are two
 * parameters.
 */
module Budgets {
  import opened BaseSchema

  /** `BudgetDefault.custom_validate(start_date, end_date)`. */
  function DefaultCustomValidate(startDate: DateArg, endDate: DateArg, nowAtStart: int, nowAtEnd: int): (r: Outcome)
    ensures r.Returned? <==>
      (startDate.DateTime? ==> startDate.wallClock <= nowAtStart) && (endDate.DateTime? ==> nowAtEnd < endDate.wallClock)
    ensures r.Raised? && startDate.DateTime? && startDate.wallClock > nowAtStart ==>
      r.exception == DateError("start_date", PastMessage)
    ensures r.Raised? && !(startDate.DateTime? && startDate.wallClock > nowAtStart) ==>
      r.exception == DateError("end_date", FutureMessage)
  {
    match ValidatePastDate(startDate, "start_date", nowAtStart)
    case Raised(e) => Raised(e)
    case Returned => ValidateFutureDate(endDate, "end_date", nowAtEnd)
  }

  /** `BudgetUpdate.custom_validate(start_date, end_date)`, whose fields may
      be `None`. */
  function UpdateCustomValidate(startDate: DateArg, endDate: DateArg, nowAtStart: int, nowAtEnd: int): (r: Outcome)
    ensures r == DefaultCustomValidate(startDate, endDate, nowAtStart, nowAtEnd)
  {
    match ValidatePastDate(startDate, "start_date", nowAtStart)
    case Raised(e) => Raised(e)
    case Returned => ValidateFutureDate(endDate, "end_date", nowAtEnd)
  }

  /** With one clock reading, a budget is accepted exactly when
      `start_date <= now < end_date`. */
  lemma AcceptedWindow(startDate: DateArg, endDate: DateArg, now: int)
    requires startDate.DateTime? && endDate.DateTime?
    ensures DefaultCustomValidate(startDate, endDate, now, now).Returned? <==>
      startDate.wallClock <= now < endDate.wallClock
  {
  }

  /** When both dates are wrong the start date is the one reported. */
  lemma StartReportedFirst(startDate: DateArg, endDate: DateArg, nowAtStart: int, nowAtEnd: int)
    requires startDate.DateTime? && startDate.wallClock > nowAtStart
    requires endDate.DateTime? && nowAtEnd >= endDate.wallClock
    ensures DefaultCustomValidate(startDate, endDate, nowAtStart, nowAtEnd) == Raised(DateError("start_date", PastMessage))
  {
  }

  /** If the clock does not go back between the two checks, an accepted
      budget starts strictly before it ends. */
  lemma AcceptedIsOrdered(startDate: DateArg, endDate: DateArg, nowAtStart: int, nowAtEnd: int)
    requires startDate.DateTime? && endDate.DateTime? && nowAtStart <= nowAtEnd
    requires DefaultCustomValidate(startDate, endDate, nowAtStart, nowAtEnd).Returned?
    ensures startDate.wallClock < endDate.wallClock
  {
  }

  /** An update that sets neither date is accepted. */
  lemma UpdateWithoutDatesAccepted(nowAtStart: int, nowAtEnd: int)
    ensures UpdateCustomValidate(NotDateTime, NotDateTime, nowAtStart, nowAtEnd) == Returned
  {
  }
}
