/**
 * `custom_validate` of the goal schemas (src/schemas/goals.py): a deadline
 * must lie strictly in the future.
 */
module Goals {
  import opened BaseSchema
  import Wrappers

  /** `GoalDefault.custom_validate(deadline)`. */
  function DefaultCustomValidate(deadline: DateArg, now: int): (r: Outcome)
    ensures r.Raised? <==> deadline.DateTime? && deadline.wallClock <= now
    ensures r.Raised? ==> r.exception == DateError("deadline", FutureMessage)
  {
    ValidateFutureDate(deadline, "deadline", now)
  }

  /** `GoalUpdate.custom_validate(deadline)`; the field defaults to `None`. */
  function UpdateCustomValidate(deadline: DateArg, now: int): (r: Outcome)
    ensures r == DefaultCustomValidate(deadline, now)
    ensures deadline.NotDateTime? ==> r == Returned
  {
    ValidateFutureDate(deadline, "deadline", now)
  }

  /** A deadline of exactly now is already too late. */
  lemma DeadlineNowRejected(now: int, tz: Wrappers.Option<int>)
    ensures DefaultCustomValidate(DateTime(now, tz), now) == Raised(DateError("deadline", FutureMessage))
  {
  }
}
