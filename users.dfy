/**
 * `custom_validate` of the user schemas (src/schemas/users.py): a birth
 * date must not lie in the future.
 */
module Users {
  import opened BaseSchema
  import Wrappers

  /** `UserDefault.custom_validate(birth_date)`. */
  function DefaultCustomValidate(birthDate: DateArg, now: int): (r: Outcome)
    ensures r.Raised? <==> birthDate.DateTime? && birthDate.wallClock > now
    ensures r.Raised? ==> r.exception == DateError("birth_date", PastMessage)
  {
    ValidatePastDate(birthDate, "birth_date", now)
  }

  /** `UserUpdate.custom_validate(birth_date)`; the field defaults to `None`. */
  function UpdateCustomValidate(birthDate: DateArg, now: int): (r: Outcome)
    ensures r == DefaultCustomValidate(birthDate, now)
    ensures birthDate.NotDateTime? ==> r == Returned
  {
    ValidatePastDate(birthDate, "birth_date", now)
  }

  /** Someone born at this very instant is accepted. */
  lemma BornNowAccepted(now: int, tz: Wrappers.Option<int>)
    ensures DefaultCustomValidate(DateTime(now, tz), now) == Returned
  {
  }
}
