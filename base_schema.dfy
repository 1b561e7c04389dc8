/**
 * The date checks shared by the schemas (src/schemas/base.py). The current
 * time, `datetime.utcnow()`, is a parameter `now`; a datetime is its
 * wall-clock reading as an integer (microseconds on a fixed epoch) plus the
 * UTC offset an aware datetime carries. Each check drops the offset without
 * converting, compares exactly, and either returns or raises a
 * `ValidationException` located at `["body", field_name]`.
 */
module BaseSchema {
  import opened Wrappers
  import Errors

  /** The value handed to a check: a `datetime`, or anything else (`None`). */
  datatype DateArg = DateTime(wallClock: int, tzOffset: Option<int>) | NotDateTime

  /** A check either returns `None` or raises. */
  datatype Outcome = Returned | Raised(exception: Errors.AppException)

  const PastMessage := "Date should be in the past"
  const FutureMessage := "Date should be in the future"
  /** `f"{type(date)}"` of a `datetime`. */
  const DateTimeTypeName := "<class 'datetime.datetime'>"

  /** The exception a failed check raises. */
  function DateError(fieldName: string, msg: string): (e: Errors.AppException)
    ensures e.ValidationException? && Errors.Status(e) == 422
    ensures e.errors.loc == [Errors.LocStr("body"), Errors.LocStr(fieldName)] && e.errors.msg == msg
  {
    Errors.ValidationException(Errors.ValidationExceptionDetail(
      [Errors.LocStr("body"), Errors.LocStr(fieldName)], msg, DateTimeTypeName))
  }

  /** `date.replace(tzinfo=None)`: the same wall-clock reading, now naive. */
  function DropTz(date: DateArg): (r: DateArg)
    ensures date.DateTime? <==> r.DateTime?
    ensures r.DateTime? ==> r.wallClock == date.wallClock && r.tzOffset.None?
  {
    if date.DateTime? then DateTime(date.wallClock, None) else date
  }

  /** `validate_past_data(date, field_name)`: rejects a datetime later than
      now, and only that. */
  function ValidatePastDate(date: DateArg, fieldName: string, now: int): (r: Outcome)
    ensures r.Raised? <==> date.DateTime? && date.wallClock > now
    ensures r.Raised? ==> r.exception == DateError(fieldName, PastMessage)
  {
    if date.DateTime? then
      var d := DropTz(date);
      if d.wallClock > now then Raised(DateError(fieldName, PastMessage)) else Returned
    else Returned
  }

  /** `validate_future_date(date, field_name)`: rejects a datetime at or
      before now, and only that. */
  function ValidateFutureDate(date: DateArg, fieldName: string, now: int): (r: Outcome)
    ensures r.Raised? <==> date.DateTime? && now >= date.wallClock
    ensures r.Raised? ==> r.exception == DateError(fieldName, FutureMessage)
  {
    if date.DateTime? then
      var d := DropTz(date);
      if now >= d.wallClock then Raised(DateError(fieldName, FutureMessage)) else Returned
    else Returned
  }

  /** At the boundary the past check accepts and the future check rejects. */
  lemma BoundaryAtNow(now: int, tz: Option<int>, f: string)
    ensures ValidatePastDate(DateTime(now, tz), f, now) == Returned
    ensures ValidateFutureDate(DateTime(now, tz), f, now) == Raised(DateError(f, FutureMessage))
  {
  }

  /** For a fixed now, every datetime passes exactly one of the two checks. */
  lemma ExactlyOneCheckPasses(date: DateArg, f: string, g: string, now: int)
    requires date.DateTime?
    ensures ValidatePastDate(date, f, now).Returned? != ValidateFutureDate(date, g, now).Returned?
  {
  }

  /** A value that is not a datetime is never rejected. */
  lemma NonDateTimeAccepted(f: string, now: int)
    ensures ValidatePastDate(NotDateTime, f, now) == Returned
    ensures ValidateFutureDate(NotDateTime, f, now) == Returned
  {
  }

  /** The offset of an aware datetime plays no part: only the wall-clock
      reading is compared with the naive UTC now. */
  lemma OffsetIgnored(w: int, tz1: Option<int>, tz2: Option<int>, f: string, now: int)
    ensures ValidatePastDate(DateTime(w, tz1), f, now) == ValidatePastDate(DateTime(w, tz2), f, now)
    ensures ValidateFutureDate(DateTime(w, tz1), f, now) == ValidateFutureDate(DateTime(w, tz2), f, now)
  {
  }
}
