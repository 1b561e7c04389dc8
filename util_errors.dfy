/**
 * The second exception catalogue (src/utils/errors.py), the one the
 * routers and the application's handler registration use: its own
 * `NotFoundException` (404) and `ValidationException` (422) classes with
 * the same detail, `json()` and `response()` shapes as in `Errors`, two
 * handlers, its own `error_responses`, and `handle_not_found_error`.
 */
module UtilErrors {
  import opened Wrappers
  import opened Json
  import Errors
  import PyDict

  datatype ExceptionClass = NotFoundClass | ValidationClass

  datatype UtilException =
    | NotFoundException(detail: string)
    | ValidationException(errors: Errors.ValidationExceptionDetail)

  /** The class attribute `status`, written as a literal in this file. */
  function ClassStatus(c: ExceptionClass): int {
    match c
    case NotFoundClass => 404
    case ValidationClass => 422
  }

  function Status(e: UtilException): int {
    if e.NotFoundException? then ClassStatus(NotFoundClass) else ClassStatus(ValidationClass)
  }

  /** Both classes carry the same status as their namesakes in `Errors`. */
  lemma SameStatusesAsErrors()
    ensures ClassStatus(NotFoundClass) == Errors.ClassStatus(Errors.NotFoundClass)
    ensures ClassStatus(ValidationClass) == Errors.ClassStatus(Errors.ValidationClass)
    ensures ClassStatus(NotFoundClass) != ClassStatus(ValidationClass)
  {
  }

  /** `NotFoundException(entity_name, entity_id)`: detail
      `"<name> <<id>> not found."`, from which name and id read back. */
  function NewNotFoundException(entityName: string, entityId: int): (e: UtilException)
    ensures e.NotFoundException? && Status(e) == 404
    ensures Errors.ParseNotFoundDetail(e.detail) == Some((entityName, entityId))
  {
    NotFoundException(Errors.NotFoundDetail(entityName, entityId))
  }

  /** The same exception seen as one of the `Errors` catalogue. */
  function AsAppException(e: UtilException): (r: Errors.AppException)
    ensures Errors.Status(r) == Status(e)
  {
    match e
    case NotFoundException(d) => Errors.NotFoundException(d)
    case ValidationException(v) => Errors.ValidationException(v)
  }

  /** `exc.json()`: status `exc.status` and body `{"detail": …}`, the
      validation record as a `loc`/`msg`/`type` object. */
  function ToJson(e: UtilException): (r: JsonResponse)
    ensures r.statusCode == Status(e)
    ensures r.content.JObject? && r.content.fields.Keys == {"detail"}
    ensures e.ValidationException? ==>
      Errors.ValidationDetailFromJson(r.content.fields["detail"]) == Some(e.errors)
    ensures e.NotFoundException? ==> r.content.fields["detail"] == JStr(e.detail)
    ensures FromJson(r) == Some(e)
  {
    Errors.DetailJsonRoundTrip(AsAppException(e));
    JsonResponse(Status(e), Single("detail", Errors.DetailJson(AsAppException(e))))
  }

  /** Reads an exception of this catalogue back from its response. */
  function FromJson(r: JsonResponse): Option<UtilException> {
    var e := Errors.FromJson(r);
    if e.Some? && e.value.NotFoundException? then Some(NotFoundException(e.value.detail))
    else if e.Some? && e.value.ValidationException? then Some(ValidationException(e.value.errors))
    else None
  }

  function Description(c: ExceptionClass): string {
    if c == NotFoundClass then "Entity not found" else "Validation error"
  }

  /** `cls.response()`: one key, `cls.status`, with the same entry as the
      namesake class in `Errors`. */
  function Response(c: ExceptionClass): (r: map<int, Json>)
    ensures r.Keys == {ClassStatus(c)}
    ensures EntryDescription(r[ClassStatus(c)]) == Description(c)
    ensures r == Errors.Response(if c == NotFoundClass then Errors.NotFoundClass else Errors.ValidationClass)
  {
    var example := if c == NotFoundClass then Errors.Example(Errors.NotFoundClass) else Errors.Example(Errors.ValidationClass);
    map[ClassStatus(c) := ResponseEntry(Description(c), example)]
  }

  function ValidationExceptionHandler(exc: UtilException): (r: JsonResponse)
    ensures r == ToJson(exc) && r.statusCode == Status(exc) && FromJson(r) == Some(exc)
  {
    ToJson(exc)
  }

  function NotFoundExceptionHandler(exc: UtilException): (r: JsonResponse)
    ensures r == ToJson(exc) && r.statusCode == Status(exc) && FromJson(r) == Some(exc)
  {
    ToJson(exc)
  }

  /** The namesake class in `Errors`. */
  function ErrorsClass(c: ExceptionClass): (r: Errors.ExceptionClass)
    ensures Errors.ClassStatus(r) == ClassStatus(c)
    ensures Errors.Response(r) == Response(c)
  {
    if c == NotFoundClass then Errors.NotFoundClass else Errors.ValidationClass
  }

  function ErrorsClasses(errors: seq<ExceptionClass>): (r: seq<Errors.ExceptionClass>)
    ensures |r| == |errors|
    ensures forall i :: 0 <= i < |errors| ==> r[i] == ErrorsClass(errors[i])
  {
    seq(|errors|, i requires 0 <= i < |errors| => ErrorsClass(errors[i]))
  }

  /** The `response()` maps of the given classes, in argument order: those
      of their namesakes in `Errors`. */
  function Responses(errors: seq<ExceptionClass>): (r: seq<map<int, Json>>)
    ensures |r| == |errors|
    ensures forall i :: 0 <= i < |errors| ==> r[i] == Response(errors[i])
  {
    Errors.Responses(ErrorsClasses(errors))
  }

  /** `error_responses(*errors)`: a left fold of `dict.update` over the
      classes' `response()` maps. */
  method ErrorResponses(errors: seq<ExceptionClass>) returns (responses: map<int, Json>)
    ensures responses == PyDict.UpdateAll(Responses(errors))
    ensures responses.Keys == set c | c in errors :: ClassStatus(c)
    ensures forall c :: c in errors ==> responses[ClassStatus(c)] == Response(c)[ClassStatus(c)]
  {
    responses := map[];
    var i := 0;
    while i < |errors|
      invariant 0 <= i <= |errors|
      invariant responses == PyDict.UpdateAll(Responses(errors[..i]))
    {
      assert Responses(errors[..i + 1])[..i] == Responses(errors[..i]);
      responses := responses + Response(errors[i]);
      i := i + 1;
    }
    assert errors[..i] == errors;
    ErrorResponsesLookup(errors);
  }

  /** The fold's keys are the statuses of the classes given, each holding
      its class's entry: the same fold as for the namesakes in `Errors`. */
  lemma ErrorResponsesLookup(errors: seq<ExceptionClass>)
    ensures PyDict.UpdateAll(Responses(errors)).Keys == set c | c in errors :: ClassStatus(c)
    ensures forall c :: c in errors ==>
      PyDict.UpdateAll(Responses(errors))[ClassStatus(c)] == Response(c)[ClassStatus(c)]
  {
    var es := ErrorsClasses(errors);
    assert Responses(errors) == Errors.Responses(es);
    Errors.ErrorResponsesLookup(es);
    SameStatusSets(errors);
    forall c | c in errors ensures ErrorsClass(c) in es {
      var i :| 0 <= i < |errors| && errors[i] == c;
      assert es[i] == ErrorsClass(c);
    }
  }

  lemma SameStatusSets(errors: seq<ExceptionClass>)
    ensures (set e | e in ErrorsClasses(errors) :: Errors.ClassStatus(e)) == set c | c in errors :: ClassStatus(c)
  {
    var es := ErrorsClasses(errors);
    var theirs := set e | e in es :: Errors.ClassStatus(e);
    var ours := set c | c in errors :: ClassStatus(c);
    forall k | k in theirs ensures k in ours {
      var e :| e in es && Errors.ClassStatus(e) == k;
      var i :| 0 <= i < |es| && es[i] == e;
      assert errors[i] in errors;
    }
    forall k | k in ours ensures k in theirs {
      var c :| c in errors && ClassStatus(c) == k;
      var i :| 0 <= i < |errors| && errors[i] == c;
      assert es[i] in es;
    }
  }

  /** What `handle_not_found_error` does: return, or raise
      `NotImplementedError` (the `NotFoundException` it builds first is
      dropped without being raised). */
  datatype HandleOutcome = Returned | RaisedNotImplementedError

  /** `handle_not_found_error(entity_id, entity_name, entity)`: `None` is
      falsy and raises; an entity model instance is truthy and returns. */
  function HandleNotFoundError<E>(entityId: int, entityName: string, entity: Option<E>): (r: HandleOutcome)
    ensures r == RaisedNotImplementedError <==> entity.None?
    ensures r == Returned <==> entity.Some?
  {
    if entity.None? then
      var _ := NewNotFoundException(entityName, entityId);
      RaisedNotImplementedError
    else Returned
  }
}
