/**
 * The exception catalogue of the API (src/errors.py): four exception
 * classes, each with a fixed HTTP status, a detail, a `json()` rendering
 * and a `response()` OpenAPI entry; the handlers that turn a raised
 * exception into its `json()`; and `error_responses`, which merges the
 * entries of several classes into one status-keyed map.
 */
module Errors {
  import opened Wrappers
  import opened Json
  import PyStr
  import PyDict

  // Status codes of RFC 9110: section 15.5.1 (400), 15.5.2 (401),
  // 15.5.5 (404) and 15.5.21 (422).
  const HTTP_400_BAD_REQUEST := 400
  const HTTP_401_UNAUTHORIZED := 401
  const HTTP_404_NOT_FOUND := 404
  const HTTP_422_UNPROCESSABLE_ENTITY := 422

  /** An element of a validation error's `loc`: `Union[str, int]`. */
  datatype LocItem = LocStr(s: string) | LocInt(i: int)

  /** `ValidationExceptionDetail(loc, msg, type)`. */
  datatype ValidationExceptionDetail = ValidationExceptionDetail(loc: seq<LocItem>, msg: string, typeName: string)

  /** The exception classes themselves (what `error_responses` is given). */
  datatype ExceptionClass = NotFoundClass | ValidationClass | AuthorizationClass | BadRequestClass

  /** A raised exception: its class and the `detail` its constructor stored. */
  datatype AppException =
    | NotFoundException(detail: string)
    | ValidationException(errors: ValidationExceptionDetail)
    | AuthorizationException(detail: string)
    | BadRequestException(detail: string)

  /** The class attribute `status`. */
  function ClassStatus(c: ExceptionClass): int {
    match c
    case NotFoundClass => HTTP_404_NOT_FOUND
    case ValidationClass => HTTP_422_UNPROCESSABLE_ENTITY
    case AuthorizationClass => HTTP_401_UNAUTHORIZED
    case BadRequestClass => HTTP_400_BAD_REQUEST
  }

  function ClassOf(e: AppException): ExceptionClass {
    match e
    case NotFoundException(_) => NotFoundClass
    case ValidationException(_) => ValidationClass
    case AuthorizationException(_) => AuthorizationClass
    case BadRequestException(_) => BadRequestClass
  }

  /** `self.status` of an instance. */
  function Status(e: AppException): int { ClassStatus(ClassOf(e)) }

  /** Every class has a client-error status, and no two classes share one. */
  lemma ClassStatusInjective(c1: ExceptionClass, c2: ExceptionClass)
    ensures 400 <= ClassStatus(c1) < 500
    ensures ClassStatus(c1) == ClassStatus(c2) <==> c1 == c2
  {
  }

  // ---- NotFoundException ----

  const NotFoundSuffix := "> not found."

  /** `f"{entity_name} <{entity_id}> not found."`; the name and the id can
      be read back from it. */
  function NotFoundDetail(entityName: string, entityId: int): (r: string)
    ensures ParseNotFoundDetail(r) == Some((entityName, entityId))
  {
    var body := entityName + " <" + PyStr.IntToStr(entityId);
    var r := body + NotFoundSuffix;
    NotFoundDetailParses(entityName, entityId, body, r);
    r
  }

  /** Reads a not-found detail back: the id is what stands between the last
      `<` and the closing `> not found.`, the name what precedes ` <`. */
  function ParseNotFoundDetail(detail: string): Option<(string, int)> {
    var n := |NotFoundSuffix|;
    if |detail| < n || detail[|detail| - n..] != NotFoundSuffix then None
    else
      var body := detail[..|detail| - n];
      match PyStr.LastIndexOf(body, '<')
      case None => None
      case Some(k) =>
        if k == 0 || body[k - 1] != ' ' then None
        else match PyStr.ParseInt(body[k + 1..])
          case None => None
          case Some(id) => Some((body[..k - 1], id))
  }

  lemma NotFoundDetailParses(entityName: string, entityId: int, body: string, r: string)
    requires body == entityName + " <" + PyStr.IntToStr(entityId)
    requires r == body + NotFoundSuffix
    ensures ParseNotFoundDetail(r) == Some((entityName, entityId))
  {
    var digits := PyStr.IntToStr(entityId);
    var k := |entityName| + 1;
    assert r[..|r| - |NotFoundSuffix|] == body;
    assert r[|r| - |NotFoundSuffix|..] == NotFoundSuffix;
    assert body[k] == '<';
    forall i | k < i < |body| ensures body[i] != '<' {
      assert body[i] == digits[i - k - 1];
    }
    LastIndexOfAt(body, '<', k);
    assert body[k - 1] == ' ';
    assert body[k + 1..] == digits;
    assert body[..k - 1] == entityName;
    PyStr.ParseIntToStr(entityId);
  }

  lemma LastIndexOfAt(s: string, c: char, k: nat)
    requires k < |s| && s[k] == c
    requires forall i :: k < i < |s| ==> s[i] != c
    ensures PyStr.LastIndexOf(s, c) == Some(k)
  {
    var r := PyStr.LastIndexOf(s, c);
    assert r.Some?;
  }

  /** `NotFoundException(entity_name, entity_id)`. */
  function NewNotFoundException(entityName: string, entityId: int): (e: AppException)
    ensures e.NotFoundException? && Status(e) == 404
    ensures ParseNotFoundDetail(e.detail) == Some((entityName, entityId))
  {
    NotFoundException(NotFoundDetail(entityName, entityId))
  }

  // ---- json() ----

  /** `ValidationExceptionDetail.dict()`. */
  function ValidationDetailJson(d: ValidationExceptionDetail): Json {
    JObject(map["loc" := JArray(LocJson(d.loc)), "msg" := JStr(d.msg), "type" := JStr(d.typeName)])
  }

  function LocJson(loc: seq<LocItem>): (r: seq<Json>)
    ensures |r| == |loc|
  {
    if loc == [] then []
    else LocJson(loc[..|loc| - 1]) + [match loc[|loc| - 1] case LocStr(s) => JStr(s) case LocInt(i) => JInt(i)]
  }

  /** Reads a `loc` list back from its JSON form. */
  function LocFromJson(items: seq<Json>): Option<seq<LocItem>> {
    if items == [] then Some([])
    else match LocFromJson(items[..|items| - 1])
      case None => None
      case Some(init) =>
        match items[|items| - 1]
        case JStr(s) => Some(init + [LocStr(s)])
        case JInt(i) => Some(init + [LocInt(i)])
        case _ => None
  }

  lemma {:induction false} LocRoundTrip(loc: seq<LocItem>)
    ensures LocFromJson(LocJson(loc)) == Some(loc)
  {
    if loc != [] {
      var items := LocJson(loc);
      assert items[..|items| - 1] == LocJson(loc[..|loc| - 1]);
      LocRoundTrip(loc[..|loc| - 1]);
      assert loc == loc[..|loc| - 1] + [loc[|loc| - 1]];
    }
  }

  function ValidationDetailFromJson(j: Json): Option<ValidationExceptionDetail> {
    if j.JObject? && j.fields.Keys == {"loc", "msg", "type"}
       && j.fields["loc"].JArray? && j.fields["msg"].JStr? && j.fields["type"].JStr?
    then match LocFromJson(j.fields["loc"].items)
      case None => None
      case Some(loc) => Some(ValidationExceptionDetail(loc, j.fields["msg"].s, j.fields["type"].s))
    else None
  }

  /** The JSON form of a validation detail gives the detail back. */
  lemma ValidationDetailRoundTrip(d: ValidationExceptionDetail)
    ensures ValidationDetailFromJson(ValidationDetailJson(d)) == Some(d)
  {
    LocRoundTrip(d.loc);
  }

  /** The value under `"detail"` in the body of `json()`. */
  function DetailJson(e: AppException): Json {
    match e
    case ValidationException(d) => ValidationDetailJson(d)
    case _ => JStr(e.detail)
  }

  /** `exc.json()`: status `exc.status`, body `{"detail": …}`. The response
      carries the whole exception: reading it back gives `exc` again. */
  function ToJson(e: AppException): (r: JsonResponse)
    ensures r.statusCode == Status(e)
    ensures r.content.JObject? && r.content.fields.Keys == {"detail"}
    ensures FromJson(r) == Some(e)
  {
    DetailJsonRoundTrip(e);
    JsonResponse(Status(e), Single("detail", DetailJson(e)))
  }

  lemma DetailJsonRoundTrip(e: AppException)
    ensures e.ValidationException? ==> ValidationDetailFromJson(DetailJson(e)) == Some(e.errors)
  {
    if e.ValidationException? { ValidationDetailRoundTrip(e.errors); }
  }

  /** What a client can read from an error response: the exception whose
      class has the response's status and whose detail is its body's. */
  function FromJson(r: JsonResponse): Option<AppException> {
    if !(r.content.JObject? && r.content.fields.Keys == {"detail"}) then None
    else
      var d := r.content.fields["detail"];
      if r.statusCode == HTTP_422_UNPROCESSABLE_ENTITY then
        match ValidationDetailFromJson(d)
        case None => None
        case Some(v) => Some(ValidationException(v))
      else if !d.JStr? then None
      else if r.statusCode == HTTP_404_NOT_FOUND then Some(NotFoundException(d.s))
      else if r.statusCode == HTTP_401_UNAUTHORIZED then Some(AuthorizationException(d.s))
      else if r.statusCode == HTTP_400_BAD_REQUEST then Some(BadRequestException(d.s))
      else None
  }

  // ---- response() ----

  function Description(c: ExceptionClass): string {
    match c
    case NotFoundClass => "Entity not found"
    case ValidationClass => "Validation error"
    case AuthorizationClass => "Authorization error"
    case BadRequestClass => "Bad request error"
  }

  /** The example body shown in the OpenAPI entry. */
  function Example(c: ExceptionClass): Json {
    match c
    case ValidationClass =>
      Single("detail", ValidationDetailJson(ValidationExceptionDetail([LocStr("body"), LocStr("string")], "string", "Type[]")))
    case _ => Single("detail", JStr("string"))
  }

  /** `cls.response()`: a map with the one key `cls.status`. */
  function Response(c: ExceptionClass): (r: map<int, Json>)
    ensures r.Keys == {ClassStatus(c)}
    ensures EntryDescription(r[ClassStatus(c)]) == Description(c)
    ensures EntryExample(r[ClassStatus(c)]) == Example(c)
  {
    map[ClassStatus(c) := ResponseEntry(Description(c), Example(c))]
  }

  // ---- handlers ----

  /** Every handler answers with `exc.json()` itself. */
  function ValidationExceptionHandler(exc: AppException): (r: JsonResponse)
    ensures r == ToJson(exc) && r.statusCode == Status(exc) && FromJson(r) == Some(exc)
  {
    ToJson(exc)
  }

  function NotFoundExceptionHandler(exc: AppException): (r: JsonResponse)
    ensures r == ToJson(exc) && r.statusCode == Status(exc) && FromJson(r) == Some(exc)
  {
    ToJson(exc)
  }

  function AuthorizationExceptionHandler(exc: AppException): (r: JsonResponse)
    ensures r == ToJson(exc) && r.statusCode == Status(exc) && FromJson(r) == Some(exc)
  {
    ToJson(exc)
  }

  function BadRequestExceptionHandler(exc: AppException): (r: JsonResponse)
    ensures r == ToJson(exc) && r.statusCode == Status(exc) && FromJson(r) == Some(exc)
  {
    ToJson(exc)
  }

  // ---- error_responses ----

  /** The `response()` maps of the given classes, in argument order. */
  function Responses(errors: seq<ExceptionClass>): (r: seq<map<int, Json>>)
    ensures |r| == |errors|
    ensures forall i :: 0 <= i < |errors| ==> r[i] == Response(errors[i])
  {
    if errors == [] then [] else Responses(errors[..|errors| - 1]) + [Response(errors[|errors| - 1])]
  }

  /** `error_responses(*errors)`: `responses.update(error.response())` for
      each class in turn. Its keys are the classes' statuses, and each
      status maps to the entry of the last class that has it. */
  method ErrorResponses(errors: seq<ExceptionClass>) returns (responses: map<int, Json>)
    ensures responses == PyDict.UpdateAll(Responses(errors))
    ensures responses.Keys == set c | c in errors :: ClassStatus(c)
    ensures forall c :: c in errors ==> responses[ClassStatus(c)] == Response(c)[ClassStatus(c)]
  {
    responses := map[];
    var i := 0;
    while i < |errors|
      invariant 0 <= i <= |errors|
      invariant responses == PyDict.UpdateAll(Responses(errors[..i]))
    {
      assert Responses(errors[..i + 1])[..i] == Responses(errors[..i]);
      responses := responses + Response(errors[i]);
      i := i + 1;
    }
    assert errors[..i] == errors;
    ErrorResponsesLookup(errors);
  }

  lemma ErrorResponsesLookup(errors: seq<ExceptionClass>)
    ensures PyDict.UpdateAll(Responses(errors)).Keys == set c | c in errors :: ClassStatus(c)
    ensures forall c :: c in errors ==>
      PyDict.UpdateAll(Responses(errors))[ClassStatus(c)] == Response(c)[ClassStatus(c)]
  {
    ErrorResponsesKeys(errors);
    forall c | c in errors ensures ClassStatus(c) in PyDict.UpdateAll(Responses(errors))
      && PyDict.UpdateAll(Responses(errors))[ClassStatus(c)] == Response(c)[ClassStatus(c)] {
      ErrorResponsesAt(errors, c);
    }
  }

  lemma ErrorResponsesKeys(errors: seq<ExceptionClass>)
    ensures PyDict.UpdateAll(Responses(errors)).Keys == set c | c in errors :: ClassStatus(c)
  {
    var r := PyDict.UpdateAll(Responses(errors));
    forall k | k in r ensures k in set c | c in errors :: ClassStatus(c) {
      MergedKeyIsStatus(errors, k);
    }
    forall c | c in errors ensures ClassStatus(c) in r {
      ErrorResponsesAt(errors, c);
    }
  }

  lemma MergedKeyIsStatus(errors: seq<ExceptionClass>, k: int)
    requires k in PyDict.UpdateAll(Responses(errors))
    ensures k in set c | c in errors :: ClassStatus(c)
  {
    var ms := Responses(errors);
    PyDict.UpdateAllKeys(ms);
    var j :| 0 <= j < |ms| && k in ms[j];
    assert ms[j] == Response(errors[j]);
    assert k == ClassStatus(errors[j]);
  }

  lemma ErrorResponsesAt(errors: seq<ExceptionClass>, c: ExceptionClass)
    requires c in errors
    ensures ClassStatus(c) in PyDict.UpdateAll(Responses(errors))
    ensures PyDict.UpdateAll(Responses(errors))[ClassStatus(c)] == Response(c)[ClassStatus(c)]
  {
    var ms := Responses(errors);
    var k := ClassStatus(c);
    var i :| 0 <= i < |errors| && errors[i] == c;
    assert k in ms[i];
    var j := LastIndexWith(ms, k, i);
    assert k in Response(errors[j]);
    ClassStatusInjective(errors[j], c);
    PyDict.UpdateAllLaterWins(ms, j, k);
  }

  /** The last position, at or after `from`, of a map that has key `k`. */
  lemma LastIndexWith(ms: seq<map<int, Json>>, k: int, from: int) returns (j: int)
    requires 0 <= from < |ms| && k in ms[from]
    ensures from <= j < |ms| && PyDict.LastWith(ms, j, k)
    decreases |ms| - from
  {
    if exists j' :: from < j' < |ms| && k in ms[j'] {
      var j' :| from < j' < |ms| && k in ms[j'];
      j := LastIndexWith(ms, k, j');
    } else {
      j := from;
    }
  }
}
