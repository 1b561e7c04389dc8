/**
 * JSON values as the web framework serialises them, the `JSONResponse`
 * (status code and body) the exception classes build, and the OpenAPI
 * response entry their `response()` class methods return.
 */
module Json {

  datatype Json =
    | JStr(s: string)
    | JInt(i: int)
    | JArray(items: seq<Json>)
    | JObject(fields: map<string, Json>)

  /** `JSONResponse(status_code=…, content=…)`. */
  datatype JsonResponse = JsonResponse(statusCode: int, content: Json)

  /** The one-field object `{key: value}`. */
  function Single(key: string, value: Json): (r: Json)
    ensures r.JObject? && r.fields.Keys == {key} && r.fields[key] == value
  {
    JObject(map[key := value])
  }

  /** `{"description": description, "content": {"application/json": {"example": example}}}`. */
  function ResponseEntry(description: string, example: Json): (r: Json)
    ensures EntryDescription(r) == description && EntryExample(r) == example
  {
    JObject(map[
      "description" := JStr(description),
      "content" := Single("application/json", Single("example", example))])
  }

  /** What an OpenAPI reader shows as the entry's description ("" if none). */
  function EntryDescription(entry: Json): string {
    if entry.JObject? && "description" in entry.fields && entry.fields["description"].JStr?
    then entry.fields["description"].s else ""
  }

  /** What an OpenAPI reader shows as the entry's example (`{}` if none). */
  function EntryExample(entry: Json): Json {
    if entry.JObject? && "content" in entry.fields
       && entry.fields["content"].JObject? && "application/json" in entry.fields["content"].fields
       && entry.fields["content"].fields["application/json"].JObject?
       && "example" in entry.fields["content"].fields["application/json"].fields
    then entry.fields["content"].fields["application/json"].fields["example"]
    else JObject(map[])
  }
}
