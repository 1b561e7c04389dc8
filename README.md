# finance-manager-app: scraper pipeline, schema date checks and error catalogue

This project models three parts of the finance-manager backend in Dafny.

- **The article scraper** (`parser/fetch.py`):
  - the listing collector, which scrolls a page, re-scrapes every summary card after each scroll, keeps each link the first time it is seen and cuts the result to the requested count;
  - the detail fetcher, which turns one article request into a `DetailedPost`: an error-tagged record, or a title/text record whose text is the non-empty paragraphs joined by blank lines;
  - the gather, which appends exactly one result per post to a shared output list.
- **The date checks of the schemas**:
  - `validate_past_data` and `validate_future_date` (`src/schemas/base.py`);
  - the `custom_validate` methods built on them, for budgets, users and goals.
- **The two exception catalogues** (`src/errors.py` and `src/utils/errors.py`):
  - the exception classes, each with its status, detail, `json()` rendering and `response()` OpenAPI entry;
  - the handlers;
  - `error_responses`, which folds `dict.update` over the classes' entries;
  - `handle_not_found_error`.

How the environment is represented:

- **The browser** is the page height read before the first scroll and one snapshot per scroll. A snapshot holds the new height and the cards then on the page. When the snapshots run out, the page is taken to have stopped growing.
- **The HTML library** is what it selects. An element is the list of its descendant text strings. `get_text(strip=True)` strips each string (Python's `str.isspace` set, written out), drops the empty ones and concatenates the rest.
- **The network** is the outcome of each request: an exception given by its `str`, or the selected parts of the received page.
- **The clock** (`datetime.utcnow()`) is a parameter. A `datetime` is its wall-clock reading plus an optional UTC offset.

Modules: `Wrappers` (Option, Result), `PyStr` (`strip`, `join`, `str(int)` and its inverse), `PyDict` (a fold of `dict.update`), `Json`, `Fetch`, `Errors`, `UtilErrors`, `BaseSchema`, `Budgets`, `Users`, `Goals`.

The two loops of `fetch_vc_money_posts_selenium` are methods, `Fetch.CollectPosts` and `Fetch.ScrapePage`. Each is proved against the function `Fetch.Collect` or `Fetch.AddPosts`/`Fetch.Candidates`.

- The gather's output list is the class `Fetch.DetailsOutput`, which `Fetch.BoundFetch` appends to.
- Each `error_responses` is a method whose loop is proved equal to a fold of map updates.
- Everything else is a function.

Behaviour of the code that the model keeps:

- A card whose title element and anchor are both present, but whose anchor has no `href` attribute, is not skipped, unlike a card without a title element or anchor. `link_tag["href"]` raises `KeyError`, which ends the whole collection. The model gives `Err(MissingHref)` for it (`Fetch.RunFailure`, `Fetch.ScrapePage`). On that path `driver.quit()` is never reached.
- `bad_request_exception_handler` is annotated with `AuthorizationException` (src/errors.py:122). The annotation has no effect; the handler renders whatever exception it gets, like the others.
- `handle_not_found_error` builds a `NotFoundException` and then raises `NotImplementedError` instead (src/utils/errors.py:98-102). It is modelled as written.

The two catalogues are separate classes, and only one of them has handlers:

- The application registers handlers only for `NotFoundException` and `ValidationException` of `src/utils/errors.py` (src/app.py:15-18).
- `src/errors.py` defines classes of the same names, and they are not subclasses of those. Its classes are raised by:
  - the date checks (src/schemas/base.py:23-30 and 40-47);
  - the auth, categories, goals, tags, transactions and parser routers.
- No registered handler matches an exception from `src/errors.py`. When the application raises one, FastAPI answers with its default 500 Internal Server Error, not the status and body of the exception's `json()`.
- The model states what each catalogue's `json()` and handlers produce (`Errors.ToJson`, `UtilErrors.ToJson`). It does not model the handler lookup.

## Model

| member | source | states |
|---|---|---|
| Fetch.GetText | parser/fetch.py:50 | `get_text(strip=True)` never starts or ends with whitespace |
| Fetch.StrippedStrings | parser/fetch.py:50 | every piece bs4 yields is a non-empty stripped string, and there are no more pieces than strings |
| Fetch.StrippedStringsMembers | parser/fetch.py:50 | the pieces are exactly the strings that are non-empty once stripped |
| Fetch.StrippedStringsConcat | parser/fetch.py:50 | the pieces of two runs of strings are the pieces of each, in order |
| PyStr.JoinMembers | parser/fetch.py:50 | a character is in `"".join(parts)` exactly when it is in one of the parts |
| Fetch.GetTextConcat | parser/fetch.py:50 | the text of an element is the text of its first strings followed by the text of the rest |
| Fetch.GetTextKeepsContent | parser/fetch.py:50 | every non-space character of the element's strings is in its text |
| Fetch.GetTextFromStrings | parser/fetch.py:50 | every character of the text comes from one of the element's strings |
| PyStr.Strip | parser/fetch.py:50 | `str.strip()` leaves no whitespace at either end |
| PyStr.StripKeepsContent | parser/fetch.py:50 | stripping removes only whitespace: it keeps every non-space character and adds none |
| PyStr.LStripSuffix | parser/fetch.py:50 | `lstrip` removes a run of leading whitespace and keeps the rest of the string |
| PyStr.RStripPrefix | parser/fetch.py:50 | `rstrip` removes a run of trailing whitespace and keeps the start of the string |
| PyStr.StripIdempotent | parser/fetch.py:50 | stripping a stripped string changes nothing |
| Fetch.CardPost | parser/fetch.py:49-51 | a card's title is the stripped text of its title element, and its link is `"https://vc.ru"` followed by its `href`, so it always starts with the origin |
| Fetch.CandidatesFromCards | parser/fetch.py:46-51 | the candidates are exactly the posts of the cards of the page that have a title, an anchor and an `href`: every such card yields its post, and no other post appears |
| Fetch.ScrapePage | parser/fetch.py:45-54 | one pass over the cards fails exactly when a listed card lacks `href`; otherwise it appends each new link's post in card order, and `posts_seen` stays the set of links of `posts` |
| Fetch.CollectPosts | parser/fetch.py:31-60 | the scroll loop returns what the step-by-step specification `Collect` gives; on success the posts have distinct links and at most `desired_count` of them |
| Fetch.RunIsDedup | parser/fetch.py:36-57 | a successful session's raw list is the first-seen deduplication of the cards of the first `k` scrapes, where `k` is fixed by the stop rule: no more scrapes than scrolls that grow the page, every earlier scrape left fewer than `desired_count` posts, and stopping before the page stalls means `desired_count` was reached |
| Fetch.DedupFirstSeen | parser/fetch.py:52-54 | the `posts_seen` filter keeps, for each link, its first post, in the order those links first appear, and loses no link |
| Fetch.CollectFirstSeen | parser/fetch.py:31-60 | `k` being the number of scrapes the stop rule allows, the result has distinct links in first-seen order over the first `k` scrapes; when fewer than `desired_count` come back, every link those scrapes saw is in it |
| Fetch.CollectFromCards | parser/fetch.py:46-54 | every returned post is the post of a scrapable card of some snapshot |
| Fetch.CollectBounds | parser/fetch.py:36-60 | a non-positive `desired_count` gives `[]`; otherwise at most `desired_count` posts come back |
| Fetch.CollectCountExit | parser/fetch.py:56-60 | when enough posts were gathered, exactly the first `desired_count` are returned, even after an overshooting scrape |
| Fetch.CollectStalled | parser/fetch.py:40-42 | if the first scroll does not change the height, nothing is scraped and `[]` is returned |
| Fetch.CollectThreeOfFive | parser/fetch.py:36-60 | asking for 5 posts from a page of 3 distinct linked cards that stops growing returns those 3, in page order |
| Fetch.CollectFailure | parser/fetch.py:51 | the collector fails only when some scrape holds a listed card whose anchor lacks `href` |
| Fetch.TextBlocks | parser/fetch.py:85 | the text blocks are non-empty and trimmed, and there are no more of them than paragraphs |
| Fetch.TextBlocksMembers | parser/fetch.py:85 | the blocks are exactly the non-empty paragraph texts |
| Fetch.TextBlocksEmpty | parser/fetch.py:85 | there is no block exactly when every paragraph's text is empty |
| Fetch.TextBlocksConcat | parser/fetch.py:84-85 | the blocks of two runs of paragraphs are the blocks of each, concatenated |
| Fetch.BodyText | parser/fetch.py:86 | the joined text is empty exactly when there is no block, and never starts or ends with whitespace |
| PyStr.JoinConcat | parser/fetch.py:86 | joining two non-empty lists puts exactly one separator between the two joins |
| Fetch.BodyTextConcat | parser/fetch.py:84-86 | the text of two runs of paragraphs is the text of each, with one `"\n\n"` between them when both are non-empty |
| Fetch.ExtractorExample | parser/fetch.py:79-88 | title `A` with paragraphs `<p> Hi </p><p></p>` gives title `"A"` and text `"Hi"` |
| Fetch.FetchPostDetails | parser/fetch.py:71-88 | `link` is always the URL; exactly one of `text` and `error` is set; a failed request gives `"Request failed: "` + cause, with no title and no text; a received page gives no error, the joined paragraphs as text, and, exactly when a title element was found, that element's stripped text as title |
| Fetch.FetchErrorIffFailed | parser/fetch.py:72-77 | a result carries an error exactly when its request failed, and the error starts with `"Request failed: "` |
| Fetch.FetchEmptyPage | parser/fetch.py:84-88 | a received page without paragraph text gives the text `""`, not `None` |
| Fetch.DetailsOutput.constructor | parser/fetch.py:93 | the output list starts empty |
| Fetch.BoundFetch | parser/fetch.py:105-109 | exactly one result, the fetch of `url`, is appended to the output, and nothing else changes |
| Fetch.GatherDetails | parser/fetch.py:91-102 | one result per post: the result at position `k` is the fetch of post `k`'s link, and the multiset of result links is the multiset of post links |
| Fetch.GatheredLinks | parser/fetch.py:91-109 | no result is dropped or invented: the result links are the post links, in order |
| Fetch.GatheredIsolation | parser/fetch.py:72-77 | changing one request's outcome changes no other post's result |
| Errors.ClassStatusInjective | src/errors.py:11-104 | every class has a 4xx status, and no two classes share a status |
| Errors.NotFoundDetail | src/errors.py:15-16 | `f"{entity_name} <{entity_id}> not found."` can be read back into exactly the name and the id |
| PyStr.ParseIntToStr | src/errors.py:16 | `str(entity_id)` can be read back into the id |
| Errors.NewNotFoundException | src/errors.py:11-16 | a `NotFoundException` has status 404, and its detail names the entity and the id |
| Errors.LocRoundTrip | src/errors.py:31-34 | the JSON list of a `loc` reads back to that `loc` |
| Errors.ValidationDetailRoundTrip | src/errors.py:44-45 | `detail.dict()` reads back to the validation record |
| Errors.ToJson | src/errors.py:18-95 | `json()` has the class's status and a body with the single key `"detail"`; reading the response back gives the exception again |
| Errors.Response | src/errors.py:21-104 | `response()` has the single key `cls.status`, whose entry holds the class's description and example |
| Errors.ValidationExceptionHandler | src/errors.py:110-111 | the handler answers with `exc.json()`, whose status is the exception's and which carries the exception |
| Errors.NotFoundExceptionHandler | src/errors.py:114-115 | the handler answers with `exc.json()`, whose status is the exception's and which carries the exception |
| Errors.AuthorizationExceptionHandler | src/errors.py:118-119 | the handler answers with `exc.json()`, whose status is the exception's and which carries the exception |
| Errors.BadRequestExceptionHandler | src/errors.py:122-123 | the handler answers with `exc.json()`, whose status is the exception's and which carries the exception |
| Errors.Responses | src/errors.py:131-132 | the list of `response()` maps has one map per class given, in argument order |
| Errors.ErrorResponses | src/errors.py:129-133 | the `dict.update` loop gives the fold of the classes' entries; its keys are exactly the classes' statuses, and each status maps to its class's entry |
| Errors.ErrorResponsesLookup | src/errors.py:129-133 | the same key set and per-class entry, stated for the fold itself |
| PyDict.UpdateAllKeys | src/errors.py:130-132 | after a series of `dict.update` calls a key is present exactly when some update map had it |
| PyDict.UpdateAllLaterWins | src/errors.py:130-132 | after a series of `dict.update` calls a key holds the value of the last map that had it |
| UtilErrors.SameStatusesAsErrors | src/utils/errors.py:11-44 | the literal statuses 404 and 422 are those of the namesake classes in `src/errors.py`, and differ from each other |
| UtilErrors.NewNotFoundException | src/utils/errors.py:14-15 | a `NotFoundException` has status 404, and its detail reads back into exactly the name and the id |
| UtilErrors.AsAppException | src/utils/errors.py:10-54 | each exception of this catalogue has the status of its namesake in `src/errors.py` |
| UtilErrors.ToJson | src/utils/errors.py:17-54 | `json()` has the class's status and the single key `"detail"`: the detail string, or the validation record as an object; reading it back gives the exception again |
| UtilErrors.Response | src/utils/errors.py:23-73 | `response()` has the single key `cls.status`, and is the same entry as the namesake class's in `src/errors.py` |
| UtilErrors.ValidationExceptionHandler | src/utils/errors.py:78-79 | the handler answers with `exc.json()`, whose status is the exception's and which carries the exception |
| UtilErrors.NotFoundExceptionHandler | src/utils/errors.py:82-83 | the handler answers with `exc.json()`, whose status is the exception's and which carries the exception |
| UtilErrors.ErrorResponses | src/utils/errors.py:88-92 | the `dict.update` loop gives the fold; its keys are exactly the statuses of the classes given, each mapping to its class's entry |
| UtilErrors.ErrorResponsesLookup | src/utils/errors.py:88-92 | the same key set and per-class entry, stated for the fold itself |
| UtilErrors.HandleNotFoundError | src/utils/errors.py:99-102 | raises `NotImplementedError` exactly when the entity is `None`, and returns otherwise |
| BaseSchema.DateError | src/schemas/base.py:23-29 | a failed check raises a 422 `ValidationException` located at `["body", field_name]` with its message |
| BaseSchema.DropTz | src/schemas/base.py:18-20 | `replace(tzinfo=None)` keeps the wall-clock reading and removes the offset |
| BaseSchema.ValidatePastDate | src/schemas/base.py:15-30 | raises exactly when the argument is a datetime later than now, with the message `"Date should be in the past"` |
| BaseSchema.ValidateFutureDate | src/schemas/base.py:32-47 | raises exactly when the argument is a datetime at or before now, with the message `"Date should be in the future"` |
| BaseSchema.BoundaryAtNow | src/schemas/base.py:22-39 | a datetime equal to now passes the past check and fails the future check |
| BaseSchema.ExactlyOneCheckPasses | src/schemas/base.py:15-47 | with one clock reading, a datetime passes exactly one of the two checks |
| BaseSchema.NonDateTimeAccepted | src/schemas/base.py:17-34 | a value that is not a datetime is never rejected |
| BaseSchema.OffsetIgnored | src/schemas/base.py:18-37 | the UTC offset of an aware datetime plays no part in either check |
| Budgets.DefaultCustomValidate | src/schemas/budgets.py:17-20 | accepts exactly when the start is not after its clock reading and the end is after its own; when it rejects, the start date is reported if it is wrong, and otherwise the end date |
| Budgets.UpdateCustomValidate | src/schemas/budgets.py:36-39 | the update schema checks exactly as the default schema does |
| Budgets.AcceptedWindow | src/schemas/budgets.py:17-20 | with one clock reading, a budget is accepted exactly when `start <= now < end` |
| Budgets.StartReportedFirst | src/schemas/budgets.py:18-20 | when both dates are wrong, the start date is the one reported |
| Budgets.AcceptedIsOrdered | src/schemas/budgets.py:17-20 | if the clock does not go back between the two checks, an accepted budget starts strictly before it ends |
| Budgets.UpdateWithoutDatesAccepted | src/schemas/budgets.py:31-39 | an update that sets neither date is accepted |
| Users.DefaultCustomValidate | src/schemas/users.py:25-27 | rejects exactly a birth date later than now, reported on `birth_date` |
| Users.UpdateCustomValidate | src/schemas/users.py:45-47 | checks as the default schema does, and accepts an update without a birth date |
| Users.BornNowAccepted | src/schemas/users.py:25-27 | a birth date of exactly now is accepted |
| Goals.DefaultCustomValidate | src/schemas/goals.py:15-17 | rejects exactly a deadline at or before now, reported on `deadline` |
| Goals.UpdateCustomValidate | src/schemas/goals.py:33-35 | checks as the default schema does, and accepts an update without a deadline |
| Goals.DeadlineNowRejected | src/schemas/goals.py:15-17 | a deadline of exactly now is rejected |

## Left out

- Selenium is not modelled: starting Chrome, `driver.get`, the scroll script, `time.sleep` and `driver.quit`. The page is given as its snapshots.
- aiohttp is not modelled: the session, its 60-second timeout, the User-Agent header and `raise_for_status`. Each request is given as its outcome.
- The `asyncio.Semaphore(MAX_CONCURRENT)` bound of 100 requests in flight is not modelled, and neither is any concurrency.
- Fetch.GatherDetails: runs the requests one after another. The source appends in completion order, so its output order is not guaranteed. The model's output is in input order. It states the one-result-per-post property and the link multiset, but does not capture the reordering.
- The CSS and tag selection is taken as input: the cards, the title elements, the anchors and the paragraphs. The HTML parsing itself is not modelled.
- An exception raised while parsing a received page is not modelled. Such an exception falls outside the `try` and would reach the caller.
- The progress `print` in `bound_fetch` is not modelled, and neither is its `idx`/`total` numbering.
- `parser/main.py` is not part of this model: the batch timing and the `BatchResult` record.
- The routers, authentication, Celery, the GraphQL service and configuration are outside the modelled core.
- Fetch.FetchPostDetails: assumes pydantic 1 semantics for `DetailedPost(**result)`, under which an explicit `title=None` is accepted for the `str = None` field in parser/schemas.py. The pinned pydantic version of the parser service is not part of this model. Under pydantic 2 a page without a title element would fail validation outside the `try`, and `gather_details` would raise. The model returns a record with no title instead.
- BaseSchema.DateError: the `type` field is always `"<class 'datetime.datetime'>"`. A subclass of `datetime` would print its own class name.
- BaseSchema.ValidatePastDate: time is an integer count on a fixed epoch. Calendar arithmetic and `datetime`'s range limits are not modelled.
- The FastAPI `Request` argument of the handlers is not modelled, because the handlers never read it.
- Neither `JSONResponse`'s byte encoding nor how FastAPI dispatches to the handlers is modelled.
