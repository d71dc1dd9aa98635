# Menu visualisation: the per-dish image pipeline

The application takes a photo of a restaurant menu and answers with one entry
per menu line: the line and an image URL for it, or `null`. The photo goes to
a menu-reading model. It answers with text, which is cut into lines. For each
line the server does three things:

- it normalises the line into a dish name;
- it runs image searches under an ordered list of query strategies;
- it asks a ranking model to pick one of the candidate URLs, and falls back
  to a fixed choice when the model cannot.

Three implementations of the upload endpoint exist, and all three are modelled:

- the Next.js route `src/app/api/upload/route.ts`. It runs twelve strategies,
  de-duplicates the URLs, stops once 3 are held, and asks the model once.
- the serverless Python function `api/upload.py`, with its own multipart
  reader. It runs three strategies and asks the model once per strategy.
- the Flask backend `backend/app.py`. It is the Python pipeline with four
  strategies.

`api_backup/upload.py` and `backend_backup/app.py` are byte-for-byte copies
of the last two, so the same members model them.

The search service and the two models are not modelled. What they answer is
an input of the model:

- `Env` holds one function from a search request to its outcome, and one
  from a ranking request to its reply.
- `world(i)` is the environment in which menu line `i` is resolved.
- the menu reading is a function of the photo bytes.
- `credentials` stands for "both Google keys are set".

Every per-line resolution returns a `Resolution`: the images the source
returns, plus the log of search and ranking requests it sent. This lets the
contracts state how many calls are made, in what order, and when none are.

Modules, in dependency order:

- `Wrappers`, `Seqs`: generic values and sequence operations (find, split,
  filter, de-duplicate, trim).
- `Text`: JavaScript and Python whitespace, `splitlines`, lowercasing,
  UTF-16 length, decimal digits.
- `Collaborators`: the values exchanged with the services, and the response
  entries.
- `ImageSearch`: `getImagesFromSearch` / `get_images_from_search` and the
  keyword screen.
- `DishName`: line normalisation and rejection, for both languages.
- `Verdict`: how the ranking model's reply becomes a pick. This includes
  JavaScript `parseInt` and Python `int()`.
- `MenuLines`: turning the menu reading into lines.
- `EnhancedSearch`: the TypeScript candidate loop.
- `TsRoute`, `PyRoute`: `fetchImageForItem` / `fetch_image_for_item`.
- `Menu`: the per-menu loop shared by the three endpoints.
- `Multipart`: the serverless function's multipart reader.
- `Handlers`: the three endpoints.

The code does the following, which a reader may not expect:

- Lines rejected as category headers or as too short are not dropped from
  the response. They stay in it with a `null` image (`Menu.MenuKeepsEveryLine`).
- The TypeScript candidate list is not capped at 6. New URLs are admitted
  while fewer than 10 are held, and the first 3 are returned
  (`EnhancedSearch.AddUniqueIsCappedDedup`, `EnhancedSearch.Candidates`).
- The Python implementations do not de-duplicate. Each strategy's results go
  to the ranking model on their own, and only when there are at least 2 of
  them.
- Normalisation is not idempotent, and the Python lstrip set treats only the
  plain space as whitespace. So a Python name can start with a digit
  (`DishName.PyTabSeparatedNumbering`).

## Model

| member | source | states |
|---|---|---|
| ImageSearch.KeepFoodSpec | src/app/api/upload/route.ts:218-226 | the screen keeps exactly the links whose lower-case form holds none of `logo`, `sign`, `banner`, `icon`, each as many times as it occurs (duplicates kept), in their order, and adds nothing |
| ImageSearch.ScreenIsCaseInsensitiveSubstring | src/app/api/upload/route.ts:222-223 | the screen matches substrings of the lower-cased URL: a `designer` path and an upper-case `LOGO` are both dropped |
| ImageSearch.GetImagesFromSearch | src/app/api/upload/route.ts:197-229 | the search raises exactly when the service fails; otherwise the result is the screened links, built one by one |
| Seqs.JoinSplit | src/app/api/upload/route.ts:84 | splitting on a separator loses nothing: joining the pieces with it gives back the text |
| Seqs.SplitPiecesAvoidSep | src/app/api/upload/route.ts:84 | no piece of a split holds the separator |
| Seqs.BeforeIsPrefix | src/app/api/upload/route.ts:101 | `split(marker)[0]` is a prefix of the text without the marker, and is the whole text exactly when the marker is absent |
| Text.SplitLinesHaveNoBreaks | api/upload.py:102 | no line given by `splitlines` holds a Python line boundary |
| DishName.PricePrefix | src/app/api/upload/route.ts:101 | the line cut at `" - $"`, then at `" $"`, is a prefix of the line |
| DishName.CleanName | src/app/api/upload/route.ts:101-103 | a cleaned name holds no `*` or `-`, has no surrounding whitespace, takes its characters from the line, and is no longer than the price prefix |
| DishName.TsCleanNameShape | src/app/api/upload/route.ts:101-103 | a TypeScript name also never starts with a digit, a dot or a dash |
| DishName.CleanNameUnnumbered | api/upload.py:117-119 | when every whitespace character of the line is a list-number character, the name does not start with one |
| DishName.PyCleanNameUnnumbered | api/upload.py:119 | a Python name starts with no digit, dot or dash when the line's only whitespace is the plain space |
| DishName.PyTabSeparatedNumbering | api/upload.py:119 | `"1\t7Up"` is cleaned to `"7Up"`: `lstrip` stops at the tab |
| DishName.TsTabSeparatedNumbering | src/app/api/upload/route.ts:103 | `"1\t7Up"` is cleaned to `"Up"`: `[0-9.-\s]+` also eats the tab and the 7 |
| DishName.UnnumberedFixedPoints | src/app/api/upload/route.ts:103 | the number strip leaves a trimmed name alone exactly when it does not start with a list-number character |
| DishName.CleanNameFixedPoints | src/app/api/upload/route.ts:101-103 | a cleaned name is unchanged by a second pass exactly when it holds no `" $"` and does not start with a list-number character |
| DishName.TsCleanNameFixedPoints | src/app/api/upload/route.ts:101-103 | a TypeScript name is unchanged by a second pass exactly when it holds no `" $"` |
| DishName.PyCleanNameFixedPoints | api/upload.py:117-119 | a Python name is unchanged by a second pass exactly when it holds no `" $"` and does not start with a digit, dot or dash |
| DishName.CleanNamesAgree | api/upload.py:117-119 | on lines whose only whitespace is the plain space, the Python and TypeScript names are equal |
| Verdict.TsVerdict | src/app/api/upload/route.ts:286-303 | any pick of the TypeScript reading is one of the candidates |
| Verdict.PyVerdict | api/upload.py:224-242 | any pick of the Python reading is one of the candidates |
| Verdict.JsParseIntDecimal | src/app/api/upload/route.ts:293 | `parseInt` reads a decimal number back, whatever text follows it, as long as that text starts with neither a digit nor an `x` |
| Verdict.JsReadsNumberBeforeDot | src/app/api/upload/route.ts:293 | `parseInt("2.")` is 2 |
| Verdict.PyParseIntOfDigits | api/upload.py:231 | `int()` reads a plain string of digits as its decimal value |
| Verdict.PyParseIntDecimal | api/upload.py:231 | `int()` reads a decimal number back |
| Verdict.NumberedReplySelects | src/app/api/upload/route.ts:286-296 | a bare reply `k` picks candidate `k` when `1 <= k <= n`, and nothing otherwise, in both languages |
| Verdict.NoneReplyRejects | src/app/api/upload/route.ts:288-290 | the reply `NONE` picks nothing, in both languages |
| Verdict.FailedCallPicksFirst | src/app/api/upload/route.ts:299-303 | a failed call picks the first candidate (TypeScript: when it is not empty); a reply without content gives `null` in TypeScript and the first candidate in Python |
| Verdict.TsTrailingTextSelects | src/app/api/upload/route.ts:293 | the reply `2.` picks the second candidate in TypeScript |
| Verdict.PyTrailingTextRejects | api/upload.py:230-235 | the reply `2.` picks nothing in Python (`ValueError`) |
| MenuLines.TsExtractItemsSpec | src/app/api/upload/route.ts:83-85 | the TypeScript lines are exactly the non-blank pieces between newlines, each as many times as it occurs, in order and untrimmed, and none holds a newline |
| MenuLines.TsAbsentContentHasNoItems | src/app/api/upload/route.ts:83 | a reply without content gives no lines |
| MenuLines.PyExtractItemsSpec | api/upload.py:101-103 | the Python lines are exactly the non-empty stripped lines, each as many times as it occurs, in order; each is stripped and holds no line boundary |
| MenuLines.FailureGivesSentinel | src/app/api/upload/route.ts:86-89 | a failed reading gives the single sentinel line, in both languages; so does a Python reply without content |
| EnhancedSearch.StrategiesDistinct | src/app/api/upload/route.ts:141-163 | twelve queries, all starting with the dish name and no two alike, so no search is sent twice for a line |
| EnhancedSearch.AddUniqueGrows | src/app/api/upload/route.ts:176-180 | the inner loop only appends, never goes past 10 URLs, and holds only URLs held or offered |
| EnhancedSearch.AddUniqueKeepsDistinct | src/app/api/upload/route.ts:176-180 | the inner loop never creates a duplicate |
| EnhancedSearch.AddUniqueConcat | src/app/api/upload/route.ts:170-180 | running the inner loop over two batches is running it over their concatenation |
| EnhancedSearch.AddUniqueIsCappedDedup | src/app/api/upload/route.ts:176-180 | from an empty list, the inner loop keeps the first 10 distinct URLs in order of first appearance |
| EnhancedSearch.MergeUnique | src/app/api/upload/route.ts:176-180 | the loop computes the inner-loop function |
| EnhancedSearch.Offered | src/app/api/upload/route.ts:173 | any URL a query contributes is from its successful, filtered search result |
| EnhancedSearch.Tried | src/app/api/upload/route.ts:183-186 | the loop runs at most all queries, and stops early only once 3 URLs are held |
| EnhancedSearch.TriedIsLeast | src/app/api/upload/route.ts:183-186 | before the stopping point, fewer than 3 URLs were ever held: the loop stops at the first chance |
| EnhancedSearch.AccumulatedStep | src/app/api/upload/route.ts:171-190 | a query whose search raises adds nothing; otherwise its filtered URLs go through the inner loop |
| EnhancedSearch.DiscoveredFromSearches | src/app/api/upload/route.ts:170-191 | every URL found came from the filtered result of a query already sent |
| EnhancedSearch.CandidatesAreFirstDistinct | src/app/api/upload/route.ts:165-194 | the candidates are the first at most 3 distinct URLs in discovery order, each from a query sent |
| EnhancedSearch.RunStrategies | src/app/api/upload/route.ts:170-194 | the loop sends exactly the queries up to the stopping point, in order, each for 3 results, and returns the candidates |
| EnhancedSearch.GetEnhancedImagesForDish | src/app/api/upload/route.ts:139-195 | the same, over the twelve queries of the dish |
| TsRoute.GetAiSelectedImage | src/app/api/upload/route.ts:231-304 | an empty list gives `null` without a call; otherwise exactly one call about the list, read by the TypeScript reading |
| TsRoute.FetchImageForItem | src/app/api/upload/route.ts:92-137 | the method computes the TypeScript resolution of a line, with the requests it sends |
| TsRoute.TsRejectionSendsNothing | src/app/api/upload/route.ts:96-109 | without credentials, or for a name shorter than 3 UTF-16 units or a category header, no image and no request |
| TsRoute.ResolveNameOutcome | src/app/api/upload/route.ts:115-132 | no image exactly when there is no candidate, and then no model call; otherwise one call and one image, the truthy pick or else the first candidate |
| TsRoute.ResolveNameSearches | src/app/api/upload/route.ts:113-132 | the searches are the queries up to the first point where 3 URLs were held, and the image is a URL one of them returned |
| PyRoute.StrategiesDistinct | api/upload.py:126-130 | three queries here (four in `backend/app.py` lines 71-76), all starting with the dish name and no two alike, so no strategy search is sent twice for a line |
| PyRoute.StrategyRanks | api/upload.py:135-140 | the model is asked at most once per query, about this dish and at least 2 URLs |
| PyRoute.StrategyPick | api/upload.py:135-142 | a query settles only on a non-empty URL from its own filtered search result |
| PyRoute.FallbackImages | api/upload.py:149-153 | the fallback gives at most one URL |
| PyRoute.GetAiSelectedImage | api/upload.py:184-242 | an empty list gives `None` without a call; otherwise exactly one call about the list, read by the Python reading |
| PyRoute.TryStrategy | api/upload.py:133-146 | one pass of the strategy loop sends what `StrategyRanks` says and settles as `StrategyPick` says |
| PyRoute.TryStrategies | api/upload.py:132-153 | the loop and fallback compute the strategy-then-fallback resolution, with the requests sent |
| PyRoute.FetchImageForItem | api/upload.py:108-153 | the method computes the Python resolution of a line |
| PyRoute.PyRejectionSendsNothing | api/upload.py:113-123 | without credentials, or for a name shorter than 3 characters or a category header, no image and no request |
| PyRoute.FirstSuccessWins | api/upload.py:132-142 | the first query that settles gives the one image; exactly the queries up to it were sent; no fallback |
| PyRoute.NoSuccessFallsBack | api/upload.py:148-153 | when no query settles, every query is sent, then one `" food"` query for 1 result, whose first URL is the image |
| PyRoute.TryFromOutcome | api/upload.py:132-153 | at most one image, a URL returned by one of the searches sent; every model call is about this dish and at least 2 URLs |
| Menu.ResolveOutcome | src/app/api/upload/route.ts:92-137 | in every implementation, at most one image per line, found by its own searches; nothing sent without credentials or for a rejected line |
| Menu.FetchImage | api/upload.py:48 | the call computes the implementation's resolution |
| Menu.FetchEntry | src/app/api/upload/route.ts:38-42 | the entry is the line and the first image returned, or `null` |
| Menu.BuildMenu | src/app/api/upload/route.ts:36-43 | the results loop gives one entry per line, in order |
| Menu.MenuKeepsEveryLine | backend/app.py:204-212 | the response has one entry per line, naming it; rejected lines and lines without credentials get `null`; any image was found by that line's searches |
| Multipart.EncodeChar | api/upload.py:26 | a character encodes to 1 to 4 bytes, and to itself alone exactly when it is ASCII |
| Multipart.EncodeAvoidsCrLf | api/upload.py:26 | a boundary without CR or LF encodes to bytes without CR or LF |
| Multipart.Boundary | api/upload.py:25 | a boundary exists exactly when the header holds `boundary=`, and it is the text after the first one, up to the next |
| Multipart.Separator | api/upload.py:26 | the separator starts with `--` |
| Multipart.Payload | api/upload.py:35 | the payload is what follows the header end with the trailing CR and LF bytes removed: it does not end in either, and only they were removed |
| Multipart.FirstPayloadNone | api/upload.py:30-38 | no image data exactly when no part holds both the `menuImage` disposition and a header end |
| Multipart.FirstPayloadFirst | api/upload.py:30-36 | the image data is the payload of the first part holding both |
| Multipart.FirstPayloadSkipsEmpty | api/upload.py:30-31 | an empty part never matches |
| Multipart.FindImageData | api/upload.py:29-36 | the loop stops at the first matching part and gives its payload |
| Multipart.SplitOnePart | api/upload.py:26 | a body made of separator, part, separator and tail splits into an empty piece, then the part |
| Multipart.DispositionIsHeaderBlock | api/upload.py:31 | the bare disposition line, and that line followed by a `Content-Type` line as browsers send it, are header blocks that name the field |
| Multipart.PartWithHeaderEnd | api/upload.py:32 | in a part laid out by a client, the first `\r\n\r\n` is the one that ends its header block |
| Multipart.ImagePartPayload | api/upload.py:31-35 | in a part whose header block (any number of header lines) names the `menuImage` field, the loop finds the field and reads back the data |
| Multipart.ImageDataRoundTrip | api/upload.py:25-36 | image bytes sent as a one-field form, under any header block naming the field, are read back exactly, when they do not end in CR or LF and do not hold the separator |
| Handlers.Post | src/app/api/upload/route.ts:18-53 | the method computes `PostReply` |
| Handlers.PostOutcome | src/app/api/upload/route.ts:20-45 | 400 exactly for a missing or empty field; 200, with one entry per non-blank line, exactly for a file; 500 otherwise |
| Handlers.DoPost | api/upload.py:9-61 | the method computes the body `do_POST` writes |
| Handlers.DoPostReadsImage | api/upload.py:25-55 | a well-formed one-field form reaches the menu with exactly the image bytes sent |
| Handlers.DoPostWithoutField | api/upload.py:30-40 | a body with no part naming the field gives the "No image data found" error |
| Handlers.UploadMenu | backend/app.py:190-216 | the method computes the Flask endpoint's reply |
| Handlers.UploadOutcome | backend/app.py:192-212 | 400 exactly when no file, or a file without a name, was sent; otherwise 200 with one entry per line, naming it |

## Left out

- Network calls, prompts, model names and token limits. The search service
  and both models are inputs (`Env`, the reading function). The model does
  not say what they answer, only what is done with the answer.
- Base64 encoding of the photo and the `data:` URL. The reading function
  receives the raw bytes.
- Reading the environment (`os.environ`, `load_dotenv`). Both Google keys
  being set is the boolean `credentials`. The model assumes the OpenAI key
  is present; without it, client construction fails (see next bullet).
- Construction of the OpenAI client in `extractMenuItems` of the Next.js
  route (lines 56-58) and in `extract_menu_items` of `api/upload.py`
  (line 73). Both sit outside the `try` of the reading call, so if
  construction raised, the endpoint would answer with an error (500 in the
  route, an `{"error": ...}` body in `do_POST`). In `backend/app.py` the
  client is built when the module is imported (line 13), so the Flask app
  would not start. The model assumes construction succeeds.
- `do_POST` status handling. It sends 200 and the headers first, then on an
  exception sends a second status line. `Handlers.DoPostBody` models only the
  JSON body written. The `Content-Length` header (line 20) is assumed
  present and correct.
- Handlers.PostReply: the catch-all 500 is reached only through an
  unreadable form or a text field. No modelled collaborator raises inside
  `fetchImageForItem`, whose own `catch` (lines 133-136) is therefore not
  modelled.
- Handlers.UploadReply: the 500 path of the Flask endpoint (lines 214-216)
  needs an exception the modelled collaborators cannot raise. It is left
  out, and so is its "Failed to process menu" message.
- Verdict.JsParseInt: `parseInt` yields a double. Numbers beyond 2^53 lose
  precision there but are exact in the model. For the 1-based indices that
  matter, the two agree.
- Verdict.PyParseInt: only ASCII digits are accepted. Python `int()` also
  accepts other Unicode decimal digits, and refuses strings of more than 4300
  digits.
- Text.Lower: lowercases ASCII letters only. This is exact for the category
  headers and skip words compared with it: no non-ASCII character lowercases
  into a string that matches one of them.
- The collaborators are deterministic functions of the request: two
  identical requests made while resolving one line get the same answer.
  Different lines get independent environments. For search requests this
  costs nothing within a line, because no strategy query repeats
  (`EnhancedSearch.StrategiesDistinct`, `PyRoute.StrategiesDistinct`) and
  the Python fallback query has its own suffix and `num`.
- PyRoute.StrategyPick: ranking requests can repeat within a line. In both
  Python implementations every strategy with at least 2 filtered URLs makes
  its own ranking call (`api/upload.py` lines 132-146, `backend/app.py`
  lines 78-90), so two strategies whose searches return the same filtered
  list send identical ranking requests. The model gives both the same reply,
  so a run in which the model answers "NONE" (or fails) for the first and
  picks a URL for the second is not represented. The TypeScript route makes
  at most one ranking call per line and is not affected.
- Concurrency, logging (`console.log`, `print`), the health endpoints, the
  CORS preflight handler and the web pages.
