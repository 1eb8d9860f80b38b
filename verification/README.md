# Summarize route: a Dafny model

This project models the `POST` handler of the article-summary web app's
`/api/summarize` route. The handler gets a JSON body with a `url`. It fetches
the page and picks the main text: the first element that matches
`article, main, #main, .main-content, .entry-content`, or else the body. It
then collapses whitespace runs, trims the text and cuts it to 14000 code
units. Finally it asks a text-generation service for a one-line summary.
Every failure along the way is answered at once, with status 400 or 500 and
an error message.

The model has five modules:

- `Options`: the optional-value datatype.
- `Whitespace`: the ECMAScript `\s` class, which is also the set
  `String.prototype.trim` removes. It also holds the predicates the
  properties are stated with: all-whitespace, no two adjacent whitespace code
  units, trimmed, and the non-whitespace content of a string.
- `Cleanup`: `replace(/\s\s+/g, ' ')` as `Collapse`, `trim()` as `Trim`, and
  the two together as `Clean`.
- `Extraction`: the selector list and the body fallback (`ChosenText`), the
  14000-unit cut (`Truncate`), and the whole content computation
  (`ExtractContent`).
- `Route`: the handler's decision chain. `Respond` makes the decisions once
  the try block around fetching and extraction has run. `Post` is the whole
  handler.

The network fetch, the environment's API key and the generation service are
inputs: a `World` holds the outcomes they would produce. A reply records the
response and the interactions the handler had with that world, in order
(`HttpGet`, `ReadApiKey`, `GenerateContent`). That record is how "this stage
is never reached" is stated.

Each operation is paired with an independent statement of what it means:

- The collapse is paired with the non-whitespace content it keeps, and with
  "no two adjacent whitespace code units". It is the identity exactly on
  strings that already have that property.
- The selector choice is paired with first-match lemmas.
- The handler is paired with a reference chain of five stages (`Stages`,
  `Passes`, `FirstFailing`). The handler answers with the failure of the first
  stage that does not pass, after exactly the interactions of the stages up to
  and including it.

Text is a sequence of Dafny `char`s, each read as one UTF-16 code unit.
JavaScript's `length` and `substring` count code units, so the two agree for
text inside the Basic Multilingual Plane (see "Left out").

Four behaviours of the code shape the model:

- **Selector choice.** The code takes the first element, in document order,
  that any of the five selectors matches. The order of the selectors within
  the list plays no part. When that element's text is empty, the code falls
  back to the body and never looks at a later match
  (`Extraction.ChosenTextFirstMatch`, `Extraction.ChosenTextIgnoresLaterElements`).
- **Whitespace.** The code replaces only runs of two or more whitespace code
  units. A lone tab or newline between words is kept as it is
  (`Cleanup.LoneWsPreserved`, `Cleanup.CleanAroundWs`).
- **Missing credential.** The code checks the key only after the url check,
  the fetch and the extraction have passed. Those earlier failures are
  reported instead (`Route.KeyMissingReported`).
- **URL validation.** The code only tests the url for JavaScript truthiness.
  A truthy but malformed url reaches the fetch and fails there with status
  500 (`Route.UrlRequired`, `Route.FetchFailureReported`).

## Model

All source paths are in the web app's repository.

| member | source | states |
|---|---|---|
| `Whitespace.IsWs` | app/api/summarize/route.ts:36 | The class `\s` matches and `trim` removes: the ECMAScript WhiteSpace and LineTerminator code points. Every one of them lies in the Basic Multilingual Plane, so each is a single UTF-16 code unit. |
| `Cleanup.Collapse` | app/api/summarize/route.ts:36 | The replaced text is never longer than the original. It is empty exactly when the original is. Its first code unit is whitespace exactly when the original's is, and a non-whitespace first code unit is kept. |
| `Cleanup.CollapseNoDoubleWs` | app/api/summarize/route.ts:36 | After replacing every run of two or more whitespace code units with one space, no two adjacent code units are both whitespace. |
| `Cleanup.CollapseKeepsContent` | app/api/summarize/route.ts:36 | The replacement keeps every non-whitespace code unit, in order, and adds none. |
| `Cleanup.CollapseIdentityIff` | app/api/summarize/route.ts:36 | The replacement leaves a string unchanged if and only if it has no two adjacent whitespace code units. |
| `Cleanup.CollapseRun` | app/api/summarize/route.ts:36 | A string of two or more whitespace code units, of any kinds, becomes exactly one space. |
| `Cleanup.LoneWsPreserved` | app/api/summarize/route.ts:36 | A single whitespace code unit between non-whitespace text is kept as that same code unit, not turned into a space. The two sides are replaced independently. |
| `Cleanup.CollapseSingle` | app/api/summarize/route.ts:36 | A one-code-unit string, whitespace or not, is left unchanged. |
| `Cleanup.CollapseConcat` | app/api/summarize/route.ts:36 | If two strings do not meet whitespace-to-whitespace, replacing in their concatenation equals concatenating their replacements. This is the global regex scan acting on separate runs. |
| `Cleanup.TrimStart` | app/api/summarize/route.ts:36 | The result is a suffix of the input. Everything dropped is whitespace, and the result does not start with whitespace. |
| `Cleanup.TrimEnd` | app/api/summarize/route.ts:36 | The result is a prefix of the input. Everything dropped is whitespace, and the result does not end with whitespace. |
| `Cleanup.Trim` | app/api/summarize/route.ts:36 | The result is one contiguous slice of the input with only whitespace before and after it, so every interior code unit is kept in place. It neither starts nor ends with whitespace and keeps all non-whitespace content. It keeps the no-adjacent-whitespace property, and it leaves an already trimmed string unchanged. |
| `Cleanup.TrimJoin` | app/api/summarize/route.ts:36 | Trimming text made of a piece that ends visibly, any middle, and a piece that starts visibly trims only the outer two pieces and keeps the middle exactly. |
| `Cleanup.Clean` | app/api/summarize/route.ts:36 | Replace followed by trim gives a trimmed string with no two adjacent whitespace code units. It has the same non-whitespace content as the input and is no longer than it. How each interior run is replaced is stated by `Cleanup.CleanAroundWs`. |
| `Cleanup.CollapseKeepsLast` | app/api/summarize/route.ts:36 | A visible last code unit is still the last code unit after the replacement. |
| `Cleanup.CollapseAroundWs` | app/api/summarize/route.ts:36 | A whitespace run between two visible code units is replaced on its own: by itself when it is one code unit long, by one space otherwise. The text on either side is replaced independently. |
| `Cleanup.CleanAroundWs` | app/api/summarize/route.ts:36 | The whole cleanup of two pieces of text joined by a whitespace run, where the left piece ends and the right piece starts visibly, is the cleanup of each piece joined by the run itself (one code unit) or by one space (two or more). |
| `Cleanup.CleanKeepsCleanText` | app/api/summarize/route.ts:36 | Text that is already trimmed and has no adjacent whitespace is left unchanged by the cleanup. |
| `Cleanup.CleanIdempotent` | app/api/summarize/route.ts:36 | Cleaning twice is the same as cleaning once. |
| `Cleanup.CleanEmptyIff` | app/api/summarize/route.ts:36 | The cleaned text is empty if and only if the raw text is all whitespace. |
| `Extraction.IsMainCandidate` | app/api/summarize/route.ts:27 | An element matches the selector list exactly when it matches one of its five simple selectors: type `article`, type `main`, id `main`, class `main-content`, class `entry-content`. |
| `Extraction.FirstMain` | app/api/summarize/route.ts:27 | `.first()` on the selector list is absent exactly when no element matches. Otherwise it is the index of a matching element with no matching element before it in document order. |
| `Extraction.FirstMainText` | app/api/summarize/route.ts:27 | `.first().text()` is the empty string when no element matches, and otherwise the text of the first matching element in document order. |
| `Extraction.ChosenText` | app/api/summarize/route.ts:27-33 | The raw text is the body's text or the non-empty text of some element. |
| `Extraction.ChosenTextFirstMatch` | app/api/summarize/route.ts:27-33 | For the first matching element in document order: its text is used if non-empty, and the body's text is used otherwise. |
| `Extraction.ChosenTextNoMatch` | app/api/summarize/route.ts:27-33 | When no element matches, the body's text is used. |
| `Extraction.ChosenTextIgnoresLaterElements` | app/api/summarize/route.ts:27-33 | Once some element matches, elements after it never change the choice, even a later match with non-empty text. |
| `Extraction.Truncate` | app/api/summarize/route.ts:39-42 | The result is a prefix of the input of at most 14000 code units. It is the whole input when the input fits, and exactly 14000 code units otherwise. |
| `Extraction.ExtractContent` | app/api/summarize/route.ts:27-42 | The content is at most 14000 code units and is a prefix of the cleaned raw text, equal to it when that fits. It has no adjacent whitespace and no leading whitespace. It is empty exactly when the raw text is all whitespace. It ends in whitespace only if the cut was made. |
| `Extraction.TruncateKeepsShape` | app/api/summarize/route.ts:36-42 | Cutting a cleaned text keeps it free of adjacent and leading whitespace and non-empty. It can end in whitespace only when the text was longer than the limit. |
| `Extraction.ContentMayEndInSpace` | app/api/summarize/route.ts:36-42 | Because the cut comes after the trim, some page yields content that ends in a space. |
| `Route.Truthy` | app/api/summarize/route.ts:13 | The url fails `if (!url)` exactly for the JavaScript falsy values a JSON member can hold: absent (`undefined`), `null`, `false`, zero and the empty string. |
| `Route.KeyConfigured` | app/api/summarize/route.ts:53 | The key check passes exactly when the variable is set to something other than the empty string. |
| `Route.ErrorText` | app/api/summarize/route.ts:14-65 | The fetch and generation error strings end with the underlying error's message. |
| `Route.Fetch` | app/api/summarize/route.ts:17-51 | The try block throws exactly when the fetch fails, with the fetch's message. Otherwise its content is at most 14000 code units, and it is empty exactly when the page's chosen raw text is all whitespace. |
| `Route.ErrorStatus` | app/api/summarize/route.ts:13-66 | Every failure is answered with a 4xx or 5xx status. It is a client error exactly for the missing url and the empty content. |
| `Route.Respond` | app/api/summarize/route.ts:10-66 | The status is always 200, 400 or 500, and 200 exactly when the body is a summary. An error's status matches its kind. The interactions are always a prefix of fetch, key read, generation request, and only the fetch when the fetch threw. |
| `Route.Post` | app/api/summarize/route.ts:10-66 | For the whole handler: the status is 200, 400 or 500, 200 exactly for a summary, and each error's status matches its kind. A falsy url leads to no interaction at all. After a failed fetch nothing but the fetch happens. After a successful one the interactions are a prefix of fetch, key read, and a generation request carrying the page's extracted content. |
| `Route.FirstFailingOfStages` | app/api/summarize/route.ts:10-66 | The first failing stage of the five, in source order, in terms of each stage's pass condition. |
| `Route.RespondFollowsChain` | app/api/summarize/route.ts:10-66 | The handler answers with the failure of the first stage that does not pass, after exactly the interactions of the stages up to and including it. When all stages pass it answers with the generated summary after all of them. |
| `Route.UrlRequired` | app/api/summarize/route.ts:13-15 | The answer is 400 "URL is required" if and only if the url is falsy. In that case nothing else is done. |
| `Route.FetchFailureReported` | app/api/summarize/route.ts:48-51 | A fetch or parse error is reported, with status 500 and the thrown message, exactly when the url is truthy and the fetch threw. Nothing follows the fetch. |
| `Route.NoContentReported` | app/api/summarize/route.ts:44-46 | The "no content" answer is given exactly when the extracted content is empty. It has status 400, and the key is never read. |
| `Route.KeyMissingReported` | app/api/summarize/route.ts:53-55 | The missing-key answer is given exactly when the url, the fetch and the content all pass and the key is unset or empty. It has status 500 and no generation request. |
| `Route.SummaryIffAllPass` | app/api/summarize/route.ts:57-62 | A summary is answered exactly when every stage passes. It is 200 with the generated text verbatim. |
| `Route.GenerateFailureReported` | app/api/summarize/route.ts:63-66 | A generation error is reported, with status 500 and the thrown message, exactly when every earlier stage passes and the generation throws. |
| `Route.GenerationOnlyWithKeyAndContent` | app/api/summarize/route.ts:53-61 | A generation request is made if and only if the url, the fetch, the content and the key all pass. Any request made names the fixed model and sends the fixed instruction followed by the content. |
| `Route.NoContentIffBlank` | app/api/summarize/route.ts:27-46 | For the whole handler, "no content" is answered exactly when the url is truthy, the page was fetched, and its chosen raw text is all whitespace. |
| `Route.GenerationRequestShape` | app/api/summarize/route.ts:57-61 | A generation request sends the instruction prefix followed by the page's extracted content. That content is non-empty and at most 14000 code units. |
| `Route.ErrorTextDistinct` | app/api/summarize/route.ts:14-65 | The five error messages are pairwise different. For the two that embed an underlying message, that message can be read back from the text. |

## Left out

- The HTTP fetch and its `User-Agent` header (route.ts:19-23) are network I/O. The fetch is an input outcome: the page, or the thrown error's message.
- HTML parsing and CSS selector matching (route.ts:24, 27, 32) belong to the parsing library. A page is given as its elements in document order and the body's text. Tag names are taken as lower-case. The selectors are matched on tag, id and class set.
- The generation client's construction (route.ts:8) and the call itself (route.ts:58-61) are a foreign service. The call is an input outcome: text or the thrown error's message.
- The SDK's `text` can be undefined, in which case JSON serialisation drops the `summary` member. Here the generated text is always a string.
- A thrown value without a `message` yields the text "undefined" in JavaScript. Here the message is always given as a string.
- Parsing the request body (route.ts:11): a body that is not JSON throws outside the try blocks, and so does the JSON body `null`, which cannot be destructured. The framework answers both. Here the url arrives already parsed as a JSON value; any other non-object body gives an absent url (`Undefined`).
- `console.error` logging (route.ts:49, 64) has no effect on the response.
- Characters outside the Basic Multilingual Plane: a Dafny `char` is a Unicode scalar value, so such a character is one `char` here but two UTF-16 code units in JavaScript. The model is faithful only for text inside that plane. It does not count such characters twice toward the 14000-unit limit, and it does not show the cut splitting a surrogate pair. Every whitespace code point lies inside the plane (`Whitespace.IsWs`), so which runs the cleanup replaces or trims is unaffected.
- The user-interface page (app/page.tsx) only displays the handler's answer.
- Asynchrony: the handler awaits each step in turn, so it is modelled as one sequential function.
