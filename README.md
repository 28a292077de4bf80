# Media insight engine: verified model of the analysis pipeline and its presenters

This project models two parts of the media insight engine in Dafny.

The first is the `analyze-article` edge function. It is one request handler. It answers the CORS preflight and checks the `url` field of the JSON body. It then scrapes the article through the Jina reader and cuts the text to 30,000 characters. It embeds that text at the end of a fixed prompt and sends it to Gemini. It repairs Gemini's raw text: a missing or empty answer becomes `"{}"`, every "```json" and then every "```" is deleted, and the text from the first `{` to the last `}` is kept. Finally it parses the result. Every failure becomes a `{error}` envelope with status 500, except the url check, which answers 400.

The second is the set of presentation helpers of the `ArticleAnalysis` component:
- the risk level's badge variant, text colour, background colour, icon and badge text;
- the labels of the political-bias and writing-style meters;
- the gate that shows the political card.

Modules:
- `Wrappers`: `Option` and `Outcome`. An `Outcome` is a value, or a thrown error with its message.
- `JsString`: the ECMAScript string operations the handler uses, over `seq<char>`. These are `indexOf` and `lastIndexOf` of one character, `substring` with its clamping and argument swap (section 22.1.3.25 of ECMA-262), and `replace` with a global literal pattern.
- `ResponseRepair`: the fence strip and the brace slice, with their properties.
- `AnalyzeArticle`: the handler as a method with early returns. The reader's answer, Gemini's answer, the API secret and `JSON.parse` are inputs to it. It returns the response and the outbound calls it issued, in order. The properties "the url is checked before any fetch" and "Gemini is never called after a failed scrape" are stated over that list.
- `ArticleAnalysis`: the mappers, as total functions over `string` and over a JavaScript number (a finite real, an infinity or `NaN`).

The code does not do the following, so neither does the model:
- there is no raw-HTML fallback and no classification step;
- there are no distinct 429, 402 or 502 statuses: every upstream failure is a 500;
- the server fills in no missing fields;
- only the lower-case "```json" tag is removed with its fence, not any language tag;
- a missing `risk_level` makes `toUpperCase` throw while rendering. It is not shown as "UNKNOWN RISK".

## Model

| member | source | states |
|---|---|---|
| `AnalyzeArticle.Handle` | supabase/functions/analyze-article/index.ts:8-164 | OPTIONS gets status 200, a null body and exactly the CORS headers, and no call is made. An unreadable body gets 500 with its error message. Status 400 with "Valid 'url' is required" happens exactly when `url` is missing, empty or not a string, and then nothing is fetched. A fetch happens exactly when the url is accepted, and the first call goes to `https://r.jina.ai/` followed by the url. A failed scrape gets the fixed 500 message and Gemini is never called. A missing or empty secret gets 500 after the scrape. Gemini is called exactly when the scrape succeeded and the secret is present, with the prompt built from the truncated text. A model failure gets 500 with its message. A parse failure gets 500 with the fixed message. Status 200 with a body happens exactly when the repaired text parses, and the body is that parse. Every answer has status 200, 400 or 500 and carries the CORS headers. |
| `AnalyzeArticle.ReaderUrl` | supabase/functions/analyze-article/index.ts:30 | The reader URL is the reader prefix followed by the article url, unencoded. |
| `AnalyzeArticle.Truncate` | supabase/functions/analyze-article/index.ts:44 | The article text is the prefix of the scraped text whose length is min(length, 30000), counted in characters. |
| `AnalyzeArticle.TruncateCountsCodeUnits` | supabase/functions/analyze-article/index.ts:44 | For text whose characters all lie in the Basic Multilingual Plane, the article text is a prefix whose length in UTF-16 code units is min(length in code units, 30000), as `substring(0, 30000)` gives. |
| `AnalyzeArticle.TruncateIdempotent` | supabase/functions/analyze-article/index.ts:44 | Truncating twice equals truncating once. Text of at most 30,000 characters is kept whole. |
| `AnalyzeArticle.BuildPrompt` | supabase/functions/analyze-article/index.ts:61-102 | The prompt starts with the full instructions. The article text follows verbatim at a fixed offset. The length is the instructions plus the text plus the closing whitespace, so nothing in the instructions is cut. |
| `AnalyzeArticle.ArticleRoundTrip` | supabase/functions/analyze-article/index.ts:100-101 | Reading the article back out of the prompt gives the embedded text unchanged. |
| `AnalyzeArticle.ArticleFollowsMarker` | supabase/functions/analyze-article/index.ts:100-101 | The text "Article Markdown:", then a newline and the indentation, come immediately before the article text. |
| `AnalyzeArticle.UrlAccepted` | supabase/functions/analyze-article/index.ts:17 | The url is rejected exactly when it is missing, the empty string, or not a string. |
| `AnalyzeArticle.KeyPresent` | supabase/functions/analyze-article/index.ts:55-58 | The secret is rejected exactly when it is unset or the empty string. |
| `AnalyzeArticle.ScrapeSucceeded` | supabase/functions/analyze-article/index.ts:28-36 | The scrape fails exactly when `fetch` or `.text()` throws, or the reader answers with a non-ok status. |
| `AnalyzeArticle.WhitespaceUrlAccepted` | supabase/functions/analyze-article/index.ts:17-22 | A whitespace-only url passes the server's check. An empty, missing or non-string url is rejected. |
| `AnalyzeArticle.CaughtMessage` | supabase/functions/analyze-article/index.ts:157-162 | A non-empty caught message becomes the envelope unchanged. An empty message becomes "Internal Server Error". |
| `AnalyzeArticle.ErrorResponse` | supabase/functions/analyze-article/index.ts:159-162 | An error answer has the given status, the `{error}` envelope holding the given message, and the CORS headers followed by the JSON content type. |
| `AnalyzeArticle.ModelText` | supabase/functions/analyze-article/index.ts:122-129 | Gemini's text is obtained exactly when the response is ok, its body parses, and the candidate text is not a truthy non-string. A non-empty candidate string is the text obtained. A missing or empty one gives "{}". A non-ok response throws "Gemini API Error: " followed by the status text. A failed call, an unreadable body and a truthy non-string text throw their own error's message. |
| `AnalyzeArticle.EmptyAnswerDefaults` | supabase/functions/analyze-article/index.ts:129 | A missing or empty candidate text becomes "{}", and the repair leaves "{}" as it is. |
| `AnalyzeArticle.ParsedAnswer` | supabase/functions/analyze-article/index.ts:131-150 | The answer is the parse of the repaired text. Wrapping backtick-free text in "```json" … "```" gives the same parse, and so does repairing the text a second time first. |
| `JsString.IndexOf` | supabase/functions/analyze-article/index.ts:136 | The result is -1 exactly when the character is absent. Otherwise it is an index holding the character with none before it. |
| `JsString.LastIndexOf` | supabase/functions/analyze-article/index.ts:137 | The result is -1 exactly when the character is absent. Otherwise it is an index holding the character with none after it. |
| `JsString.Substring` | supabase/functions/analyze-article/index.ts:140 | With in-range arguments, start ≤ end gives the slice from start to end. start > end gives the slice from end to start, because the arguments are swapped. An end past the text is clamped to its length. A negative start, or a negative end, is clamped to 0. The result is never longer than the text. |
| `JsString.RemoveAll` | supabase/functions/analyze-article/index.ts:133 | Deletion never lengthens the text. Text without the pattern's first character is left unchanged. |
| `JsString.RemoveAllAbsent` | supabase/functions/analyze-article/index.ts:133 | Deleting a pattern that does not occur leaves the text unchanged. |
| `JsString.RemoveAllSkipsPrefix` | supabase/functions/analyze-article/index.ts:133 | Deletion passes over a prefix that lacks the pattern's first character, leaving it as it is. |
| `ResponseRepair.StripFences` | supabase/functions/analyze-article/index.ts:133 | After stripping, the text contains no "```" and is no longer than the input. |
| `ResponseRepair.FenceRemovalLeavesNone` | supabase/functions/analyze-article/index.ts:133 | Deleting every "```" from left to right leaves none: text on the two sides of a deleted fence never joins into a new one. |
| `ResponseRepair.OtherTagSurvives` | supabase/functions/analyze-article/index.ts:133 | Only the exact lower-case tag is removed with its fence. Text between two fences that has no backtick and does not start with "json", such as "JSON{}" after "```JSON" or "js" after "```js", is kept whole. |
| `ResponseRepair.SliceBraces` | supabase/functions/analyze-article/index.ts:136-141 | When either brace is absent, the text is unchanged. The result is never longer than the input. |
| `ResponseRepair.SliceSpan` | supabase/functions/analyze-article/index.ts:136-141 | When the first `{` comes before the last `}`, the candidate is exactly that inclusive span. It starts with `{` and ends with `}`. |
| `ResponseRepair.SliceReversed` | supabase/functions/analyze-article/index.ts:139-140 | When the last `}` comes before the first `{`, the candidate is the text strictly between them, because substring swaps its arguments. That text contains no brace. |
| `ResponseRepair.SliceIdempotent` | supabase/functions/analyze-article/index.ts:136-141 | Slicing twice equals slicing once, in all three cases. |
| `ResponseRepair.Repair` | supabase/functions/analyze-article/index.ts:133-141 | The text handed to `JSON.parse` contains no "```". |
| `ResponseRepair.RepairIdempotent` | supabase/functions/analyze-article/index.ts:133-141 | Strip-then-slice applied twice equals strip-then-slice applied once. |
| `ResponseRepair.FenceInsensitive` | supabase/functions/analyze-article/index.ts:132-133 | Wrapping backtick-free text in "```json" … "```" does not change the repaired text. |
| `ResponseRepair.IsolatesObject` | supabase/functions/analyze-article/index.ts:135-141 | Prose without braces or backticks around one `{…}` object is cut away, and exactly the object is left. |
| `ArticleAnalysis.RiskBadgeVariant` | src/components/ArticleAnalysis.tsx:24-35 | low maps to success, medium to warning and high to destructive, each in both directions. Every other string maps to default. |
| `ArticleAnalysis.RiskTextColor` | src/components/ArticleAnalysis.tsx:37-48 | A known level gets "text-" followed by its badge variant's name. Any other string gets the muted class. |
| `ArticleAnalysis.RiskBgColor` | src/components/ArticleAnalysis.tsx:50-61 | A known level gets "bg-" followed by its badge variant's name and "/10". Any other string gets "bg-muted/10". |
| `ArticleAnalysis.RiskIcon` | src/components/ArticleAnalysis.tsx:63-74 | The icon is CheckCircle exactly for the success variant, AlertCircle exactly for warning or destructive, and Info exactly for default. |
| `ArticleAnalysis.RiskLevelIsCaseSensitive` | src/components/ArticleAnalysis.tsx:24-74 | "High" is unknown to all four risk mappers. |
| `ArticleAnalysis.AsciiUpper` | src/components/ArticleAnalysis.tsx:179 | A lower-case ASCII letter maps to its upper-case form. Every other character is unchanged. |
| `ArticleAnalysis.ToUpperAscii` | src/components/ArticleAnalysis.tsx:179 | Upper-casing keeps the length and upper-cases character by character. |
| `ArticleAnalysis.ToUpperAsciiIdempotent` | src/components/ArticleAnalysis.tsx:179 | No lower-case ASCII letter remains, and upper-casing again changes nothing. |
| `ArticleAnalysis.RiskBadgeText` | src/components/ArticleAnalysis.tsx:179 | The badge shows text exactly when `risk_level` is present. The text is the upper-cased level followed by " RISK". |
| `ArticleAnalysis.RiskBadgeTextExamples` | src/components/ArticleAnalysis.tsx:179 | "medium" gives "MEDIUM RISK" and "unknown" gives "UNKNOWN RISK". A missing level renders no text. |
| `ArticleAnalysis.IsPolitical` | src/components/ArticleAnalysis.tsx:77 | The card is shown exactly when `article_type` is present and equals "political". |
| `ArticleAnalysis.PoliticalCardExactMatch` | src/components/ArticleAnalysis.tsx:77 | The political card is shown exactly when `article_type` is the string "political". It is not shown for "Political", for "political analysis" or for a missing type. |
| `ArticleAnalysis.Below` | src/components/ArticleAnalysis.tsx:80-91 | `score < bound` holds exactly for minus infinity and for a finite score under the bound. NaN, undefined and plus infinity compare false. |
| `ArticleAnalysis.BiasLabel` | src/components/ArticleAnalysis.tsx:79-85 | The label is one of the five bias bands. A NaN, undefined or plus-infinite score gets "Right-Leaning". Minus infinity gets "Left-Leaning". |
| `ArticleAnalysis.BiasLabelIsBand` | src/components/ArticleAnalysis.tsx:79-85 | A finite score's label is the band indexed by how many of 30, 45, 55 and 70 the score has reached. |
| `ArticleAnalysis.BiasLabelPartition` | src/components/ArticleAnalysis.tsx:79-85 | A score gets band k exactly when it is at least threshold k-1 and below threshold k. Each boundary value belongs to the higher band. |
| `ArticleAnalysis.BiasLabelMonotone` | src/components/ArticleAnalysis.tsx:79-85 | For s1 ≤ s2, the label of s2 is never further left than the label of s1: its position in the list Left-Leaning, Center-Left, Center, Center-Right, Right-Leaning is at least as high. |
| `ArticleAnalysis.StyleLabel` | src/components/ArticleAnalysis.tsx:87-92 | The label is one of the four style bands. A NaN, undefined or plus-infinite score gets "Highly Factual". Minus infinity gets "Opinion-Heavy". |
| `ArticleAnalysis.StyleLabelIsBand` | src/components/ArticleAnalysis.tsx:87-92 | A finite score's label is the band indexed by how many of 30, 50 and 70 the score has reached. |
| `ArticleAnalysis.StyleLabelPartition` | src/components/ArticleAnalysis.tsx:87-92 | A score gets band k exactly when it is at least threshold k-1 and below threshold k. Each boundary value belongs to the higher band. |
| `ArticleAnalysis.StyleLabelMonotone` | src/components/ArticleAnalysis.tsx:87-92 | For s1 ≤ s2, the label of s2 is never further towards Opinion-Heavy than the label of s1: its position in the list Opinion-Heavy, Mixed, Mostly Factual, Highly Factual is at least as high. |
| `ArticleAnalysis.BoundariesGoUp` | src/components/ArticleAnalysis.tsx:79-92 | 30 gives Center-Left, 45 gives Center, 55 gives Center-Right and 70 gives Right-Leaning. For style, 30 gives Mixed, 50 gives Mostly Factual and 70 gives Highly Factual. |
| `ArticleAnalysis.CountReachedMonotone` | src/components/ArticleAnalysis.tsx:79-92 | A larger score has reached at least as many thresholds. |
| `ArticleAnalysis.BandBounds` | src/components/ArticleAnalysis.tsx:79-92 | With ascending thresholds, having reached exactly k of them means lying between threshold k-1 (included) and threshold k (excluded). |

## Left out

- The two outbound HTTP calls, to the Jina reader and to Gemini: their answers are inputs to `Handle`, and the handler records only the reader URL and the prompt it sends. The Gemini endpoint URL, which carries the API key, is not recorded.
- `JSON.parse`, `req.json()` and `response.json()`: these are foreign parsers. Their success or failure and their results are inputs. `parse` stands for `JSON.stringify(JSON.parse(text))`.
- The `Deno.env` secret lookup: the secret is an `Option<string>` input.
- `serve`, the construction of `Response` objects and the `JSON.stringify` of the error envelope: a response is a status, a header list and a body value.
- All `console` logging, including the warning for text shorter than 200 characters. That warning has no effect on the answer, so the model has no step for it.
- Gemini's generation settings (`temperature: 0.3`, `responseMimeType`): they are configuration sent to a service outside the model.
- JSX rendering, the Tailwind classes outside the mapper results, and the meters' `calc(score% - 10px)` marker position.
- The claims, consequences and actions lists of the component: the backend's prompt asks for a different schema, so the component is not modelled as consuming the handler's output.
- src/pages/Index.tsx is not part of this model. It holds React state, toasts and the network call. Its one check, that the trimmed url is non-empty, runs only in the browser.
- Truncate: counts length in Unicode scalar values, where JavaScript counts UTF-16 code units. Text with characters outside the Basic Multilingual Plane is therefore cut later than the source cuts it, and a surrogate pair is never split; `TruncateCountsCodeUnits` states agreement only for text inside that plane.
- ToUpperAscii: upper-cases only ASCII letters. JavaScript's `toUpperCase` also maps other letters, for example "é" to "É" and "ß" to "SS", and such letters are left unchanged here.
- Handle: does not model an exception thrown by `response.text()` or by the runtime after a response is built. The handler treats any such exception like any other error in its outer `catch`.
