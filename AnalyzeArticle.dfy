/**
  The `analyze-article` edge function: a single request handler that answers
  the CORS preflight, checks the `url` field, scrapes the article through the
  Jina reader, asks Gemini for a JSON analysis, repairs the reply and parses
  it. The two HTTP calls, the secret store and `JSON.parse` are outside the
  model: their results are inputs, and the handler reports which outbound
  calls it made, in order.
*/
module AnalyzeArticle {
  import opened Wrappers
  import opened JsString
  import opened ResponseRepair

  // ---------------------------------------------------------------------
  // Constants

  /**
    Scraped text is cut to this many characters. JavaScript counts UTF-16
    code units; the model counts Unicode scalar values (see `Utf16Length`).
  */
  const MaxArticleChars: nat := 30000

  const ReaderPrefix: string := "https://r.jina.ai/"

  const UrlRequired: string := "Valid 'url' is required"
  const ScrapeFailed: string := "Failed to scrape article content. The site may be blocking bots."
  const KeyMissing: string := "GOOGLE_API_KEY is missing in Supabase secrets."
  const GeminiErrorPrefix: string := "Gemini API Error: "
  const ParseFailed: string := "Failed to parse AI response as JSON"
  const InternalError: string := "Internal Server Error"

  /** The text a missing or empty model answer is replaced by. */
  const EmptyObject: string := "{}"

  type Header = (string, string)

  const CorsHeaders: seq<Header> := [
    ("Access-Control-Allow-Origin", "*"),
    ("Access-Control-Allow-Headers", "authorization, x-client-info, apikey, content-type")
  ]

  /** The CORS headers followed by the JSON content type, on every non-preflight answer. */
  const JsonHeaders: seq<Header> := CorsHeaders + [("Content-Type", "application/json")]

  /** The fixed instructions of the prompt: role, schema and formatting rules. */
  const Instructions: string := @"
      You are a Decision Intelligence AI for Business. 
      Analyze the following article (provided in Markdown format) and return a **valid JSON object**.
      Do not include markdown formatting (like ```json) in your response.

      Required JSON Structure:
      {
        ""article_summary"": ""Executive summary (max 2 sentences)"",
        ""risk_level"": ""low"" or ""medium"" or ""high"",
        ""credibility_check"": ""1 sentence on source reliability"",
        
        ""decision_impact_analysis"": [
           {
             ""claim"": ""Specific claim from the text"",
             ""domain"": ""Strategy"" or ""Finance"" or ""Tech"",
             ""implied_action"": ""What a reader might do"",
             ""predicted_consequence"": ""Risk if this is wrong"",
             ""recommendation"": ""Verification step""
           }
        ],
        
        ""integrity_analysis"": {
           ""promotional_score"": number 0-100,
           ""intent"": ""Informational"" or ""Commercial"",
           ""logical_fallacies"": [""List fallacies or 'None'""],
           ""conflict_of_interest_warning"": ""Any potential bias detected""
        },
        
        ""entities_and_funding"": [
           {
             ""name"": ""Company/Person"",
             ""role"": ""Subject"",
             ""background_check"": ""Brief context""
           }
        ],

        ""missing_perspectives"": [""List 2-3 missing viewpoints""]
      }

      "

  const ArticleMarker: string := "Article Markdown:"

  /** Everything the template literal holds before the article text. */
  const PromptHead: string := Instructions + ArticleMarker + "\n      "

  /** Everything the template literal holds after the article text. */
  const PromptTail: string := "\n    "

  // ---------------------------------------------------------------------
  // Inputs and outputs

  /** The `url` property of the request body, as JavaScript sees it. */
  datatype UrlField =
    | Missing                  // absent, `undefined` or `null`
    | StringUrl(url: string)   // a string, possibly empty
    | NonString                // a number, boolean, object or array

  /** What `await req.json()` and the destructuring of `{ url }` produce. */
  datatype RequestBody =
    | Unreadable(message: string)   // not JSON, or JSON `null`: the runtime throws
    | Json(url: UrlField)

  datatype Request = Request(verb: string, body: RequestBody)

  /** The reader's answer to `fetch`, as far as the handler looks at it. */
  datatype ReaderReply =
    | ReaderUnreachable                   // `fetch` or `.text()` threw
    | ReaderResponse(ok: bool, text: string)

  /** `data.candidates?.[0]?.content?.parts?.[0]?.text`. */
  datatype CandidateText =
    | NoText                       // absent, or a falsy value that is not a string
    | TextString(text: string)     // a string, possibly empty
    | TextOther(message: string)   // a truthy non-string: `.replace` throws this TypeError

  /** The body of a Gemini answer once `response.json()` has run. */
  datatype ModelData =
    | DataUnreadable(message: string)   // `response.json()` threw, or `data` is `null`
    | Data(text: CandidateText)

  /** Gemini's answer to `fetch`. */
  datatype ModelReply =
    | ModelUnreachable(message: string)
    | ModelResponse(ok: bool, statusText: string, data: ModelData)

  /** An outbound HTTP call the handler issued. */
  datatype Call =
    | ReaderFetch(target: string)
    | ModelRequest(prompt: string)

  /** The response body: `null`, the `{error}` envelope, or the parsed analysis re-serialised. */
  datatype Body = NullBody | ErrorEnvelope(error: string) | Analysis(json: string)

  datatype Response = Response(status: int, headers: seq<Header>, body: Body)

  // ---------------------------------------------------------------------
  // The pieces the handler applies

  /** `!url || typeof url !== "string"` rejects the body. */
  predicate UrlAccepted(u: UrlField): (accepted: bool)
    ensures !accepted <==> u == Missing || u == StringUrl("") || u == NonString
  {
    u.StringUrl? && u.url != ""
  }

  /** `!GOOGLE_API_KEY` rejects an unset or empty secret. */
  predicate KeyPresent(apiKey: Option<string>): (present: bool)
    ensures !present <==> apiKey == None || apiKey == Some("")
  {
    apiKey.Some? && apiKey.value != ""
  }

  /** The reader answered with an ok status and its text could be read. */
  predicate ScrapeSucceeded(reader: ReaderReply): (succeeded: bool)
    ensures !succeeded <==> reader == ReaderUnreachable || (reader.ReaderResponse? && !reader.ok)
  {
    reader.ReaderResponse? && reader.ok
  }

  /** `https://r.jina.ai/${url}`: the url is appended without encoding. */
  function ReaderUrl(url: string): (r: string)
    ensures |r| == |ReaderPrefix| + |url|
    ensures r[..|ReaderPrefix|] == ReaderPrefix && r[|ReaderPrefix|..] == url
  {
    ReaderPrefix + url
  }

  /** `articleText.substring(0, 30000)`. */
  function Truncate(text: string): (r: string)
    ensures |r| == if |text| < MaxArticleChars then |text| else MaxArticleChars
    ensures r == text[..|r|]
  {
    Substring(text, 0, MaxArticleChars)
  }

  /** The template literal with the article text embedded at its end. */
  function BuildPrompt(articleText: string): (p: string)
    ensures |p| == |PromptHead| + |articleText| + |PromptTail|
    ensures p[..|PromptHead|] == PromptHead
    ensures p[|PromptHead|..|PromptHead| + |articleText|] == articleText
  {
    PromptHead + articleText + PromptTail
  }

  /** Reads the article text back out of a prompt. */
  function ArticleOf(prompt: string): string
    requires |prompt| >= |PromptHead| + |PromptTail|
  {
    prompt[|PromptHead|..|prompt| - |PromptTail|]
  }

  /**
    `throw error` inside the outer `try` answers with
    `error.message || "Internal Server Error"`.
  */
  function CaughtMessage(message: string): (r: string)
    ensures r != ""
    ensures message != "" ==> r == message
    ensures message == "" ==> r == InternalError
  {
    if message == "" then InternalError else message
  }

  /** The `{error}` envelope with the JSON headers. */
  function ErrorResponse(status: int, message: string): (r: Response)
    ensures r.status == status && r.body.ErrorEnvelope? && r.body.error == message
    ensures |r.headers| == |CorsHeaders| + 1 && r.headers[..|CorsHeaders|] == CorsHeaders
    ensures r.headers[|CorsHeaders|] == ("Content-Type", "application/json")
  {
    Response(status, JsonHeaders, ErrorEnvelope(message))
  }

  /**
    The raw text taken from Gemini's answer (`text || "{}"`), or the
    message of the error the handler throws on the way.
  */
  function ModelText(model: ModelReply): (r: Outcome<string>)
    ensures r.Ok? ==> r.value != ""
    ensures r.Ok? <==> model.ModelResponse? && model.ok && model.data.Data? && !model.data.text.TextOther?
    ensures model.ModelResponse? && !model.ok ==> r == Thrown(GeminiErrorPrefix + model.statusText)
    ensures model.ModelUnreachable? ==> r == Thrown(model.message)
    ensures model.ModelResponse? && model.ok && model.data.DataUnreadable? ==> r == Thrown(model.data.message)
    ensures model.ModelResponse? && model.ok && model.data.Data? && model.data.text.TextOther? ==>
              r == Thrown(model.data.text.message)
    ensures (model.ModelResponse? && model.ok && model.data.Data? && model.data.text.TextString? &&
             model.data.text.text != "") ==> r == Ok(model.data.text.text)
    ensures (model.ModelResponse? && model.ok && model.data.Data? &&
             (model.data.text.NoText? || model.data.text == TextString(""))) ==> r == Ok(EmptyObject)
  {
    match model
    case ModelUnreachable(message) => Thrown(message)
    case ModelResponse(ok, statusText, data) =>
      if !ok then Thrown(GeminiErrorPrefix + statusText)
      else
        match data
        case DataUnreadable(message) => Thrown(message)
        case Data(NoText) => Ok(EmptyObject)
        case Data(TextString(text)) => Ok(if text == "" then EmptyObject else text)
        case Data(TextOther(message)) => Thrown(message)
  }

  /**
    What the handler answers with once Gemini's text is in hand: the parse
    of the repaired text, or `None` when `JSON.parse` throws.
  */
  function ParsedAnswer(text: string, parse: string -> Option<string>): (r: Option<string>)
    ensures r == parse(Repair(text))
    ensures '`' !in text ==> r == parse(Repair(JsonFence + text + Fence))
    ensures r == parse(Repair(Repair(text)))
  {
    if '`' !in text then
      FenceInsensitive(text);
      RepairIdempotent(text);
      parse(Repair(text))
    else
      RepairIdempotent(text);
      parse(Repair(text))
  }

  // ---------------------------------------------------------------------
  // The handler

  /**
    One invocation of the `serve` callback. `parse` stands for
    `JSON.stringify(JSON.parse(text))`: `None` when `JSON.parse` throws.
  */
  method Handle(req: Request, apiKey: Option<string>, reader: ReaderReply, model: ModelReply,
                parse: string -> Option<string>)
    returns (resp: Response, calls: seq<Call>)
    // every answer carries the CORS headers; all but the preflight also the JSON type
    ensures resp.headers == if resp.body.NullBody? then CorsHeaders else JsonHeaders
    ensures resp.status in {200, 400, 500}
    // the preflight
    ensures req.verb == "OPTIONS" ==> resp == Response(200, CorsHeaders, NullBody) && calls == []
    // a body the runtime cannot read
    ensures req.verb != "OPTIONS" && req.body.Unreadable? ==>
              resp == ErrorResponse(500, CaughtMessage(req.body.message)) && calls == []
    // the url check comes before any fetch
    ensures resp.status == 400 <==> req.verb != "OPTIONS" && req.body.Json? && !UrlAccepted(req.body.url)
    ensures resp.status == 400 ==> resp.body == ErrorEnvelope(UrlRequired) && calls == []
    ensures calls != [] <==> req.verb != "OPTIONS" && req.body.Json? && UrlAccepted(req.body.url)
    ensures calls != [] ==> calls[0] == ReaderFetch(ReaderUrl(req.body.url.url))
    // a failed scrape is a fixed 500 and Gemini is never called
    ensures calls != [] && !ScrapeSucceeded(reader) ==> resp == ErrorResponse(500, ScrapeFailed) && |calls| == 1
    // the secret is checked after the scrape and before the model call
    ensures calls != [] && ScrapeSucceeded(reader) && !KeyPresent(apiKey) ==>
              resp == ErrorResponse(500, KeyMissing) && |calls| == 1
    ensures |calls| <= 2
    ensures |calls| == 2 <==> calls != [] && ScrapeSucceeded(reader) && KeyPresent(apiKey)
    ensures |calls| == 2 ==> calls[1] == ModelRequest(BuildPrompt(Truncate(reader.text)))
    // failures of the model call
    ensures |calls| == 2 && ModelText(model).Thrown? ==>
              resp == ErrorResponse(500, CaughtMessage(ModelText(model).message))
    ensures |calls| == 2 && ModelText(model).Ok? && ParsedAnswer(ModelText(model).value, parse).None? ==>
              resp == ErrorResponse(500, ParseFailed)
    // success is exactly a parsed repair of the model's text
    ensures resp.body.Analysis? <==>
              |calls| == 2 && ModelText(model).Ok? && ParsedAnswer(ModelText(model).value, parse).Some?
    ensures resp.body.Analysis? ==>
              resp == Response(200, JsonHeaders, Analysis(ParsedAnswer(ModelText(model).value, parse).value))
    ensures resp.status == 200 <==> req.verb == "OPTIONS" || resp.body.Analysis?
  {
    calls := [];
    if req.verb == "OPTIONS" {
      return Response(200, CorsHeaders, NullBody), calls;
    }
    if req.body.Unreadable? {
      return ErrorResponse(500, CaughtMessage(req.body.message)), calls;
    }
    var url := req.body.url;
    if !UrlAccepted(url) {
      return ErrorResponse(400, UrlRequired), calls;
    }

    var articleText := "";
    calls := calls + [ReaderFetch(ReaderUrl(url.url))];
    if !ScrapeSucceeded(reader) {
      return ErrorResponse(500, ScrapeFailed), calls;
    }
    articleText := reader.text;
    articleText := Truncate(articleText);

    if !KeyPresent(apiKey) {
      return ErrorResponse(500, CaughtMessage(KeyMissing)), calls;
    }

    var prompt := BuildPrompt(articleText);
    calls := calls + [ModelRequest(prompt)];
    var answer := ModelText(model);
    if answer.Thrown? {
      return ErrorResponse(500, CaughtMessage(answer.message)), calls;
    }

    var rawContent := answer.value;
    rawContent := StripFences(rawContent);
    rawContent := SliceBraces(rawContent);
    assert rawContent == Repair(answer.value);

    var analysisResult := parse(rawContent);
    if analysisResult.None? {
      return ErrorResponse(500, CaughtMessage(ParseFailed)), calls;
    }
    resp := Response(200, JsonHeaders, Analysis(analysisResult.value));
  }

  // ---------------------------------------------------------------------
  // Lemmas

  /** The article text can be read back out of the prompt unchanged. */
  lemma ArticleRoundTrip(articleText: string)
    ensures ArticleOf(BuildPrompt(articleText)) == articleText
  {
    var p := BuildPrompt(articleText);
    assert p[|PromptHead|..|p| - |PromptTail|] == p[|PromptHead|..|PromptHead| + |articleText|];
  }

  /** The article is the last thing before the closing whitespace, right after the marker line. */
  lemma ArticleFollowsMarker(articleText: string)
    ensures var p := BuildPrompt(articleText);
            var at := |Instructions| + |ArticleMarker|;
            p[|Instructions|..at] == ArticleMarker && p[at..|PromptHead|] == "\n      "
  {
    var p := BuildPrompt(articleText);
    assert p[..|PromptHead|] == PromptHead;
    assert PromptHead[|Instructions|..|Instructions| + |ArticleMarker|] == ArticleMarker;
  }

  /**
    The length of a string in UTF-16 code units, as JavaScript's `length`
    counts it: a character outside the Basic Multilingual Plane takes two.
  */
  function Utf16Length(s: string): (n: nat)
    ensures n >= |s|
  {
    if s == [] then 0 else (if s[0] as int < 0x1_0000 then 1 else 2) + Utf16Length(s[1..])
  }

  /** Every character of `s` is a single UTF-16 code unit. */
  predicate InBmp(s: string) {
    forall i :: 0 <= i < |s| ==> s[i] as int < 0x1_0000
  }

  /** For text inside the Basic Multilingual Plane, both counts agree. */
  lemma {:induction false} BmpLength(s: string)
    requires InBmp(s)
    ensures Utf16Length(s) == |s|
  {
    if s != [] {
      assert InBmp(s[1..]);
      BmpLength(s[1..]);
    }
  }

  /**
    For text inside the Basic Multilingual Plane, `Truncate` keeps the
    prefix of min(length, 30000) UTF-16 code units, as `substring` does.
  */
  lemma TruncateCountsCodeUnits(text: string)
    requires InBmp(text)
    ensures var r := Truncate(text);
            r == text[..|r|] &&
            Utf16Length(r) == if Utf16Length(text) < MaxArticleChars then Utf16Length(text) else MaxArticleChars
  {
    var r := Truncate(text);
    assert InBmp(r);
    BmpLength(text);
    BmpLength(r);
  }

  /** Truncating twice is truncating once, and short text is kept whole. */
  lemma TruncateIdempotent(text: string)
    ensures Truncate(Truncate(text)) == Truncate(text)
    ensures |text| <= MaxArticleChars ==> Truncate(text) == text
  {
  }

  /** A whitespace-only url passes the server's check: only the client trims. */
  lemma WhitespaceUrlAccepted()
    ensures UrlAccepted(StringUrl(" "))
    ensures !UrlAccepted(StringUrl("")) && !UrlAccepted(Missing) && !UrlAccepted(NonString)
  {
  }

  /** A missing or empty model answer is replaced by "{}", which the repair keeps as it is. */
  lemma EmptyAnswerDefaults(statusText: string, text: CandidateText)
    requires text.NoText? || text == TextString("")
    ensures ModelText(ModelResponse(true, statusText, Data(text))) == Ok(EmptyObject)
    ensures Repair(EmptyObject) == EmptyObject
  {
    var s := EmptyObject;
    RemoveAllSkipsPrefix(s, [], JsonFence);
    RemoveAllSkipsPrefix(s, [], Fence);
    assert s + [] == s;
    SliceSpan(s, 0, 1);
  }
}
