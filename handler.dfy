/**
 * `handle_request` of api/index.py: the decision that turns one POST
 * request into an HTTP status and a JSON envelope. Parsing the body, the
 * captions provider and JSON serialisation are outside the model: the
 * parse outcome and the provider are inputs, the envelope is a datatype.
 */
module Handler {
  import opened Wrappers
  import opened VideoId
  import opened Transcript

  /** A JSON value as `json.load` returns it (a `dict` for an object). */
  datatype Json =
    | JNull
    | JBool(b: bool)
    | JNumber(n: real)
    | JString(s: string)
    | JArray(items: seq<Json>)
    | JObject(fields: map<string, Json>)

  /** Python truthiness of a decoded JSON value, as `if not url` reads it. */
  predicate Truthy(v: Json) {
    match v
    case JNull => false
    case JBool(b) => b
    case JNumber(n) => n != 0.0
    case JString(s) => s != ""
    case JArray(items) => items != []
    case JObject(fields) => fields != map[]
  }

  /** `dict.get(key)`: a missing key reads as `None`, that is JSON `null`. */
  function Get(fields: map<string, Json>, key: string): (v: Json)
    ensures key !in fields ==> v == JNull
    ensures key in fields ==> v == fields[key]
  {
    if key in fields then fields[key] else JNull
  }

  /**
   * What `json.load(request.body)` does: raise `json.JSONDecodeError`,
   * raise any other exception (a body that cannot be read or decoded), or
   * return a value.
   */
  datatype RequestBody = Malformed | Unreadable | Parsed(value: Json)

  /** The JSON envelope `{'status': ..., 'captions': ...}` or `{'status': ..., 'message': ...}`. */
  datatype Body = Body(status: bool, captions: Option<string>, message: Option<string>)

  /** The dict `{'status': <HTTP status>, 'body': <envelope>}` that `handle_request` returns. */
  datatype Response = Response(status: int, body: Body)

  const InvalidJsonMessage: string := "Invalid JSON"
  const NoUrlMessage: string := "No URL provided"
  const InvalidUrlMessage: string := "Invalid URL"
  const NoCaptionsMessage: string := "No captions available"
  const InternalErrorMessage: string := "Internal server error"

  /** An envelope with `'status': False` and a message. */
  function Failure(code: int, message: string): Response {
    Response(code, Body(false, None, Some(message)))
  }

  /** An envelope with `'status': True` and the captions text. */
  function Success(captions: string): Response {
    Response(200, Body(true, Some(captions), None))
  }

  /**
   * `handle_request(request)`, where `request` is what reading the body
   * produced and `fetch` is the captions provider, which `get_transcript`
   * calls with the extracted video id. The decisions are taken in this
   * order: malformed JSON (400), a body that is not a dict or cannot be
   * read (500), a missing or falsy `url` (400), a truthy `url` that is not
   * a string (500), no extracted id (400), captions that are `None` or
   * empty (200, `status` false), captions (200, `status` true). The lemmas
   * below characterise each outcome.
   */
  function HandleRequest(request: RequestBody, fetch: string -> ProviderOutcome): (r: Response)
    ensures r.status in {200, 400, 500}
    ensures r.body.status <==> r.status == 200 && r.body.captions.Some? && r.body.captions.value != ""
    ensures r.body.status ==> r.body.message.None?
    ensures !r.body.status ==> r.body.captions.None? && r.body.message.Some?
    ensures r.status == 500 ==> r.body.message == Some(InternalErrorMessage)
    ensures r.status == 400 ==> r.body.message.value in {InvalidJsonMessage, NoUrlMessage, InvalidUrlMessage}
    ensures r.status == 200 && !r.body.status ==> r.body.message == Some(NoCaptionsMessage)
  {
    match request
    case Malformed => Failure(400, InvalidJsonMessage)
    case Unreadable => Failure(500, InternalErrorMessage)
    case Parsed(data) =>
      // `data.get` exists only on a dict
      if !data.JObject? then Failure(500, InternalErrorMessage)
      else
        var url := Get(data.fields, "url");
        if !Truthy(url) then Failure(400, NoUrlMessage)
        // `re.search` raises on anything but a string
        else if !url.JString? then Failure(500, InternalErrorMessage)
        else
          var vid := ExtractVideoId(url.s);
          if vid.None? || vid.value == "" then Failure(400, InvalidUrlMessage)
          else
            var captions := GetTranscript(fetch(vid.value));
            if captions.Some? && captions.value != "" then Success(captions.value)
            else Failure(200, NoCaptionsMessage)
  }

  /** The body parsed to a dict whose `url` entry is the string `u`. */
  predicate UrlIs(request: RequestBody, u: string) {
    request.Parsed? && request.value.JObject? && Get(request.value.fields, "url") == JString(u)
  }

  /** Malformed JSON, and nothing else, gets 400 "Invalid JSON". */
  lemma InvalidJsonIff(request: RequestBody, fetch: string -> ProviderOutcome)
    ensures HandleRequest(request, fetch) == Failure(400, InvalidJsonMessage) <==> request.Malformed?
  {
  }

  /** A dict body whose `url` is missing or falsy, and nothing else, gets 400 "No URL provided". */
  lemma NoUrlIff(request: RequestBody, fetch: string -> ProviderOutcome)
    ensures HandleRequest(request, fetch) == Failure(400, NoUrlMessage) <==>
      request.Parsed? && request.value.JObject? && !Truthy(Get(request.value.fields, "url"))
  {
  }

  /** A non-empty string `url` from which no id is extracted, and nothing else, gets 400 "Invalid URL". */
  lemma InvalidUrlIff(request: RequestBody, fetch: string -> ProviderOutcome)
    ensures HandleRequest(request, fetch) == Failure(400, InvalidUrlMessage) <==>
      exists u :: UrlIs(request, u) && u != "" && ExtractVideoId(u) == None
  {
  }

  /**
   * An extracted id whose captions are unavailable (any provider
   * failure) or empty, and nothing else, gets 200 with `status` false.
   */
  lemma NoCaptionsIff(request: RequestBody, fetch: string -> ProviderOutcome)
    ensures HandleRequest(request, fetch) == Failure(200, NoCaptionsMessage) <==>
      exists u, id :: UrlIs(request, u) && ExtractVideoId(u) == Some(id) && GetTranscript(fetch(id)) in {None, Some("")}
  {
  }

  /** The joined captions are returned exactly when they were fetched and are non-empty. */
  lemma CaptionsIff(request: RequestBody, fetch: string -> ProviderOutcome, text: string)
    ensures HandleRequest(request, fetch) == Success(text) <==>
      text != "" && exists u, id :: UrlIs(request, u) && ExtractVideoId(u) == Some(id) && GetTranscript(fetch(id)) == Some(text)
  {
  }

  /**
   * Every other failure gets 500 with only the generic message: a
   * body that cannot be read, a JSON value that is not a dict, or a truthy
   * `url` that is not a string.
   */
  lemma InternalErrorIff(request: RequestBody, fetch: string -> ProviderOutcome)
    ensures HandleRequest(request, fetch).status == 500 <==>
      || request.Unreadable?
      || (request.Parsed? && !request.value.JObject?)
      || (request.Parsed? && request.value.JObject? &&
          var url := Get(request.value.fields, "url"); Truthy(url) && !url.JString?)
  {
  }

  /** A failing provider never turns into a server error: it is reported as "No captions available". */
  lemma ProviderFailureIsNoCaptions(request: RequestBody, fetch: string -> ProviderOutcome, u: string, id: string)
    requires UrlIs(request, u) && ExtractVideoId(u) == Some(id)
    requires fetch(id).ProviderError? || (fetch(id).Fetched? && !AllText(fetch(id).fragments))
    ensures HandleRequest(request, fetch) == Failure(200, NoCaptionsMessage)
  {
  }

  /**
   * The captions returned hold the fragment texts in the provider's order:
   * splitting them at spaces gives the pieces of each fragment text in
   * turn, which are the texts themselves when none contains a space.
   */
  lemma CaptionsAreFragmentsInOrder(request: RequestBody, fetch: string -> ProviderOutcome, u: string, id: string)
    requires UrlIs(request, u) && ExtractVideoId(u) == Some(id)
    requires fetch(id).Fetched? && |fetch(id).fragments| >= 1 && AllText(fetch(id).fragments)
    requires GetTranscript(fetch(id)) != Some("")
    ensures HandleRequest(request, fetch).body.status
    ensures Split(HandleRequest(request, fetch).body.captions.value) == SplitEach(Texts(fetch(id).fragments))
    ensures (forall n :: 0 <= n < |fetch(id).fragments| ==> ' ' !in fetch(id).fragments[n].text) ==>
      Split(HandleRequest(request, fetch).body.captions.value) == Texts(fetch(id).fragments)
  {
    TranscriptKeepsOrder(fetch(id).fragments);
  }

  /** A provider that returns the same three fragments for every id. */
  function ThreeWords(id: string): ProviderOutcome {
    Fetched([Text("Never"), Text("gonna"), Text("give")])
  }

  /** A provider whose transcripts are disabled for every id. */
  function Disabled(id: string): ProviderOutcome {
    ProviderError
  }

  function UrlRequest(u: string): RequestBody {
    Parsed(JObject(map["url" := JString(u)]))
  }

  /** Unfolds `HandleRequest` for the concrete requests below, whose `url` is a non-empty string. */
  lemma UrlRequestReachesProvider(u: string, fetch: string -> ProviderOutcome)
    requires u != ""
    ensures HandleRequest(UrlRequest(u), fetch) ==
      match ExtractVideoId(u)
      case None => Failure(400, InvalidUrlMessage)
      case Some(id) =>
        var captions := GetTranscript(fetch(id));
        if captions.Some? && captions.value != "" then Success(captions.value)
        else Failure(200, NoCaptionsMessage)
  {
  }

  /** The three fragments join to one line of captions. */
  lemma ThreeWordsCaptions(id: string)
    ensures GetTranscript(ThreeWords(id)) == Some("Never gonna give")
  {
    var fragments := [Text("Never"), Text("gonna"), Text("give")];
    assert ThreeWords(id) == Fetched(fragments);
    assert AllText(fragments);
    assert Texts(fragments) == ["Never", "gonna", "give"];
    assert Join(["Never", "gonna", "give"]) == "Never gonna give";
  }

  /** A watch link, such as one to `dQw4w9WgXcQ`, gives the joined captions. */
  lemma WatchLinkScenario(id: string)
    requires |id| > 0 && AllIdChars(id)
    ensures HandleRequest(UrlRequest(WatchUrl(id)), ThreeWords) == Success("Never gonna give")
  {
    WatchUrlRoundTrip(id);
    UrlRequestReachesProvider(WatchUrl(id), ThreeWords);
    ThreeWordsCaptions(id);
  }

  /** A short link to the same video gives the same captions. */
  lemma ShortLinkScenario(id: string)
    requires |id| > 0 && AllIdChars(id)
    ensures HandleRequest(UrlRequest(ShortUrl(id)), ThreeWords) == Success("Never gonna give")
  {
    ShortUrlRoundTrip(id);
    UrlRequestReachesProvider(ShortUrl(id), ThreeWords);
    ThreeWordsCaptions(id);
  }

  /** Disabled transcripts give 200 with `status` false. */
  lemma DisabledScenario(id: string)
    requires |id| > 0 && AllIdChars(id)
    ensures HandleRequest(UrlRequest(ShortUrl(id)), Disabled) == Failure(200, NoCaptionsMessage)
  {
    ShortUrlRoundTrip(id);
    UrlRequestReachesProvider(ShortUrl(id), Disabled);
  }

  /** Text that is not a link gives 400 "Invalid URL". */
  lemma NotAUrlScenario()
    ensures HandleRequest(UrlRequest("not a url"), ThreeWords) == Failure(400, InvalidUrlMessage)
  {
    NotAUrlHasNoId();
    UrlRequestReachesProvider("not a url", ThreeWords);
  }

  /** The rows decided before extraction, on concrete requests. */
  lemma EarlyExitScenarios()
    ensures HandleRequest(Parsed(JObject(map[])), ThreeWords) == Failure(400, NoUrlMessage)
    ensures HandleRequest(UrlRequest(""), ThreeWords) == Failure(400, NoUrlMessage)
    ensures HandleRequest(Malformed, ThreeWords) == Failure(400, InvalidJsonMessage)
    ensures HandleRequest(Parsed(JArray([])), ThreeWords) == Failure(500, InternalErrorMessage)
    ensures HandleRequest(Parsed(JObject(map["url" := JNumber(7.0)])), ThreeWords) == Failure(500, InternalErrorMessage)
  {
  }
}
