# youtube-captions: a Dafny model of the request handler

The repository serves one HTTP POST endpoint. It takes a JSON body
`{"url": ...}`, pulls a YouTube video id out of the URL, asks a third-party
transcript library for the video's English captions, and answers with an
HTTP status and a JSON envelope `{status, captions | message}`.
All of that logic lives in `api/index.py`. This project models its three
functions as pure Dafny functions and proves properties about them.

- `video_id.dfy` (module `VideoId`) models `extract_video_id`. It tries
  the three patterns `v=([\w-]+)`, `/v/([\w-]+)` and `youtu\.be/([\w-]+)` in
  that order, and the first one that matches wins. Each `re.search` is modelled
  without a regex engine. The match starts at the leftmost index where the
  literal occurs followed by at least one id character. The greedy `+` takes
  the longest run of id characters after the literal. The ghost predicate
  `IsCaptureAt` states this declaratively, and `Search` is proved to compute
  exactly it.
- `transcript.dfy` (module `Transcript`) models `get_transcript`. It joins
  the fragment texts with single spaces, and any failure of the provider, or
  of reading a fragment's `'text'`, becomes `None`. `Split` is the inverse
  used to show that the fragments keep their order.
- `handler.dfy` (module `Handler`) models `handle_request` as a total
  function. It maps the outcome of parsing the body and a captions provider
  (a function from video id to outcome) to a `Response(status, Body)`.
- `wrappers.dfy` holds `Option`, which stands for Python's `None`-or-value.

What the code accepts as a video id:
- There is no domain check: `https://example.com/watch?v=a-b_c&t=42` yields
  `a-b_c` (`VideoId.NoDomainOrLengthCheck`).
- There is no length rule: any non-empty run of id characters is accepted
  (the round-trip lemmas hold for every length).
- Exactly three literals introduce an id: `v=`, `/v/` and `youtu.be/`, tried
  in that order.

Id characters are `[\w-]` with `\w` restricted to ASCII letters, digits
and `_` (`VideoId.IsIdChar`).

Because every member is a function, calling the handler twice with the same
request and the same provider gives the same response by construction.

## Model

| member | source | states |
|---|---|---|
| VideoId.RunLength | api/index.py:14-16 | the greedy `[\w-]+` run starting at `p` stays inside the URL, consists only of id characters, and is followed by the end of the string or by a non-id character |
| VideoId.FindFrom | api/index.py:19 | the scan finds the leftmost index at or after `k` where the literal occurs followed by an id character; no earlier index matches, and `None` means no index at or after `k` matches |
| VideoId.Search | api/index.py:19-21 | `re.search(lit + r'([\w-]+)', url)` gives `None` exactly when the pattern matches nowhere; otherwise its group 1 is the leftmost, greedy capture described by `IsCaptureAt` |
| VideoId.CaptureUnique | api/index.py:14-16 | the leftmost match and its greedy capture are unique, so the declarative description determines group 1 |
| VideoId.SearchIff | api/index.py:19-21 | `Search` returns `id` if and only if `id` is the leftmost greedy capture of the pattern in the URL |
| VideoId.FirstMatch | api/index.py:18-22 | trying the patterns in order gives `None` exactly when no pattern matches anywhere; otherwise the result is the leftmost greedy capture of the first pattern that matches, and no earlier pattern matches anywhere |
| VideoId.ExtractVideoId | api/index.py:5-22 | `None` exactly when none of `v=`, `/v/`, `youtu.be/` occurs followed by an id character; otherwise a non-empty string of id characters that is the greedy capture after one of the three literals, a contiguous substring of the URL |
| VideoId.WatchPatternFirst | api/index.py:13-21 | when `v=` followed by an id character occurs anywhere, the result is the capture after its leftmost occurrence, even if `/v/` or `youtu.be/` come earlier in the string |
| VideoId.EmbedPatternSecond | api/index.py:13-21 | when `v=` matches nowhere, the capture after the leftmost `/v/` decides, even if `youtu.be/` comes earlier |
| VideoId.ShortPatternLast | api/index.py:13-21 | when neither `v=` nor `/v/` matches anywhere, the capture after the leftmost `youtu.be/` decides (that it decides only then follows from `WatchPatternFirst` and `EmbedPatternSecond`) |
| VideoId.WatchUrlRoundTrip | api/index.py:8-9 | `https://www.youtube.com/watch?v=<s>` gives back `s` for every non-empty string `s` of id characters, whatever its length |
| VideoId.EmbedUrlRoundTrip | api/index.py:10 | `https://www.youtube.com/v/<s>` gives back `s` for every non-empty id string `s` |
| VideoId.ShortUrlRoundTrip | api/index.py:11 | `https://youtu.be/<s>` gives back `s` for every non-empty id string `s` |
| VideoId.WatchBeatsEarlierShortLink | api/index.py:14-16 | in `https://youtu.be/abc?v=xyz` the `v=` pattern wins and the result is `xyz` |
| VideoId.NoDomainOrLengthCheck | api/index.py:14 | `https://example.com/watch?v=a-b_c&t=42` gives `a-b_c`: there is no domain check and no length rule, and the run stops at `&` |
| VideoId.NotAUrlHasNoId | api/index.py:22 | `not a url` gives `None` |
| Transcript.SplitAtSpace | api/index.py:31 | splitting `a + " " + b` at spaces gives the pieces of `a` followed by the pieces of `b`, for all `a` and `b` |
| Transcript.SplitJoinEach | api/index.py:31 | for every non-empty list of texts, splitting the `' '`-joined text gives the pieces of each text in turn, in the list's order |
| Transcript.SplitJoin | api/index.py:31 | joining space-free texts with `' '` and splitting at spaces gives the texts back |
| Transcript.JoinEmptyIff | api/index.py:31 | the joined text is empty exactly when there are no texts or there is one empty text |
| Transcript.JoinSnoc | api/index.py:31 | appending a text puts it, after one space, at the end of the joined text, so the order is kept |
| Transcript.Texts | api/index.py:31 | the list comprehension keeps every fragment's text at the same position |
| Transcript.GetTranscript | api/index.py:29-35 | `None` exactly when the provider failed or some fragment has no string text; otherwise the space-joined texts |
| Transcript.TranscriptKeepsOrder | api/index.py:31-32 | for any fragments with string texts, splitting the captions at spaces gives the pieces of each fragment text in the provider's order (the texts themselves when none contains a space), and no fragments give `""` |
| Handler.HandleRequest | api/index.py:37-85 | the HTTP status is always 200, 400 or 500; `status` in the envelope is true exactly when the HTTP status is 200 and the captions are non-empty; a true envelope has captions and no message, a false one a message and no captions; 500 carries only "Internal server error"; 400 carries one of the three client-error messages; 200 with `status` false carries "No captions available" |
| Handler.InvalidJsonIff | api/index.py:74-79 | 400 "Invalid JSON" if and only if the body is malformed JSON |
| Handler.NoUrlIff | api/index.py:44-51 | 400 "No URL provided" if and only if the body is a JSON object whose `url` is missing or falsy |
| Handler.InvalidUrlIff | api/index.py:54-59 | 400 "Invalid URL" if and only if `url` is a non-empty string from which no id is extracted |
| Handler.NoCaptionsIff | api/index.py:62-72 | 200 with "No captions available" if and only if an id was extracted and the captions are `None` or `""` |
| Handler.CaptionsIff | api/index.py:62-67 | 200 with `status` true and `text` if and only if an id was extracted and the captions are exactly the non-empty `text` |
| Handler.InternalErrorIff | api/index.py:43-44 | 500 if and only if the body cannot be read, is not a JSON object, or has a truthy `url` that is not a string |
| Handler.ProviderFailureIsNoCaptions | api/index.py:33-35 | any provider failure ends in 200 "No captions available" and never in 500 |
| Handler.CaptionsAreFragmentsInOrder | api/index.py:62-67 | the captions returned hold the fragment texts in the provider's order: splitting them at spaces gives the pieces of each text in turn, and the texts themselves when none contains a space |
| Handler.WatchLinkScenario | api/index.py:62-67 | a watch link to any id with the provider returning `Never`, `gonna`, `give` yields 200 with `status` true and captions `Never gonna give` |
| Handler.ShortLinkScenario | api/index.py:62-67 | the short link to the same id yields the same captions |
| Handler.DisabledScenario | api/index.py:68-72 | a provider that fails for the id yields 200 "No captions available" |
| Handler.NotAUrlScenario | api/index.py:55-59 | the body `{"url": "not a url"}` yields 400 "Invalid URL" |
| Handler.EarlyExitScenarios | api/index.py:43-51 | `{}` and `{"url": ""}` yield 400 "No URL provided", malformed JSON yields 400 "Invalid JSON", and a JSON list or a numeric `url` yields 500 |

## Left out

- The captions provider call (`YouTubeTranscriptApi.get_transcript`, api/index.py:30) is a network call into a third-party library. It is an input: a function from video id to `ProviderError` or a list of fragments. A fragment whose `'text'` is missing or not a string is `Unusable`.
- `json.load` and `json.dumps` are library parsing and serialisation. The parse outcome is the datatype `RequestBody` (`Malformed` for `json.JSONDecodeError`, `Unreadable` for any other exception while reading, `Parsed` with a `Json` value), and the envelope is the datatype `Body`.
- `VideoId.IsIdChar`: Python's Unicode-aware `\w` is restricted to ASCII letters, digits and `_`. Non-ASCII letters and digits, which Python accepts, are treated as non-id characters.
- `Handler.Truthy`: JSON numbers are modelled as `real`. The non-finite values `NaN` and `Infinity` that Python's parser also accepts are not modelled. They are truthy non-strings, so they would take the 500 path.
- Exceptions that are not `Exception` subclasses (such as `KeyboardInterrupt`) escape both `try` blocks in Python. They are not modelled.
- The deployment wrapper `create_app` (api/index.py:88-89) is not part of this model.
