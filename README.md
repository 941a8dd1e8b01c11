# discuss.js in Dafny

A model of discuss.js, a small fluent builder for HTTP requests that sits in
front of `XMLHttpRequest`. It has two revisions:

- **The current library (`dist/discuss.js`).** A `Discuss` is an endpoint: a
  base path, default headers and five options (`charset`, `autoParse`,
  `timeout`, `cors`, `corsWithCredentials`).
  - Its verb methods (`get`, `post`, `put`, `delete`, `head`) create a
    `Request`.
  - A `Request` records a query, a body, headers and two callbacks.
  - `send` then works out four things: the URL, the transport object, the
    header set and the payload.
  - Once the transport reports back, the response headers and body are
    normalised and one callback is chosen.
- **The earlier revision (`discuss.js`).** It has its own method table,
  option set-up, query-string and header builders, and a different status
  split.

What each module covers:

| module | file | covers |
|---|---|---|
| `Js` | `js.dfy` | The JavaScript semantics the code leans on: `typeof` (with `typeof null === 'object'`), truthiness, `String(v)`, decimal `toString`, and `for…in` with `hasOwnProperty` (an ordered list of own entries; the object built from it keeps the last write). |
| `Text` | `text.dfy` | `trim`, `split`, `join` and slash stripping on strings. |
| `UriEncoding` | `uri.dfy` | `encodeURIComponent`: UTF-8, then `%XX` in upper case, as in ECMA-262 section 19.2.6.5 and RFC 3986 section 2.1. It also has an ASCII decoder for the round trip. |
| `Paths` | `paths.dfy` | `Utilities.joinPaths` and its two regular expressions. |
| `QueryStrings` | `query.dfy` | `Utilities.buildQueryString`: the string grammar, the object loop and the fall-through. |
| `HeaderComposition` | `headers.dfy` | `Utilities.buildHeaders`: copy, infer Content-Type, overlay. |
| `ResponseHandling` | `response.dfy` | `parseResponseHeaders`, `parseResponseBody`, the choice of callback, and the timeout, network-error and `catch` handlers. |
| `Options` | `options.dfy` | The options record and the loop that merges options into it. The current library runs this loop in `configure`; the earlier revision writes the same loop in `_initOptions`. |
| `Transport` | `transport.dfy` | `Utilities.buildXHR`, deciding over what the user agent offers. |
| `Endpoint` | `endpoint.dfy` | The classes `Discuss` and `Request`, with their fields and setters. `send` is modelled up to the point where the transport takes over. |
| `Legacy` | `legacy.dfy` | The earlier revision's class and builders, with lemmas that compare it with the current library. |

How the source's state is represented:

- An object whose fields the source updates becomes a Dafny `class`:
  `Endpoint.Discuss`, `Endpoint.Request` and `Legacy.Discuss`.
  - Each has a `State()` snapshot.
  - Each setter states the whole new state in terms of the old one.
- Each loop the source runs is a `method` proved against a specification
  function:
  - the option merge;
  - the header copy;
  - the query-string accumulators;
  - the header-line parser.
- `JSON.parse`, `JSON.stringify` and the capabilities of the user agent are
  parameters.

Where the code and the library's intended design disagree, the model follows
the code:

- `joinPaths` takes two arguments, does not collapse inner slashes and
  refuses empty parts.
- `configure` ignores `noPromises`, because it is not one of the five
  options.
- The current library sends 304 to `onSuccess`. The earlier revision sends
  it to the error branch.

## Model

| member | source | states |
|---|---|---|
| Js.TypeOf | dist/discuss.js:45 | `typeof` is 'object' exactly for `null` and objects, and 'string' exactly for strings; these are the tests in `header()`, `query()` and `body()` |
| Js.DecimalRoundTrip | dist/discuss.js:372-374 | the decimal numeral `toString` writes for a non-negative number reads back as that number |
| Js.EntriesToMapKeys | dist/discuss.js:262-266 | the object a `for…in` copy builds has exactly the keys enumerated |
| Js.EntriesToMapLastWins | dist/discuss.js:262-266 | a key enumerated again keeps the value of its last occurrence |
| UriEncoding.Utf8 | dist/discuss.js:303 | a character is 1 to 4 bytes; it is one byte exactly when below 0x80 (and that byte is the code), and every later byte is a continuation byte 0x80–0xBF |
| UriEncoding.EncodeUriComponent | dist/discuss.js:303 | the encoding holds only unreserved characters and `%`, so no `?`, `&`, `=`, `/` or `#`, and is never shorter than the input |
| UriEncoding.EncodingHoldsNoDelimiter | dist/discuss.js:303 | whatever the input, `encodeURIComponent` output holds no `?`, `&`, `=`, `/` or `#`, so an encoded key or value cannot break the query apart |
| UriEncoding.AsciiRoundTrip | dist/discuss.js:303 | decoding the encoding of ASCII text gives that text back |
| Paths.JoinPaths | dist/discuss.js:371-384 | a successful join is always two path parts (non-empty, ending in a word character, without a line terminator) around one `/` |
| Paths.TrailingMatchIsStrip | dist/discuss.js:376-379 | the regular expression on the first part matches exactly when stripping its trailing slashes leaves a path part, and its group is then that stripped text |
| Paths.LeadingMatchIsStrip | dist/discuss.js:377-379 | the regular expression on the second part matches exactly when stripping its leading slashes leaves a path part, and the greedy slash run takes all of them |
| Paths.JoinPathsFollowsRegexes | dist/discuss.js:371-384 | `joinPaths` succeeds exactly when both regular expressions match, and then returns the first group, `/` and the greedy second group |
| Paths.JoinPathsNumber | dist/discuss.js:372-374 | a non-negative number second part is written in decimal, so `('/api', 42)` gives '/api/42' |
| Paths.JoinPathsSeam | dist/discuss.js:376-379 | any slashes around the seam collapse to one, so `('/api', '/test/path/here')` gives '/api/test/path/here' |
| Paths.JoinPathsEmptyFirst | dist/discuss.js:380-383 | a first part that is empty or made only of slashes, of any length, throws 'Unable to parse paths' |
| QueryStrings.BuildQueryString | dist/discuss.js:287-309 | the case split: a `?`-prefixed query in the grammar is kept; a bare one in the grammar gets a `?`; `null` throws; an object with keys gives `?` and its encoded pairs; anything else gives '' |
| QueryStrings.JoinEncodedPairs | dist/discuss.js:297-305 | the loop's accumulator ends as the encoded pairs in enumeration order, joined by `&` |
| QueryStrings.QueryBodyHasNoQuestionMark | dist/discuss.js:292 | text in the query grammar holds no `?` |
| QueryStrings.QueryStringShape | dist/discuss.js:287-309 | every result is '' or a single leading `?` followed by text without `?` |
| QueryStrings.EncodedPairsAreClean | dist/discuss.js:303 | no encoded pair holds a raw `?`, `&`, `/` or `#` |
| QueryStrings.JoinOfCleanPairs | dist/discuss.js:298-306 | joining pairs without `?` by `&` gives text without `?` |
| QueryStrings.EncodedPairIsItem | dist/discuss.js:303 | an encoded pair of a non-empty key and value is an item of the query grammar |
| QueryStrings.JoinOfItemsIsBody | dist/discuss.js:292 | grammar items joined by `&` are in the query grammar |
| QueryStrings.QueryStringIdempotent | dist/discuss.js:287-309 | passing a non-empty result back in returns it unchanged (for objects whose keys and values are non-empty) |
| QueryStrings.ObjectQueryRoundTrip | dist/discuss.js:296-307 | for ASCII keys and values, splitting the result on `&` and `=` and decoding gives back every entry in order |
| QueryStrings.EncodedPairSplits | dist/discuss.js:303 | an encoded pair splits on `=` into exactly the encoded key and the encoded value |
| QueryStrings.DecodeOnePair | dist/discuss.js:303 | an ASCII pair decodes back to its key and the string form of its value |
| QueryStrings.DecodeEncodedPairs | dist/discuss.js:298-305 | a run of encoded ASCII pairs decodes back to the entries, in order |
| QueryStrings.StringQueryExamples | test/utilitytests.js:37-39 | '' and '?' give '?', and '?value=24' is kept |
| QueryStrings.DoubleEqualsRefused | dist/discuss.js:292 | a string outside the grammar ('a=b=c') gives '' |
| QueryStrings.EmptyObjectQuery | test/utilitytests.js:42 | `{}` gives '' |
| QueryStrings.SingleEntryQuery | dist/discuss.js:296-307 | an object with one key gives `?` and that key's encoded pair |
| QueryStrings.EscapedObjectQuery | test/utilitytests.js:48 | `{nonsense: '&?/'}` gives '?nonsense=%26%3F%2F' (any key of unreserved characters is kept) |
| QueryStrings.EscapedSymbols | test/utilitytests.js:48 | `&`, `?`, `/` are encoded as `%26`, `%3F`, `%2F` |
| QueryStrings.EncodeUnreservedIsIdentity | dist/discuss.js:303 | text of unreserved characters is encoded as itself |
| HeaderComposition.BodyKindOf | dist/discuss.js:96 | the body kind is 'object' or 'string' exactly when `typeof` says so |
| HeaderComposition.InferredContentType | dist/discuss.js:267-272 | an object (or `null`) body gives `application/json`; a string body gives `text/html; charset=` and the charset; anything else infers nothing |
| HeaderComposition.ComposedHeaders | dist/discuss.js:260-280 | the keys are the endpoint's, the request's and Content-Type when one is inferred; request headers always win; the inferred type beats the endpoint's; other endpoint headers pass through |
| HeaderComposition.CopyEntries | dist/discuss.js:262-266 | the copy loop lays the enumerated entries over the target |
| HeaderComposition.BuildHeaders | dist/discuss.js:260-280 | `buildHeaders` returns the composition of the endpoint headers, the inferred Content-Type and the request headers |
| HeaderComposition.JsonBodyHeaders | dist/discuss.js:267-268 | an object body with no other headers sends only `Content-Type: application/json` |
| HeaderComposition.RequestContentTypeWins | dist/discuss.js:274-278 | a request-level Content-Type is kept whatever the body |
| HeaderComposition.EndpointContentType | dist/discuss.js:267-272 | an endpoint-level Content-Type survives only when the body gives nothing to infer |
| ResponseHandling.HeaderLineFailsIff | dist/discuss.js:328-330 | a non-empty header line throws exactly when it holds no ':' |
| ResponseHandling.HeaderLineShape | dist/discuss.js:328-330 | a parsed name and value are trimmed and contain no ':' |
| ResponseHandling.ParsedLinesFailIff | dist/discuss.js:324-331 | the loop fails exactly when some line is non-empty and has no ':' |
| ResponseHandling.ParsedFieldsShape | dist/discuss.js:322-332 | every parsed name and value is trimmed and free of ':' |
| ResponseHandling.ParseResponseHeaders | dist/discuss.js:318-339 | `parseResponseHeaders` returns the raw text when `autoParse` is off or a line throws, and otherwise the object of parsed lines |
| ResponseHandling.HeaderParseFailsIff | dist/discuss.js:318-339 | with `autoParse` on, the raw text comes back exactly when a line of the text throws |
| ResponseHandling.FieldLineParses | dist/discuss.js:328-330 | a line `name: value\r` parses back to that name and value |
| ResponseHandling.FieldLinesSplit | dist/discuss.js:323 | header text built from field lines splits on `\n` into those lines and a final '' |
| ResponseHandling.ParsedLinesSkipsEmpty | dist/discuss.js:325-327 | an empty line adds nothing |
| ResponseHandling.FieldLinesParse | dist/discuss.js:324-331 | field lines parse into the object of their fields, last write winning |
| ResponseHandling.HeaderTextRoundTrip | dist/discuss.js:318-339 | header text built from plain fields is parsed back into those fields |
| ResponseHandling.HeaderFallbacks | dist/discuss.js:319-336 | with `autoParse` off the raw text is returned; 'A: b\r\n\r\n' falls back to the raw text because its line '\r' throws |
| ResponseHandling.ValueCutAtColon | dist/discuss.js:329-330 | a value holding ':' is cut at it |
| ResponseHandling.ParseResponseBody | dist/discuss.js:349-363 | the body is decoded only when `autoParse` is on, the headers declare JSON and the parse succeeds; otherwise the raw text is returned |
| ResponseHandling.JsonResponseRecognised | dist/discuss.js:352 | a parsed `Content-Type` whose last value contains `application/json` gets the body decoded |
| ResponseHandling.RawJsonLineRecognised | dist/discuss.js:353 | raw header text with a line starting `Content-Type:` that mentions `application/json` declares JSON |
| ResponseHandling.LowerCaseNameNotRecognised | dist/discuss.js:352 | a lower-case `content-type` field is not recognised |
| ResponseHandling.RoutedCallback | dist/discuss.js:122-124 | `onSuccess` for 100–299 and 304, `onError` otherwise, each only when set; none for status 0 |
| ResponseHandling.Settle | dist/discuss.js:103-144 | a completed response (ready state 4) is delivered exactly when the routed callback is set and the status is not 0, with its status, the normalised headers and the body parsed against them; a timeout, a network error or a throwing `send` reaches `onError` exactly when it is set, with 'A network timeout has occurred', 'A network-level exception has occurred' or the thrown error; nothing else produces a call |
| ResponseHandling.RawDeliveryWithoutAutoParse | dist/discuss.js:119-120 | with `autoParse` off, a delivered response carries the raw header text and the raw body |
| ResponseHandling.ErrorStatuses | dist/discuss.js:122 | redirects other than 304, and every 4xx and 5xx status, go to `onError` |
| ResponseHandling.StatusZeroIsSilent | dist/discuss.js:123 | a completed response with status 0 calls nobody |
| Options.MergeKeepsKeys | dist/discuss.js:56-63 | `configure` never adds or removes an option |
| Options.MergeValues | dist/discuss.js:57-61 | a recognised option given by the caller takes the caller's value; the others keep theirs |
| Options.MergeNothing | dist/discuss.js:56-63 | `configure({})` changes nothing |
| Options.MergeIdempotent | dist/discuss.js:56-63 | configuring twice with the same options is configuring once |
| Options.MergeIgnoresUnknown | dist/discuss.js:58 | a key that is not an option (such as `noPromises`) makes no difference |
| Options.MergeOptions | dist/discuss.js:57-61 | the merge loop's result is the merge of the enumerated entries |
| Options.DefaultsAreTheOptions | dist/discuss.js:28-34 | the defaults hold exactly the five options |
| Transport.BuildXhr | dist/discuss.js:237-249 | with CORS on, an `XDomainRequest` is preferred, an `XMLHttpRequest` without `withCredentials` throws 'CORS is not supported by this user agent', and credentials are on only when asked for; with CORS off, a plain `XMLHttpRequest` is always used |
| Endpoint.MethodOf | dist/discuss.js:18-24 | get, delete and head take a query, post and put a body, no verb takes both |
| Endpoint.QueryAdmittedIff | dist/discuss.js:178-183 | `query(q)` is kept exactly for get, delete and head, and only when `q` is an object, `null` or a string |
| Endpoint.BodyAdmittedIff | dist/discuss.js:192-197 | `body(b)` is kept exactly for post and put, and only when `b` is an object, `null` or a string |
| Endpoint.TruthyQueryBuilds | dist/discuss.js:89-90 | a truthy query never makes `buildQueryString` throw |
| Endpoint.SendNeedsSuccessCallback | dist/discuss.js:80-82 | `send` throws 'Invalid send parameters' exactly when the request has no success callback |
| Endpoint.EmptyQueriesAppendNothing | dist/discuss.js:89-91 | a falsy query (`''` included) and `{}` leave the URL as it is |
| Endpoint.PathUrlHasNoQueryMark | dist/discuss.js:84-87 | a base path and a path without `?` give a URL without `?` before the query |
| Endpoint.UrlHasOneQueryMark | dist/discuss.js:84-91 | when neither the base path nor the path holds `?`, the URL holds at most one `?` |
| Endpoint.NumericPathUrl | dist/discuss.js:85-87 | a numeric path is appended in decimal; the path 0 is falsy and leaves the base path alone |
| Endpoint.PayloadAndContentType | dist/discuss.js:130-138 | something is sent exactly for a truthy object (as JSON) or a truthy string (as is), and then a Content-Type is set; `''` and `null` send nothing yet still get a Content-Type |
| Endpoint.Discuss.constructor | dist/discuss.js:17-36 | a new endpoint has its base path, no default headers and the five default options |
| Endpoint.Discuss.Header | dist/discuss.js:44-49 | the default headers are replaced only by an object (or `null`); nothing else changes |
| Endpoint.Discuss.Configure | dist/discuss.js:56-63 | the options become the merge of the argument's entries; base path and headers are untouched, and the option keys are unchanged |
| Endpoint.Discuss.NewRequest | dist/discuss.js:72-74 | a verb method returns a fresh request owned by this endpoint, with that verb's table entry and the path, and nothing else set |
| Endpoint.Discuss.Send | dist/discuss.js:79-138 | `send` returns the plan for the request (its validation, URL, transport, headers, payload and timeout), or the error it throws |
| Endpoint.Discuss.Complete | dist/discuss.js:103-144 | for this endpoint and a request: a completed response reaches the request's routed callback exactly when it is set, the ready state is 4 and the status is not 0; with the endpoint's `autoParse` off it carries the raw headers and body, with it on the normalised headers and the parsed body; a timeout, a network error or a throwing `send` reaches the request's `onError`, when set, with the matching reason |
| Endpoint.Request.constructor | dist/discuss.js:154-158 | a new request holds its owner, method and path, and nothing else |
| Endpoint.Request.Header | dist/discuss.js:165-170 | the request headers are replaced only by an object (or `null`); nothing else changes |
| Endpoint.Request.Query | dist/discuss.js:178-183 | the query is stored only when the verb takes one and it is an object or a string; nothing else changes |
| Endpoint.Request.Body | dist/discuss.js:192-197 | the body is stored only when the verb takes one and it is an object or a string; nothing else changes |
| Endpoint.Request.Success | dist/discuss.js:206-209 | only the success callback changes |
| Endpoint.Request.Error | dist/discuss.js:218-221 | only the error callback changes |
| Endpoint.Request.Send | dist/discuss.js:226-231 | a request's `send` is its owner's `send` of that request |
| Legacy.LegacyMethodOf | discuss.js:4-19 | get and head take a query, post and put a body, delete neither |
| Legacy.MethodTablesDiffer | discuss.js:14-15 | the two revisions' tables differ only in delete's query flag |
| Legacy.GuardedQueryIsPairs | discuss.js:90 | behind `send`'s guard, the query string is '?' and the raw pairs, never '?undefined' |
| Legacy.RawQueryIsAmbiguous | discuss.js:175-178 | without encoding, a value holding `&` and `=` reads like a second pair |
| Legacy.PlainQueriesAgree | discuss.js:170-183 | for keys and values of unreserved characters, the two revisions build the same query string |
| Legacy.StatusSplitsDiffer | discuss.js:139-144 | the success/error classification of the two revisions differs at 304 only; at status 0 the earlier handler calls back (as an error) where the current routing calls nobody |
| Legacy.CallbackArguments | discuss.js:139-144 | the body is passed first (with `null` second) for a status below 100 or from 300 up, and second otherwise |
| Legacy.Discuss.constructor | discuss.js:3-25 | the path and headers are kept as given; the options are the defaults merged with the argument |
| Legacy.Discuss.InitOptions | discuss.js:31-44 | `_initOptions` starts from the five defaults and overwrites only recognised keys |
| Legacy.Discuss.BuildQueryString | discuss.js:170-183 | '?' and the raw `key=String(value)` pairs joined by `&`; '?undefined' when there are no keys |
| Legacy.Discuss.BuildHeaders | discuss.js:185-205 | the same composition as the current library, but with `text/plain` as the inferred type for a string body |

## Left out

- Transport I/O is not modelled. This covers `open`, `setRequestHeader`,
  `send`, `abort` and the timer (`setTimeout`/`clearTimeout`). `Endpoint.Discuss.Send` returns what would be handed to them.
- Each transport event is settled on its own, so the order of events is not
  modelled. Two consequences:
  - the code does not guarantee a single settlement;
  - the timer is cleared on every `readystatechange`, but it stays armed
    after a synchronous throw from `send`, so `onError` can fire twice.
- `setupMethodHandlers` is not modelled. It puts the verb methods on the
  shared prototype, bound to the most recently built endpoint. The model uses
  `NewRequest` with an explicit owner instead.
- The setters' `return this` (chaining) is not modelled: the methods return
  nothing.
- `request instanceof Request` is not checked: every non-null `Request` passes.
- `JSON.parse` and `JSON.stringify` are parameters. A throwing `stringify` is
  the event `SendThrew`.
- `console.error` calls are left out.
- Some JavaScript values are not modelled: arrays, non-integer and unsafe
  numbers, symbols and bigints.
- `Js.OwnEntries`: a string's for-in keys index Dafny characters, not UTF-16 code units. For a string query with a character outside the Basic Multilingual Plane, the earlier revision's `_buildQueryString` would see two entries where the model sees one.
- Objects have only own string keys, in enumeration order. Inherited
  properties and the special `__proto__` key are not modelled.
- `withCredentials` is modelled as a boolean; the code sets it to the string
  'true'.
- The order in which headers are set on the transport is not modelled,
  because header sets are maps.
- A `null` result from `getAllResponseHeaders` is not modelled: the model
  takes header text as a string.
- Promise completion and the `noPromises` option do not appear in the code.
- Some joinPaths assertions in test/utilitytests.js do not hold for the code
  and are not modelled: lines 9-12, 14-21, 24 and 26-27. They expect a leading
  `/`, inner-slash collapsing, query stripping and empty parts. The model
  states what the code does (`Paths.JoinPathsEmptyFirst`). `Discuss._support`,
  which test/utilitytests.js:3 uses, is not exported by the code.
- The earlier revision does not parse: discuss.js:157 lacks the `)` that
  closes the `if` condition in `_buildXHR`. So none of that file runs. The
  `Legacy` module models `_initOptions`, `_buildQueryString`, `_buildHeaders`
  and the status split of `_handleResponse` as written, supposing the file
  parsed. These other parts are not modelled:
  - `_initMethods`, which calls `unshift` on `arguments`;
  - `request`, which calls `splice` on `arguments`;
  - `send`, which uses the undefined `setTimer`, `self` and `timeout`;
  - `_parseResponseHeaders`, which iterates over the line indices but
    splits the single character at each index, so it maps characters
    rather than lines;
  - the parsing part of `_handleResponse`.
- Gruntfile.js, test/testapi.js and the integration tests are not part of this
  model.
- UriEncoding.AsciiRoundTrip: decoding is proved for ASCII text only. The
  encoder handles every character, but a lone surrogate (which throws
  `URIError`) cannot be written as a Dafny `char`.
- QueryStrings.ObjectQueryRoundTrip: the round trip is stated for ASCII keys
  and values only, as the decoder is.
