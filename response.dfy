/**
 * What happens once a request settles: `Utilities.parseResponseHeaders`,
 * `Utilities.parseResponseBody` and the choice of callback in `send`'s
 * `onreadystatechange`, `onerror`, timer and `catch` handlers.
 */
module ResponseHandling {

  import opened Wrappers
  import opened Js
  import opened Text
  import HeaderComposition

  /** Response headers as handed to a callback: the raw text, or the object parsed from it. */
  datatype Headers = RawHeaders(text: string) | ParsedHeaders(fields: map<string, string>)

  /**
   * One non-empty header line: trimmed, split on every ':', key and value
   * being the first two pieces trimmed. A line without ':' has no second
   * piece, and `splitHeader[1].trim()` throws (`None`).
   */
  function HeaderLine(line: string): Option<(string, string)> {
    var splitHeader := Split(Trim(line), ':');
    if |splitHeader| < 2 then None else Some((Trim(splitHeader[0]), Trim(splitHeader[1])))
  }

  /** A line throws exactly when it holds no ':' (trimming never removes one). */
  lemma HeaderLineFailsIff(line: string)
    ensures HeaderLine(line).None? <==> ':' !in line
  {
    TrimKeeps(line, ':');
    SplitHasTwoIff(Trim(line), ':');
  }

  /** A parsed key and value are trimmed and hold no ':'. */
  lemma HeaderLineShape(line: string)
    requires HeaderLine(line).Some?
    ensures IsTrimmed(HeaderLine(line).value.0) && ':' !in HeaderLine(line).value.0
    ensures IsTrimmed(HeaderLine(line).value.1) && ':' !in HeaderLine(line).value.1
  {
    var splitHeader := Split(Trim(line), ':');
    SplitPiecesFree(Trim(line), ':');
    TrimmedEnds(splitHeader[0]);
    TrimmedEnds(splitHeader[1]);
    TrimKeeps(splitHeader[0], ':');
    TrimKeeps(splitHeader[1], ':');
  }

  /**
   * The object the parsing loop has built after the given lines, or `None`
   * once a line has thrown. Lines that are exactly '' are skipped (before
   * trimming, so a lone "\r" is not skipped); a repeated key keeps its last value.
   */
  function ParsedLines(lines: seq<string>): (r: Option<map<string, string>>)
    decreases |lines|
  {
    if lines == [] then Some(map[])
    else
      match ParsedLines(lines[..|lines| - 1])
      case None => None
      case Some(headers) =>
        var line := lines[|lines| - 1];
        if line == "" then Some(headers)
        else
          match HeaderLine(line)
          case None => None
          case Some(field) => Some(headers[field.0 := field.1])
  }

  /** The value `parseResponseHeaders(text, autoParse)` returns. */
  function NormalisedHeaders(responseHeaderText: string, isAutoParseEnabled: bool): Headers {
    if !isAutoParseEnabled then RawHeaders(responseHeaderText)
    else
      match ParsedLines(Split(responseHeaderText, '\n'))
      case Some(headers) => ParsedHeaders(headers)
      case None => RawHeaders(responseHeaderText)
  }

  /** A line that makes the parsing loop throw. */
  predicate Throws(line: string) {
    line != "" && ':' !in line
  }

  /** One more line: the loop fails if it had already failed or this line throws. */
  lemma ParsedLinesStep(lines: seq<string>)
    requires lines != []
    ensures ParsedLines(lines).None? <==> ParsedLines(lines[..|lines| - 1]).None? || Throws(lines[|lines| - 1])
  {
    HeaderLineFailsIff(lines[|lines| - 1]);
  }

  /** Parsing fails exactly when some line other than '' has no ':'. */
  lemma {:induction false} ParsedLinesFailIff(lines: seq<string>)
    ensures ParsedLines(lines).None? <==> exists i | 0 <= i < |lines| :: Throws(lines[i])
    decreases |lines|
  {
    if lines != [] {
      var front := lines[..|lines| - 1];
      ParsedLinesFailIff(front);
      ParsedLinesStep(lines);
      if ParsedLines(lines).None? {
        if ParsedLines(front).None? {
          var i :| 0 <= i < |front| && Throws(front[i]);
          assert lines[i] == front[i];
        } else {
          assert Throws(lines[|lines| - 1]);
        }
      } else {
        forall i | 0 <= i < |lines|
          ensures !Throws(lines[i])
        {
          if i < |front| {
            assert lines[i] == front[i];
            assert !Throws(front[i]);
          } else {
            assert i == |lines| - 1;
          }
        }
      }
    }
  }

  /** Every parsed key and value is trimmed and holds no ':', so a value is cut at its own first ':'. */
  lemma {:induction false} ParsedFieldsShape(lines: seq<string>)
    ensures ParsedLines(lines).Some? ==>
      forall k :: k in ParsedLines(lines).value ==>
        IsTrimmed(k) && ':' !in k && IsTrimmed(ParsedLines(lines).value[k]) && ':' !in ParsedLines(lines).value[k]
    decreases |lines|
  {
    if lines != [] {
      var last := lines[|lines| - 1];
      ParsedFieldsShape(lines[..|lines| - 1]);
      if last != "" && HeaderLine(last).Some? {
        HeaderLineShape(last);
      }
    }
  }

  /** `parseResponseHeaders` as the library runs it: a loop over the lines that gives up on the first throw. */
  method ParseResponseHeaders(responseHeaderText: string, isAutoParseEnabled: bool) returns (responseHeaders: Headers)
    ensures responseHeaders == NormalisedHeaders(responseHeaderText, isAutoParseEnabled)
  {
    responseHeaders := RawHeaders(responseHeaderText);
    if isAutoParseEnabled {
      var headers: map<string, string> := map[];
      var lines := Split(responseHeaderText, '\n');
      var i := 0;
      while i < |lines|
        invariant 0 <= i <= |lines|
        invariant ParsedLines(lines[..i]) == Some(headers)
      {
        assert lines[..i + 1][..i] == lines[..i];
        if lines[i] == "" {
          i := i + 1;
          continue;
        }
        var line := Trim(lines[i]);
        var splitHeader := Split(line, ':');
        if |splitHeader| < 2 {
          // `splitHeader[1]` is undefined: the TypeError is caught and the raw text returned.
          ParsedLinesFailIff(lines[..i + 1]);
          ParsedLinesFailIff(lines);
          assert lines[..i + 1][i] == lines[i];
          return;
        }
        headers := headers[Trim(splitHeader[0]) := Trim(splitHeader[1])];
        i := i + 1;
      }
      assert lines[..i] == lines;
      responseHeaders := ParsedHeaders(headers);
    }
  }

  /** The text of `parseResponseHeaders` fails to parse exactly when one of its non-empty lines has no ':'. */
  lemma HeaderParseFailsIff(text: string)
    ensures NormalisedHeaders(text, true).RawHeaders? <==>
      exists i | 0 <= i < |Split(text, '\n')| :: Throws(Split(text, '\n')[i])
  {
    var lines := Split(text, '\n');
    ParsedLinesFailIff(lines);
    if ParsedLines(lines).None? {
      var i :| 0 <= i < |lines| && Throws(lines[i]);
      assert NormalisedHeaders(text, true).RawHeaders?;
      assert Throws(Split(text, '\n')[i]);
      assert exists j | 0 <= j < |Split(text, '\n')| :: Throws(Split(text, '\n')[j]);
    } else {
      assert NormalisedHeaders(text, true).ParsedHeaders?;
    }
  }

  /** A field name or value that comes back from parsing unchanged. */
  predicate IsPlainField(s: string) {
    s != [] && IsTrimmed(s) && ':' !in s && '\n' !in s
  }

  /** The line `getAllResponseHeaders` writes for one field: name, ': ', value, CR. */
  function FieldLine(field: (string, string)): string {
    field.0 + ": " + field.1 + "\r"
  }

  function FieldLines(fields: seq<(string, string)>): (r: seq<string>)
    ensures |r| == |fields|
    ensures forall i :: 0 <= i < |fields| ==> r[i] == FieldLine(fields[i])
  {
    seq(|fields|, i requires 0 <= i < |fields| => FieldLine(fields[i]))
  }

  /** The whole header block: every field line ended by '\n', i.e. by CRLF. */
  function HeaderText(fields: seq<(string, string)>): string {
    Join(FieldLines(fields) + [""], '\n')
  }

  /** A single formatted field line parses back to its name and value. */
  lemma FieldLineParses(field: (string, string))
    requires IsPlainField(field.0) && IsPlainField(field.1)
    ensures HeaderLine(FieldLine(field)) == Some(field)
  {
    var (k, v) := field;
    var line := FieldLine(field);
    var body := k + ": " + v;
    assert line == body + "\r";
    assert TrimStart(line) == line;
    assert line[..|line| - 1] == body;
    assert TrimEnd(body) == body;
    assert body == k + [':'] + (" " + v) + "";
    SplitFirstTwo(k, " " + v, "", ':');
    TrimOfTrimmed(k, "");
    TrimOfTrimmed(v, " ");
  }

  /** Lines never hold the '\n' they were split on. */
  lemma FieldLinesSplit(fields: seq<(string, string)>)
    requires forall i :: 0 <= i < |fields| ==> IsPlainField(fields[i].0) && IsPlainField(fields[i].1)
    ensures Split(HeaderText(fields), '\n') == FieldLines(fields) + [""]
  {
    var lines := FieldLines(fields) + [""];
    forall i | 0 <= i < |lines|
      ensures '\n' !in lines[i]
    {
      if i < |fields| {
        assert lines[i] == fields[i].0 + ": " + fields[i].1 + "\r";
      }
    }
    SplitJoin(lines, '\n');
  }

  /** The trailing '' after the final CRLF is skipped. */
  lemma ParsedLinesSkipsEmpty(lines: seq<string>)
    ensures ParsedLines(lines + [""]) == ParsedLines(lines)
  {
    assert (lines + [""])[..|lines|] == lines;
  }

  lemma {:induction false} FieldLinesParse(fields: seq<(string, string)>)
    requires forall i :: 0 <= i < |fields| ==> IsPlainField(fields[i].0) && IsPlainField(fields[i].1)
    ensures ParsedLines(FieldLines(fields)) == Some(EntriesToMap(fields))
    decreases |fields|
  {
    if fields != [] {
      var front := fields[..|fields| - 1];
      assert FieldLines(fields)[..|fields| - 1] == FieldLines(front);
      FieldLinesParse(front);
      FieldLineParses(fields[|fields| - 1]);
    }
  }

  /**
   * Round trip: a header block of plain fields, one per CRLF-terminated line,
   * parses to the object of those fields (a repeated name keeping its last value).
   */
  lemma HeaderTextRoundTrip(fields: seq<(string, string)>)
    requires forall i :: 0 <= i < |fields| ==> IsPlainField(fields[i].0) && IsPlainField(fields[i].1)
    ensures NormalisedHeaders(HeaderText(fields), true) == ParsedHeaders(EntriesToMap(fields))
  {
    FieldLinesSplit(fields);
    ParsedLinesSkipsEmpty(FieldLines(fields));
    FieldLinesParse(fields);
  }

  /** Parsing leaves the text alone when autoParse is off, and a lone "\r" line makes the whole block fall back to text. */
  lemma HeaderFallbacks(text: string)
    ensures NormalisedHeaders(text, false) == RawHeaders(text)
    ensures NormalisedHeaders("A: b\r\n\r\n", true) == RawHeaders("A: b\r\n\r\n")
  {
    var t := "A: b\r\n\r\n";
    var pieces := ["A: b\r", "\r", ""];
    assert Join(pieces, '\n') == t;
    SplitJoin(pieces, '\n');
    assert Throws(Split(t, '\n')[1]);
    HeaderParseFailsIff(t);
  }

  /**
   * A value is cut at the next ':' and whatever follows is lost: the line
   * 'Date: 12:00' parses to Date = '12'.
   */
  lemma ValueCutAtColon(name: string, value: string, rest: string)
    requires IsPlainField(name) && IsPlainField(value)
    ensures HeaderLine(name + ": " + value + ":" + rest) == Some((name, value))
  {
    var line := name + ": " + value + ":" + rest;
    var front := name + ": " + value + ":";
    assert line == front + rest;
    assert TrimStart(line) == line;
    TrimEndAppend(front, rest);
    var tail := ":" + TrimEnd(rest);
    assert Trim(line) == name + [':'] + (" " + value) + tail;
    SplitFirstTwo(name, " " + value, tail, ':');
    TrimOfTrimmed(name, "");
    TrimOfTrimmed(value, " ");
  }

  /** A response body as handed to a callback: the text, or the value JSON.parse made of it. */
  datatype Body<J> = TextBody(text: string) | JsonBody(value: J)

  /** Index `p` starts a line of `t` (what `^` matches under the `m` flag). */
  predicate IsLineStart(t: string, p: int) {
    0 <= p <= |t| && (p == 0 || IsLineTerminator(t[p - 1]))
  }

  /** `/^Content-Type:.*application\/json.*$/m` matches with the line at `p` and 'application/json' at `q`. */
  predicate JsonLineAt(t: string, p: int, q: int) {
    IsLineStart(t, p) && OccursAt(t, "Content-Type:", p) && p + 13 <= q
    && OccursAt(t, HeaderComposition.JsonMediaType, q) && NoLineTerminator(t[p..q])
  }

  predicate RawTextDeclaresJson(t: string) {
    exists p, q | 0 <= p <= q <= |t| :: JsonLineAt(t, p, q)
  }

  /** The headers announce JSON: the object's 'Content-Type' contains 'application/json', or the text has such a line. */
  predicate DeclaresJson(headers: Headers) {
    match headers
    case ParsedHeaders(fields) =>
      HeaderComposition.ContentType in fields && Contains(fields[HeaderComposition.ContentType], HeaderComposition.JsonMediaType)
    case RawHeaders(text) => RawTextDeclaresJson(text)
  }

  /**
   * `parseResponseBody`. `parseJson` stands for `JSON.parse`, `None` for the
   * exception it throws on malformed text (RFC 8259); the exception is
   * caught and the text kept.
   */
  function ParseResponseBody<J>(responseText: string, headers: Headers, isAutoParseEnabled: bool, parseJson: string -> Option<J>): (b: Body<J>)
    ensures b.JsonBody? ==> isAutoParseEnabled && DeclaresJson(headers) && parseJson(responseText) == Some(b.value)
    ensures b.TextBody? ==> b.text == responseText
    ensures isAutoParseEnabled && DeclaresJson(headers) && parseJson(responseText).Some? ==> b.JsonBody?
  {
    if isAutoParseEnabled && DeclaresJson(headers) then
      match parseJson(responseText)
      case Some(value) => JsonBody(value)
      case None => TextBody(responseText)
    else TextBody(responseText)
  }

  /**
   * A header block whose (last) Content-Type field mentions 'application/json'
   * gets its body decoded whenever JSON.parse accepts it.
   */
  lemma JsonResponseRecognised<J>(fields: seq<(string, string)>, i: int, responseText: string, parseJson: string -> Option<J>)
    requires forall j :: 0 <= j < |fields| ==> IsPlainField(fields[j].0) && IsPlainField(fields[j].1)
    requires 0 <= i < |fields| && fields[i].0 == HeaderComposition.ContentType
    requires Contains(fields[i].1, HeaderComposition.JsonMediaType)
    requires forall j :: i < j < |fields| ==> fields[j].0 != HeaderComposition.ContentType
    requires parseJson(responseText).Some?
    ensures ParseResponseBody(responseText, NormalisedHeaders(HeaderText(fields), true), true, parseJson)
      == JsonBody(parseJson(responseText).value)
  {
    HeaderTextRoundTrip(fields);
    EntriesToMapLastWins(fields, i);
  }

  /**
   * When the block fell back to text, any line that starts with
   * 'Content-Type:' and then mentions 'application/json' announces JSON.
   */
  lemma RawJsonLineRecognised(before: string, middle: string, after: string)
    requires before == [] || IsLineTerminator(before[|before| - 1])
    requires NoLineTerminator(middle)
    ensures DeclaresJson(RawHeaders(before + "Content-Type:" + middle + HeaderComposition.JsonMediaType + after))
  {
    var name, json := "Content-Type:", HeaderComposition.JsonMediaType;
    assert NoLineTerminator(name);
    LineAround(before, name, middle, json, after);
    var t := before + name + middle + json + after;
    assert JsonLineAt(t, |before|, |before| + |name| + |middle|);
  }

  /**
   * The pieces of a line that starts after `before`: it starts a line,
   * `name` and `json` sit at their offsets, and the text between them
   * holds no line terminator.
   */
  lemma LineAround(before: string, name: string, middle: string, json: string, after: string)
    requires before == [] || IsLineTerminator(before[|before| - 1])
    requires NoLineTerminator(name) && NoLineTerminator(middle)
    ensures var t := before + name + middle + json + after;
      var p, q := |before|, |before| + |name| + |middle|;
      IsLineStart(t, p) && OccursAt(t, name, p) && OccursAt(t, json, q) && NoLineTerminator(t[p..q])
  {
    var t := before + name + middle + json + after;
    var p, q := |before|, |before| + |name| + |middle|;
    RegroupFive(before, name, middle, json, after);
    if p > 0 {
      assert t[p - 1] == before[p - 1];
    }
    MiddleSlice(before, name, middle + json + after);
    MiddleSlice(before + name + middle, json, after);
    MiddleSlice(before, name + middle, json + after);
    assert t[p..q] == name + middle;
  }

  /** A lower-case field name is not the 'Content-Type' key that the `in` test at line 352 looks for. */
  lemma LowerCaseNameNotRecognised(fields: map<string, string>)
    requires fields == map["content-type" := "application/json"]
    ensures !DeclaresJson(ParsedHeaders(fields))
  {
    assert "content-type" != "Content-Type" by {
      assert "content-type"[0] != "Content-Type"[0];
    }
  }

  /** The two callbacks a request declares. */
  datatype Callback = OnSuccess | OnError

  /** Statuses handed to `onSuccess`: informational and successful (RFC 9110 sections 15.2 and 15.3), and 304 Not Modified. */
  predicate IsSuccessStatus(status: int) {
    (100 <= status < 300) || status == 304
  }

  /**
   * The callback a completed request calls: `onSuccess` for a success
   * status, `onError` otherwise, provided it is set; none for status 0.
   */
  function RoutedCallback(status: int, onSuccess: Value, onError: Value): (r: Option<Callback>)
    ensures r == Some(OnSuccess) <==> status != 0 && IsSuccessStatus(status) && Truthy(onSuccess)
    ensures r == Some(OnError) <==> status != 0 && !IsSuccessStatus(status) && Truthy(onError)
  {
    var callback := if IsSuccessStatus(status) then OnSuccess else OnError;
    var fn := if callback == OnSuccess then onSuccess else onError;
    if Truthy(fn) && status != 0 then Some(callback) else None
  }

  /** What the transport reports. */
  datatype Event =
    | ReadyStateChange(readyState: int, status: int, responseHeaderText: string, responseText: string)
    | TimedOut
    | NetworkError
    | SendThrew(error: Value)

  /** A callback invocation: `callback(body, status, headers)`, or `onError(reason, 0)`. */
  datatype Invocation<J> =
    | Respond(callback: Callback, body: Body<J>, status: int, headers: Headers)
    | Fail(reason: Value)

  /** What `onError` receives when the timer fires first. */
  const TimeoutMessage := "A network timeout has occurred"

  /** What `onError` receives when the transport reports a network-level error. */
  const NetworkErrorMessage := "A network-level exception has occurred"

  /**
   * The invocation one event leads to, if any. A completed response (ready
   * state 4) is delivered exactly when the routed callback is set and the
   * status is not 0, with its headers normalised and its body parsed; a
   * timeout, a network error or a throwing `send` reaches `onError`, when
   * set, with the timeout text, the network text or the thrown error.
   */
  function Settle<J>(event: Event, onSuccess: Value, onError: Value, isAutoParseEnabled: bool, parseJson: string -> Option<J>): (r: Option<Invocation<J>>)
    ensures event.ReadyStateChange? ==> (r.Some? <==> event.readyState == 4 && RoutedCallback(event.status, onSuccess, onError).Some?)
    ensures r.Some? && r.value.Respond? ==>
      event.ReadyStateChange? && event.readyState == 4 && event.status != 0 && r.value.status == event.status
      && (r.value.callback == OnSuccess <==> IsSuccessStatus(event.status))
      && Some(r.value.callback) == RoutedCallback(event.status, onSuccess, onError)
      && r.value.headers == NormalisedHeaders(event.responseHeaderText, isAutoParseEnabled)
      && r.value.body == ParseResponseBody(event.responseText, r.value.headers, isAutoParseEnabled, parseJson)
    ensures r.Some? && r.value.Fail? ==> Truthy(onError) && !event.ReadyStateChange?
    ensures !event.ReadyStateChange? ==> (r.Some? <==> Truthy(onError))
    ensures event.TimedOut? && r.Some? ==> r.value == Fail(Str(TimeoutMessage))
    ensures event.NetworkError? && r.Some? ==> r.value == Fail(Str(NetworkErrorMessage))
    ensures event.SendThrew? && r.Some? ==> r.value == Fail(event.error)
  {
    match event
    case ReadyStateChange(readyState, status, responseHeaderText, responseText) =>
      if readyState != 4 then None
      else
        var headers := NormalisedHeaders(responseHeaderText, isAutoParseEnabled);
        var body := ParseResponseBody(responseText, headers, isAutoParseEnabled, parseJson);
        (match RoutedCallback(status, onSuccess, onError)
         case Some(callback) => Some(Respond(callback, body, status, headers))
         case None => None)
    case TimedOut =>
      if Truthy(onError) then Some(Fail(Str(TimeoutMessage))) else None
    case NetworkError =>
      if Truthy(onError) then Some(Fail(Str(NetworkErrorMessage))) else None
    case SendThrew(error) =>
      if Truthy(onError) then Some(Fail(error)) else None
  }

  /**
   * With `autoParse` off nothing is parsed: a delivered response carries the
   * raw header text and the raw body, whatever the headers declare.
   */
  lemma RawDeliveryWithoutAutoParse<J>(event: Event, onSuccess: Value, onError: Value, parseJson: string -> Option<J>)
    requires event.ReadyStateChange?
    ensures var r := Settle(event, onSuccess, onError, false, parseJson);
      r.Some? ==> r.value == Respond(r.value.callback, TextBody(event.responseText), event.status, RawHeaders(event.responseHeaderText))
  {
  }

  /** Redirects other than 304 and every 4xx and 5xx status go to `onError`. */
  lemma ErrorStatuses(status: int, onSuccess: Value, onError: Value)
    requires 300 <= status < 600 && status != 304
    ensures RoutedCallback(status, onSuccess, onError) == (if Truthy(onError) then Some(OnError) else None)
  {
  }

  /** A completed response with status 0 (an aborted or blocked request) calls nobody. */
  lemma StatusZeroIsSilent<J>(headerText: string, text: string, onSuccess: Value, onError: Value, autoParse: bool, parseJson: string -> Option<J>)
    ensures Settle(ReadyStateChange(4, 0, headerText, text), onSuccess, onError, autoParse, parseJson).None?
  {
  }
}
