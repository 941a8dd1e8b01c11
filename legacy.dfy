/**
 * The earlier revision of the library (`discuss.js` at the repository
 * root): one `Discuss` object built from a path, headers and options. Its
 * method table, option set-up, query-string and header builders and the
 * status split of its response handler are modelled as written, supposing
 * the file parsed: a missing `)` in `_buildXHR` keeps the whole file from
 * parsing, so none of it runs as shipped.
 */
module Legacy {

  import opened Wrappers
  import opened Js
  import opened Text
  import opened Options
  import opened UriEncoding
  import opened QueryStrings
  import opened HeaderComposition
  import Endpoint
  import ResponseHandling

  /** An entry of the earlier method table; a flag that is not written reads as `undefined`, which is falsy. */
  datatype MethodFlags = MethodFlags(query: bool, body: bool)

  /** The earlier method table: get and head take a query, post and put a body, delete neither. */
  function LegacyMethodOf(verb: Endpoint.Verb): (m: MethodFlags)
    ensures m.query <==> verb == Endpoint.Get || verb == Endpoint.Head
    ensures m.body <==> verb == Endpoint.Post || verb == Endpoint.Put
  {
    match verb
    case Get => MethodFlags(true, false)
    case Post => MethodFlags(false, true)
    case Put => MethodFlags(false, true)
    case Delete => MethodFlags(false, false)
    case Head => MethodFlags(true, false)
  }

  /** The two tables agree on every flag but one: only the current one lets delete take a query. */
  lemma MethodTablesDiffer(verb: Endpoint.Verb)
    ensures LegacyMethodOf(verb).body == Endpoint.MethodOf(verb).body
    ensures LegacyMethodOf(verb).query == Endpoint.MethodOf(verb).query <==> verb != Endpoint.Delete
  {
  }

  /** One pair as the earlier builder writes it: key, `=`, value as `String(value)`, no encoding. */
  function RawPair(entry: (string, Value)): string {
    entry.0 + "=" + ToJsString(entry.1)
  }

  function RawPairs(entries: seq<(string, Value)>): (r: seq<string>)
    ensures |r| == |entries|
    ensures forall i :: 0 <= i < |r| ==> r[i] == RawPair(entries[i])
  {
    seq(|entries|, i requires 0 <= i < |entries| => RawPair(entries[i]))
  }

  /**
   * What `_buildQueryString` returns: '?' and the raw pairs joined by `&`,
   * or '?undefined' when there is no key, since the accumulator starts out
   * `undefined`.
   */
  function LegacyQueryString(entries: seq<(string, Value)>): string {
    "?" + if entries == [] then "undefined" else Join(RawPairs(entries), '&')
  }

  /** The guard in `send`: the query is built only for a truthy query with at least one key. */
  predicate QueryIsSent(query: Value) {
    Truthy(query) && |OwnEntries(query)| > 0
  }

  /** Behind the guard, the query string is never the '?undefined' of an empty query. */
  lemma GuardedQueryIsPairs(query: Value)
    requires QueryIsSent(query)
    ensures LegacyQueryString(OwnEntries(query)) == "?" + Join(RawPairs(OwnEntries(query)), '&')
    ensures LegacyQueryString(OwnEntries(query)) != "?undefined"
  {
    var entries := OwnEntries(query);
    var pairs := RawPairs(entries);
    var body := Join(pairs, '&');
    assert |pairs| > 0;
    assert '=' in pairs[0];
    var k :| 0 <= k < |pairs[0]| && pairs[0][k] == '=';
    assert body[k] == '=';
    assert '=' !in "undefined";
    assert ("?" + body)[k + 1] == '=';
  }

  /**
   * Without encoding the output is ambiguous: a value holding `&` and `=`
   * reads like a second pair.
   */
  lemma RawQueryIsAmbiguous(k1: string, v1: string, k2: string, v2: string)
    ensures LegacyQueryString([(k1, Str(v1 + "&" + k2 + "=" + v2))]) == LegacyQueryString([(k1, Str(v1)), (k2, Str(v2))])
  {
    var first, second := k1 + "=" + v1, k2 + "=" + v2;
    var smuggled := k1 + "=" + (v1 + "&" + k2 + "=" + v2);
    assert LegacyQueryString([(k1, Str(v1 + "&" + k2 + "=" + v2))]) == "?" + smuggled by {
      assert RawPairs([(k1, Str(v1 + "&" + k2 + "=" + v2))]) == [smuggled];
    }
    assert LegacyQueryString([(k1, Str(v1)), (k2, Str(v2))]) == "?" + (first + ['&'] + second) by {
      assert RawPairs([(k1, Str(v1)), (k2, Str(v2))]) == [first] + [second];
      JoinSnoc([first], second, '&');
    }
    assert smuggled == first + ['&'] + second by {
      assert |smuggled| == |first + ['&'] + second|;
      forall i | 0 <= i < |smuggled|
        ensures smuggled[i] == (first + ['&'] + second)[i]
      {
      }
    }
  }

  /** Text of unreserved characters only. */
  predicate IsPlain(s: string) {
    forall i :: 0 <= i < |s| ==> IsUnreserved(s[i])
  }

  /**
   * Where encoding changes nothing, the two revisions agree: for a query
   * with keys whose keys and values are made of unreserved characters, the
   * earlier builder gives what the current one gives.
   */
  lemma PlainQueriesAgree(entries: seq<(string, Value)>)
    requires |entries| > 0
    requires forall i :: 0 <= i < |entries| ==> IsPlain(entries[i].0) && IsPlain(ToJsString(entries[i].1))
    ensures QueryStringOf(Object(entries)) == Ok(LegacyQueryString(entries))
  {
    forall i | 0 <= i < |entries|
      ensures RawPairs(entries)[i] == EncodedPairs(entries)[i]
    {
      EncodeUnreservedIsIdentity(entries[i].0);
      EncodeUnreservedIsIdentity(ToJsString(entries[i].1));
    }
    assert RawPairs(entries) == EncodedPairs(entries);
  }

  /**
   * The response handler's split: the error branch (body first) for a
   * status below 100 or from 300 up, the success branch (body second)
   * otherwise.
   */
  predicate LegacyIsError(status: int) {
    status < 100 || status >= 300
  }

  /**
   * The success/error classification of the two revisions differs at one
   * status only: 304 is an error here and a success in the current one.
   * Which callback runs differs more: this handler always calls back, even
   * for status 0 (as an error), while the current one calls nobody at
   * status 0.
   */
  lemma StatusSplitsDiffer(status: int, onSuccess: Value, onError: Value)
    ensures LegacyIsError(status) != !ResponseHandling.IsSuccessStatus(status) <==> status == 304
    ensures LegacyIsError(0) && ResponseHandling.RoutedCallback(0, onSuccess, onError) == None
  {
  }

  /** `callback(error, data, ...)`: the body goes in the first place for an error, the second otherwise. */
  function CallbackArguments(status: int, responseBody: Value): (args: (Value, Value))
    ensures LegacyIsError(status) ==> args.1 == Null
    ensures !LegacyIsError(status) ==> args.0 == Null
    ensures responseBody == (if LegacyIsError(status) then args.0 else args.1)
  {
    if LegacyIsError(status) then (responseBody, Null) else (Null, responseBody)
  }

  /** The earlier endpoint object. */
  class Discuss {
    var path: Value
    var headers: Value
    var options: map<string, Value>

    /** `new Discuss(path, headers, options)`: headers as given, options merged into the defaults. */
    constructor(path: Value, headers: Value, options: Value)
      ensures this.path == path && this.headers == headers
      ensures this.options == Merged(DefaultOptions, EntriesToMap(OwnEntries(options)))
    {
      this.path := path;
      this.headers := headers;
      this.options := DefaultOptions;
      new;
      InitOptions(options);
    }

    /**
     * `_initOptions`: starts again from the five defaults and overwrites
     * only recognised keys; `undefined` leaves the defaults as they are.
     */
    method InitOptions(options: Value)
      modifies this
      ensures this.path == old(this.path) && this.headers == old(this.headers)
      ensures this.options == Merged(DefaultOptions, EntriesToMap(OwnEntries(options)))
    {
      this.options := DefaultOptions;
      this.options := MergeOptions(this.options, OwnEntries(options));
    }

    /** `_buildQueryString`: the accumulator starts out `undefined` and pairs are written raw. */
    method BuildQueryString(query: Value) returns (r: string)
      ensures r == LegacyQueryString(OwnEntries(query))
    {
      var entries := OwnEntries(query);
      var queryString := Undefined;
      var i := 0;
      while i < |entries|
        invariant 0 <= i <= |entries|
        invariant i == 0 ==> queryString == Undefined
        invariant i > 0 ==> queryString == Str(Join(RawPairs(entries[..i]), '&'))
      {
        var (p, v) := entries[i];
        RawPairsSnoc(entries, i);
        if Truthy(queryString) {
          queryString := Str(queryString.s + "&" + p + "=" + ToJsString(v));
          assert queryString.s == Join(RawPairs(entries[..i]), '&') + ['&'] + RawPair(entries[i]);
        } else {
          queryString := Str(p + "=" + ToJsString(v));
          assert RawPairs(entries[..1]) == [RawPair(entries[0])];
        }
        i := i + 1;
      }
      assert entries[..i] == entries;
      r := "?" + ToJsString(queryString);
    }

    /**
     * `_buildHeaders`: the instance headers, then the inferred Content-Type
     * (`text/plain` for a string body in this revision), then the
     * request's headers.
     */
    method BuildHeaders(headers: Value, bodyKind: BodyKind) returns (compiled: map<string, Value>)
      ensures compiled == ComposedHeaders(EntriesToMap(OwnEntries(this.headers)), EntriesToMap(OwnEntries(headers)),
                                          InferredContentType(bodyKind, "text/plain", OptionValue(options, "charset")))
    {
      compiled := CopyEntries(map[], OwnEntries(this.headers));
      assert compiled == EntriesToMap(OwnEntries(this.headers));
      if bodyKind == ObjectBody {
        compiled := compiled[ContentType := Str(JsonMediaType)];
      } else if bodyKind == StringBody {
        compiled := compiled[ContentType := Str("text/plain; charset=" + ToJsString(OptionValue(options, "charset")))];
      }
      assert "text/plain" + "; charset=" == "text/plain; charset=";
      compiled := CopyEntries(compiled, OwnEntries(headers));
    }
  }

  /** A step of the query loop: the pairs of one more entry are the pairs so far and its own. */
  lemma RawPairsSnoc(entries: seq<(string, Value)>, i: int)
    requires 0 <= i < |entries|
    ensures RawPairs(entries[..i + 1]) == RawPairs(entries[..i]) + [RawPair(entries[i])]
    ensures i > 0 ==> Join(RawPairs(entries[..i + 1]), '&') == Join(RawPairs(entries[..i]), '&') + ['&'] + RawPair(entries[i])
  {
    assert entries[..i + 1] == entries[..i] + [entries[i]];
    if i > 0 {
      JoinSnoc(RawPairs(entries[..i]), RawPair(entries[i]), '&');
    }
  }
}
