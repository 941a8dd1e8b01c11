/**
 * `Utilities.buildHeaders(discussHeaders, requestHeaders, bodyType, charset)`:
 * the endpoint's headers are copied, a Content-Type is inferred from the
 * `typeof` of the body, and the request's own headers are laid on top.
 */
module HeaderComposition {

  import opened Wrappers
  import opened Js

  /** The `typeof` of a request body, as far as header inference cares. */
  datatype BodyKind = ObjectBody | StringBody | OtherBody

  function BodyKindOf(body: Value): (k: BodyKind)
    ensures k == ObjectBody <==> TypeOf(body) == ObjectType
    ensures k == StringBody <==> TypeOf(body) == StringType
  {
    match TypeOf(body)
    case ObjectType => ObjectBody
    case StringType => StringBody
    case _ => OtherBody
  }

  const ContentType := "Content-Type"
  const JsonMediaType := "application/json"

  /**
   * The inferred Content-Type: JSON for an object body (also for `null`,
   * whose `typeof` is 'object'), `<textType>; charset=<charset>` for a string
   * body, none otherwise. The current library writes 'text/html', the
   * earlier revision 'text/plain'.
   */
  function InferredContentType(kind: BodyKind, textType: string, charset: Value): (ct: Option<Value>)
    ensures ct.None? <==> kind == OtherBody
    ensures kind == ObjectBody ==> ct == Some(Str(JsonMediaType))
    ensures kind == StringBody ==> ct == Some(Str(textType + "; charset=" + ToJsString(charset)))
  {
    match kind
    case ObjectBody => Some(Str(JsonMediaType))
    case StringBody => Some(Str(textType + "; charset=" + ToJsString(charset)))
    case OtherBody => None
  }

  /**
   * The three layers in order. Request headers win over everything; the
   * inferred Content-Type wins over the endpoint's; every other endpoint
   * header passes through; no other key appears.
   */
  function ComposedHeaders(defaults: map<string, Value>, overrides: map<string, Value>, inferred: Option<Value>): (h: map<string, Value>)
    ensures h.Keys == defaults.Keys + overrides.Keys + (if inferred.Some? then {ContentType} else {})
    ensures forall k :: k in overrides ==> h[k] == overrides[k]
    ensures inferred.Some? && ContentType !in overrides ==> h[ContentType] == inferred.value
    ensures forall k :: k in defaults && k !in overrides && (inferred.None? || k != ContentType) ==> h[k] == defaults[k]
  {
    var typed := if inferred.Some? then defaults[ContentType := inferred.value] else defaults;
    typed + overrides
  }

  /** Copies `entries` onto `target` one by one, as a `for ... in` loop assigning `target[k] = v` does. */
  method CopyEntries(target: map<string, Value>, entries: seq<(string, Value)>) returns (result: map<string, Value>)
    ensures result == target + EntriesToMap(entries)
  {
    result := target;
    var i := 0;
    while i < |entries|
      invariant 0 <= i <= |entries|
      invariant result == target + EntriesToMap(entries[..i])
    {
      var (k, v) := entries[i];
      assert entries[..i + 1][..i] == entries[..i];
      assert EntriesToMap(entries[..i + 1]) == EntriesToMap(entries[..i])[k := v];
      result := result[k := v];
      i := i + 1;
    }
    assert entries[..i] == entries;
  }

  /** `buildHeaders` as the library runs it: copy, infer, overlay. */
  method BuildHeaders(discussHeaders: Value, requestHeaders: Value, bodyKind: BodyKind, charset: Value)
    returns (compiled: map<string, Value>)
    ensures compiled == ComposedHeaders(EntriesToMap(OwnEntries(discussHeaders)), EntriesToMap(OwnEntries(requestHeaders)),
                                        InferredContentType(bodyKind, "text/html", charset))
  {
    compiled := CopyEntries(map[], OwnEntries(discussHeaders));
    assert compiled == EntriesToMap(OwnEntries(discussHeaders));
    if bodyKind == ObjectBody {
      compiled := compiled[ContentType := Str(JsonMediaType)];
    } else if bodyKind == StringBody {
      compiled := compiled[ContentType := Str("text/html; charset=" + ToJsString(charset))];
    }
    assert "text/html" + "; charset=" == "text/html; charset=";
    compiled := CopyEntries(compiled, OwnEntries(requestHeaders));
  }

  /** An object body with no headers anywhere is sent with `Content-Type: application/json` only. */
  lemma JsonBodyHeaders(entries: seq<(string, Value)>)
    ensures ComposedHeaders(map[], map[], InferredContentType(BodyKindOf(Object(entries)), "text/html", Str("utf-8")))
      == map[ContentType := Str(JsonMediaType)]
  {
  }

  /** A request-level Content-Type replaces the inferred one, whatever the body. */
  lemma RequestContentTypeWins(defaults: map<string, Value>, overrides: map<string, Value>, kind: BodyKind, textType: string, charset: Value)
    requires ContentType in overrides
    ensures ComposedHeaders(defaults, overrides, InferredContentType(kind, textType, charset))[ContentType] == overrides[ContentType]
  {
  }

  /** An endpoint-level Content-Type survives only when the body gives none to infer. */
  lemma EndpointContentType(defaults: map<string, Value>, overrides: map<string, Value>, kind: BodyKind, textType: string, charset: Value)
    requires ContentType in defaults && ContentType !in overrides
    ensures var h := ComposedHeaders(defaults, overrides, InferredContentType(kind, textType, charset));
      h[ContentType] == if kind == OtherBody then defaults[ContentType] else InferredContentType(kind, textType, charset).value
  {
  }
}
