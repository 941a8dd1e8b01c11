/**
 * `Utilities.buildQueryString(query)`: a query string that is already valid
 * is kept (a leading `?` added when missing), an object with keys is
 * percent-encoded pair by pair, and anything else gives the empty string.
 */
module QueryStrings {

  import opened Wrappers
  import opened Js
  import opened Text
  import opened UriEncoding

  /** `Object.keys(null)` throws a TypeError. */
  datatype QueryError = KeysOfNull

  /** `[^?&=]`. */
  predicate IsQueryChar(c: char) {
    c != '?' && c != '&' && c != '='
  }

  /** `[^?&=]+`. */
  predicate IsQueryWord(p: string) {
    |p| > 0 && forall i :: 0 <= i < |p| ==> IsQueryChar(p[i])
  }

  /** `[^?&=]+=[^?&=]+`. */
  predicate IsPairItem(s: string) {
    exists i | 0 < i < |s| - 1 :: s[i] == '=' && IsQueryWord(s[..i]) && IsQueryWord(s[i + 1..])
  }

  /**
   * `(?:(?:(?!=[^?&=])&|(?:[^?&=]+=[^?&=]+))+)*`. The negative lookahead in
   * front of `&` never fails (the next character is that `&`, not `=`), so
   * the language is any sequence of `&` and pairs.
   */
  predicate IsQueryBody(s: string)
    decreases |s|
  {
    || s == []
    || (s[0] == '&' && IsQueryBody(s[1..]))
    || (exists k | 3 <= k <= |s| :: IsPairItem(s[..k]) && IsQueryBody(s[k..]))
  }

  /** `encodeURIComponent(key) + '=' + encodeURIComponent(value)`. */
  function EncodedPair(entry: (string, Value)): string {
    EncodeUriComponent(entry.0) + "=" + EncodeUriComponent(ToJsString(entry.1))
  }

  /** The encoded pairs of the entries, in order. */
  function EncodedPairs(entries: seq<(string, Value)>): (r: seq<string>)
    ensures |r| == |entries|
    ensures forall i :: 0 <= i < |r| ==> r[i] == EncodedPair(entries[i])
  {
    seq(|entries|, i requires 0 <= i < |entries| => EncodedPair(entries[i]))
  }

  lemma EncodedPairsSnoc(front: seq<(string, Value)>, last: (string, Value))
    ensures EncodedPairs(front + [last]) == EncodedPairs(front) + [EncodedPair(last)]
  {
    var r := EncodedPairs(front + [last]);
    forall i | 0 <= i < |front|
      ensures r[i] == EncodedPairs(front)[i]
    {
      assert (front + [last])[i] == front[i];
    }
  }

  /** What `buildQueryString` returns, case by case as its `if` chain reads. */
  function QueryStringOf(query: Value): (r: Result<string, QueryError>) {
    if query.Str? && |query.s| > 0 && query.s[0] == '?' && IsQueryBody(query.s[1..]) then Ok(query.s)
    else if query.Str? && IsQueryBody(query.s) then Ok("?" + query.s)
    else if query.Null? then Err(KeysOfNull)
    else if query.Object? && |query.entries| > 0 then Ok("?" + Join(EncodedPairs(query.entries), '&'))
    else Ok("")
  }

  /** The case split of `buildQueryString`; the object case's loop is `JoinEncodedPairs`. */
  method BuildQueryString(query: Value) returns (r: Result<string, QueryError>)
    ensures r == QueryStringOf(query)
  {
    if query.Str? && |query.s| > 0 && query.s[0] == '?' && IsQueryBody(query.s[1..]) {
      r := Ok(query.s);
    } else if query.Str? && IsQueryBody(query.s) {
      r := Ok("?" + query.s);
    } else if TypeOf(query) == ObjectType && query.Null? {
      r := Err(KeysOfNull);
    } else if TypeOf(query) == ObjectType && |OwnEntries(query)| > 0 {
      var queryString := JoinEncodedPairs(OwnEntries(query));
      r := Ok("?" + queryString);
    } else {
      r := Ok("");
    }
  }

  /** The loop of the object case: an `&` goes in front of every pair but the first. */
  method JoinEncodedPairs(entries: seq<(string, Value)>) returns (queryString: string)
    ensures queryString == Join(EncodedPairs(entries), '&')
  {
    queryString := "";
    var i := 0;
    while i < |entries|
      invariant 0 <= i <= |entries|
      invariant queryString == Join(EncodedPairs(entries[..i]), '&')
      invariant i > 0 <==> queryString != ""
    {
      var pair := EncodedPair(entries[i]);
      AppendPair(entries, i, queryString);
      if queryString != "" {
        queryString := queryString + "&";
      }
      queryString := queryString + pair;
      i := i + 1;
    }
    assert entries[..i] == entries;
  }

  /** One iteration of that loop extends the join by one pair. */
  lemma AppendPair(entries: seq<(string, Value)>, i: int, queryString: string)
    requires 0 <= i < |entries|
    requires queryString == Join(EncodedPairs(entries[..i]), '&')
    requires i > 0 <==> queryString != ""
    ensures (if queryString != "" then queryString + "&" else queryString) + EncodedPair(entries[i])
      == Join(EncodedPairs(entries[..i + 1]), '&') != ""
  {
    var front, entry := entries[..i], entries[i];
    var pairs, pair := EncodedPairs(front), EncodedPair(entry);
    assert EncodedPairs(entries[..i + 1]) == pairs + [pair] by {
      assert entries[..i + 1] == front + [entry];
      EncodedPairsSnoc(front, entry);
    }
    assert pair != "" by {
      assert |pair| == |EncodeUriComponent(entry.0)| + 1 + |EncodeUriComponent(ToJsString(entry.1))|;
    }
    assert pairs != [] <==> queryString != "" by {
      assert |pairs| == i;
    }
    JoinStep(pairs, pair, '&', queryString);
  }

  /** A pair item holds no `?`: its key and value are query words and the separator is `=`. */
  lemma PairItemHasNoQuestionMark(p: string)
    requires IsPairItem(p)
    ensures forall j :: 0 <= j < |p| ==> p[j] != '?'
  {
    var i :| 0 < i < |p| - 1 && p[i] == '=' && IsQueryWord(p[..i]) && IsQueryWord(p[i + 1..]);
    forall j | 0 <= j < |p|
      ensures p[j] != '?'
    {
      if j < i {
        assert p[..i][j] == p[j];
      } else if j > i {
        assert p[i + 1..][j - i - 1] == p[j];
      }
    }
  }

  /** A valid query body holds no `?`. */
  lemma {:induction false} QueryBodyHasNoQuestionMark(s: string)
    requires IsQueryBody(s)
    ensures '?' !in s
    decreases |s|
  {
    if s != [] {
      if s[0] == '&' && IsQueryBody(s[1..]) {
        QueryBodyHasNoQuestionMark(s[1..]);
        assert s == [s[0]] + s[1..];
      } else {
        var k :| 3 <= k <= |s| && IsPairItem(s[..k]) && IsQueryBody(s[k..]);
        var item, rest := s[..k], s[k..];
        QueryBodyHasNoQuestionMark(rest);
        PairItemHasNoQuestionMark(item);
        forall j | 0 <= j < |s|
          ensures s[j] != '?'
        {
          if j < k {
            assert s[j] == item[j];
          } else {
            assert s[j] == rest[j - k];
          }
        }
      }
    }
  }

  /**
   * Whatever the input, a result is empty or a `?` followed by text with no
   * further `?`: exactly one query component is appended to the URL.
   */
  lemma QueryStringShape(query: Value)
    ensures QueryStringOf(query).Ok? ==>
      var q := QueryStringOf(query).value;
      q == "" || (q[0] == '?' && '?' !in q[1..])
  {
    if query.Str? && |query.s| > 0 && query.s[0] == '?' && IsQueryBody(query.s[1..]) {
      QueryBodyHasNoQuestionMark(query.s[1..]);
    } else if query.Str? && IsQueryBody(query.s) {
      QueryBodyHasNoQuestionMark(query.s);
      assert ("?" + query.s)[1..] == query.s;
    } else if query.Object? && |query.entries| > 0 {
      var pairs := EncodedPairs(query.entries);
      EncodedPairsAreClean(query.entries);
      JoinOfCleanPairs(pairs);
      assert ("?" + Join(pairs, '&'))[1..] == Join(pairs, '&');
    }
  }

  /** Every encoded pair is clean text, an `=`, clean text: no raw `?`, `/` or `&` inside. */
  lemma EncodedPairsAreClean(entries: seq<(string, Value)>)
    ensures forall i :: 0 <= i < |entries| ==>
      var p := EncodedPairs(entries)[i];
      '?' !in p && '&' !in p && '/' !in p && '#' !in p
  {
    forall i | 0 <= i < |entries|
      ensures var p := EncodedPairs(entries)[i]; '?' !in p && '&' !in p && '/' !in p && '#' !in p
    {
      var a := EncodeUriComponent(entries[i].0);
      var b := EncodeUriComponent(ToJsString(entries[i].1));
      EncodingHoldsNoDelimiter(entries[i].0);
      EncodingHoldsNoDelimiter(ToJsString(entries[i].1));
      assert EncodedPairs(entries)[i] == a + "=" + b;
      AroundSeparatorOmits(a, b, '?');
      AroundSeparatorOmits(a, b, '&');
      AroundSeparatorOmits(a, b, '/');
      AroundSeparatorOmits(a, b, '#');
    }
  }

  /** A character in neither half, and not `=`, is not in the pair. */
  lemma AroundSeparatorOmits(a: string, b: string, c: char)
    requires c !in a && c !in b && c != '='
    ensures c !in a + "=" + b
  {
    var p := a + "=" + b;
    forall j | 0 <= j < |p|
      ensures p[j] != c
    {
      if j < |a| {
        assert p[j] == a[j];
      } else if j > |a| {
        assert p[j] == b[j - |a| - 1];
      }
    }
  }

  /** Joining pieces free of `?` with `&` adds no `?`. */
  lemma {:induction false} JoinOfCleanPairs(pairs: seq<string>)
    requires forall i :: 0 <= i < |pairs| ==> '?' !in pairs[i]
    ensures '?' !in Join(pairs, '&')
    decreases |pairs|
  {
    if |pairs| > 1 {
      JoinOfCleanPairs(pairs[1..]);
    }
  }

  /** `encodeURIComponent(k)=encodeURIComponent(v)` is a pair of the grammar when neither side is empty. */
  lemma EncodedPairIsItem(entry: (string, Value))
    requires entry.0 != "" && ToJsString(entry.1) != ""
    ensures IsPairItem(EncodedPair(entry))
  {
    var a := EncodeUriComponent(entry.0);
    var b := EncodeUriComponent(ToJsString(entry.1));
    var p := a + "=" + b;
    assert p[..|a|] == a && p[|a| + 1..] == b;
    assert p[|a|] == '=';
  }

  /** Pairs of the grammar joined by `&` form a query body. */
  lemma {:induction false} JoinOfItemsIsBody(pairs: seq<string>)
    requires |pairs| >= 1
    requires forall i :: 0 <= i < |pairs| ==> IsPairItem(pairs[i])
    ensures IsQueryBody(Join(pairs, '&'))
    decreases |pairs|
  {
    if |pairs| == 1 {
      PairThenBody(pairs[0], []);
      assert pairs[0] + [] == pairs[0];
    } else {
      JoinOfItemsIsBody(pairs[1..]);
      var rest := Join(pairs[1..], '&');
      assert IsQueryBody("&" + rest) by {
        assert ("&" + rest)[1..] == rest;
      }
      PairThenBody(pairs[0], "&" + rest);
      assert Join(pairs, '&') == pairs[0] + ("&" + rest);
    }
  }

  /** A pair item in front of a query body is a query body. */
  lemma PairThenBody(item: string, rest: string)
    requires IsPairItem(item) && IsQueryBody(rest)
    ensures IsQueryBody(item + rest)
  {
    var s, k := item + rest, |item|;
    assert k >= 3;
    assert s[..k] == item && s[k..] == rest;
  }

  /**
   * Normalising is idempotent: a non-empty result given back as a string
   * comes out unchanged. For an object this holds when no key and no value
   * is empty (an empty side is not a pair of the string grammar).
   */
  lemma QueryStringIdempotent(query: Value)
    requires QueryStringOf(query).Ok? && QueryStringOf(query).value != ""
    requires query.Object? ==> forall i :: 0 <= i < |query.entries| ==>
      query.entries[i].0 != "" && ToJsString(query.entries[i].1) != ""
    ensures QueryStringOf(Str(QueryStringOf(query).value)) == QueryStringOf(query)
  {
    var q := QueryStringOf(query).value;
    if query.Str? && |query.s| > 0 && query.s[0] == '?' && IsQueryBody(query.s[1..]) {
    } else if query.Str? && IsQueryBody(query.s) {
      assert q[1..] == query.s;
    } else {
      var pairs := EncodedPairs(query.entries);
      forall i | 0 <= i < |pairs| ensures IsPairItem(pairs[i]) {
        EncodedPairIsItem(query.entries[i]);
      }
      JoinOfItemsIsBody(pairs);
      assert q[1..] == Join(pairs, '&');
    }
  }

  /** Reads `k=v&k=v...` back into decoded pairs; `None` when a piece is not one `=`-separated pair. */
  function DecodePairs(pieces: seq<string>): Option<seq<(string, string)>>
    decreases |pieces|
  {
    if pieces == [] then Some([])
    else
      var kv := Split(pieces[0], '=');
      if |kv| != 2 then None
      else
        var key := DecodeAsciiComponent(kv[0]);
        var value := DecodeAsciiComponent(kv[1]);
        var rest := DecodePairs(pieces[1..]);
        if key.Some? && value.Some? && rest.Some? then Some([(key.value, value.value)] + rest.value) else None
  }

  /** The entries an object query carries once its values are turned into strings. */
  function StringEntries(entries: seq<(string, Value)>): (r: seq<(string, string)>)
    ensures |r| == |entries|
    decreases |entries|
  {
    if entries == [] then [] else [(entries[0].0, ToJsString(entries[0].1))] + StringEntries(entries[1..])
  }

  /**
   * The encoding of an object loses nothing: for ASCII keys and values,
   * splitting on `&` and `=` and decoding gives back every pair, in order.
   */
  lemma {:induction false} ObjectQueryRoundTrip(entries: seq<(string, Value)>)
    requires |entries| > 0
    requires forall i :: 0 <= i < |entries| ==> IsAscii(entries[i].0) && IsAscii(ToJsString(entries[i].1))
    ensures var q := QueryStringOf(Object(entries));
      q.Ok? && q.value[0] == '?' && DecodePairs(Split(q.value[1..], '&')) == Some(StringEntries(entries))
  {
    var pairs := EncodedPairs(entries);
    var q := "?" + Join(pairs, '&');
    assert QueryStringOf(Object(entries)) == Ok(q);
    EncodedPairsAreClean(entries);
    assert forall i :: 0 <= i < |pairs| ==> '&' !in pairs[i];
    SplitJoin(pairs, '&');
    assert q[1..] == Join(pairs, '&');
    DecodeEncodedPairs(pairs, entries);
  }

  /** An encoded pair splits on `=` into its two encoded sides. */
  lemma EncodedPairSplits(entry: (string, Value))
    ensures Split(EncodedPair(entry), '=') ==
      [EncodeUriComponent(entry.0), EncodeUriComponent(ToJsString(entry.1))]
  {
    var a := EncodeUriComponent(entry.0);
    var b := EncodeUriComponent(ToJsString(entry.1));
    assert '=' !in a by {
      forall j | 0 <= j < |a| ensures a[j] != '=' { }
    }
    assert '=' !in b by {
      forall j | 0 <= j < |b| ensures b[j] != '=' { }
    }
    assert Join([a, b], '=') == a + "=" + b;
    SplitJoin([a, b], '=');
  }

  /** One encoded ASCII pair decodes to its key and its value's string. */
  lemma DecodeOnePair(entry: (string, Value))
    requires IsAscii(entry.0) && IsAscii(ToJsString(entry.1))
    ensures var kv := Split(EncodedPair(entry), '=');
      |kv| == 2 && DecodeAsciiComponent(kv[0]) == Some(entry.0) && DecodeAsciiComponent(kv[1]) == Some(ToJsString(entry.1))
  {
    EncodedPairSplits(entry);
    AsciiRoundTrip(entry.0);
    AsciiRoundTrip(ToJsString(entry.1));
  }

  lemma {:induction false} DecodeEncodedPairs(pieces: seq<string>, entries: seq<(string, Value)>)
    requires |pieces| == |entries|
    requires forall i :: 0 <= i < |entries| ==> pieces[i] == EncodedPair(entries[i])
    requires forall i :: 0 <= i < |entries| ==> IsAscii(entries[i].0) && IsAscii(ToJsString(entries[i].1))
    ensures DecodePairs(pieces) == Some(StringEntries(entries))
    decreases |entries|
  {
    if entries != [] {
      DecodeOnePair(entries[0]);
      DecodeEncodedPairs(pieces[1..], entries[1..]);
    }
  }

  /** Strings from the library's own tests: '' becomes '?', '?' and '?value=24' are kept. */
  lemma StringQueryExamples()
    ensures QueryStringOf(Str("")) == Ok("?")
    ensures QueryStringOf(Str("?")) == Ok("?")
    ensures QueryStringOf(Str("?value=24")) == Ok("?value=24")
  {
    assert QueryStringOf(Str("")) == Ok("?") by {
      assert "?" + "" == "?";
    }
    assert QueryStringOf(Str("?")) == Ok("?") by {
      assert "?"[1..] == "";
    }
    assert QueryStringOf(Str("?value=24")) == Ok("?value=24") by {
      ValuePairIsBody();
      assert "?value=24"[1..] == "value=24";
    }
  }

  /** 'value=24' is one pair of the query grammar. */
  lemma ValuePairIsBody()
    ensures IsQueryBody("value=24")
  {
    var s := "value=24";
    assert s[5] == '=';
    assert IsQueryWord(s[..5]) by {
      assert s[..5] == "value";
    }
    assert IsQueryWord(s[6..]) by {
      assert s[6..] == "24";
    }
    assert s[..8] == s;
    assert IsPairItem(s[..8]);
    assert s[8..] == [];
  }

  /** A second `=` inside a pair is not in the grammar: 'a=b=c' gives ''. */
  lemma DoubleEqualsRefused()
    ensures QueryStringOf(Str("a=b=c")) == Ok("")
  {
    var s := "a=b=c";
    assert !IsQueryBody(s[3..]) by {
      assert s[3..] == "=c";
    }
    forall k | 4 <= k <= |s| ensures !IsPairItem(s[..k]) {
      forall i | 0 < i < k - 1 && s[..k][i] == '='
        ensures !(IsQueryWord(s[..k][..i]) && IsQueryWord(s[..k][i + 1..]))
      {
        if i == 1 {
          assert s[..k][i + 1..][1] == '=';
        } else {
          assert s[..k][..i][1] == '=';
        }
      }
    }
  }

  /** `{}` gives '': an object without keys appends nothing. */
  lemma EmptyObjectQuery()
    ensures QueryStringOf(Object([])) == Ok("")
  {
  }

  /** An object with one key gives '?' and that key's encoded pair. */
  lemma SingleEntryQuery(entry: (string, Value))
    ensures QueryStringOf(Object([entry])) == Ok("?" + EncodedPair(entry))
  {
    assert EncodedPairs([entry]) == [EncodedPair(entry)];
    assert Join([EncodedPair(entry)], '&') == EncodedPair(entry);
  }

  /**
   * `{nonsense: '&?/'}` gives '?nonsense=%26%3F%2F', as the library's tests
   * expect: any key of unreserved characters is kept, the symbols are escaped.
   */
  lemma EscapedObjectQuery(key: string, value: string, escaped: string)
    requires forall i :: 0 <= i < |key| ==> IsUnreserved(key[i])
    requires value == "&?/" && escaped == "%26%3F%2F"
    ensures QueryStringOf(Object([(key, Str(value))])) == Ok("?" + key + "=" + escaped)
  {
    var entry := (key, Str(value));
    SingleEntryQuery(entry);
    assert QueryStringOf(Object([entry])) == Ok("?" + EncodedPair(entry));
    EncodeUnreservedIsIdentity(key);
    EscapedSymbols();
    assert ToJsString(entry.1) == value;
    assert EncodedPair(entry) == key + "=" + escaped;
    PrefixRegroups("?", key, "=", escaped);
  }

  /** `&`, `?` and `/` are escaped as `%26`, `%3F` and `%2F`. */
  lemma EscapedSymbols()
    ensures EncodeUriComponent("&?/") == "%26%3F%2F"
  {
    var e1, e2, e3 := EncodeChar('&'), EncodeChar('?'), EncodeChar('/');
    assert e1 == "%26" && e2 == "%3F" && e3 == "%2F" by {
      EscapedChar('&', '2', '6');
      EscapedChar('?', '3', 'F');
      EscapedChar('/', '2', 'F');
    }
    assert EncodeUriComponent("/") == e3 by {
      assert "/"[1..] == "";
      assert e3 + "" == e3;
    }
    assert EncodeUriComponent("?/") == e2 + e3 by {
      assert "?/"[1..] == "/";
    }
    assert EncodeUriComponent("&?/") == e1 + (e2 + e3) by {
      assert "&?/"[1..] == "?/";
    }
    assert e1 + (e2 + e3) == "%26%3F%2F";
  }

  /** A reserved ASCII character is written as `%`, then its two hex digits. */
  lemma EscapedChar(c: char, hi: char, lo: char)
    requires c as int < 0x80 && !IsUnreserved(c)
    requires hi == HexDigit(c as int / 16) && lo == HexDigit(c as int % 16)
    ensures EncodeChar(c) == ['%', hi, lo]
  {
    assert Utf8(c) == [c as int];
    assert EscapeBytes([c as int]) == PercentEscape(c as int) + EscapeBytes([]);
  }

  /** Text made of unreserved characters is encoded as itself. */
  lemma {:induction false} EncodeUnreservedIsIdentity(s: string)
    requires forall i :: 0 <= i < |s| ==> IsUnreserved(s[i])
    ensures EncodeUriComponent(s) == s
    decreases |s|
  {
    if s != [] {
      EncodeUnreservedIsIdentity(s[1..]);
      assert s == [s[0]] + s[1..];
    }
  }
}
