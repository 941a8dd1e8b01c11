/**
 * `Utilities.joinPaths(first, second)`: two regular expressions must both
 * match, one on `first` (a group `(.*\w)` then any number of slashes up to
 * the end) and one on `second` (any number of slashes from the start, then
 * a group `(.*\w)`), and the result is the first one's group, a slash and the second
 * one's group; otherwise 'Unable to parse paths' is thrown.
 */
module Paths {

  import opened Wrappers
  import opened Js
  import opened Text

  datatype PathError = UnableToParsePaths

  /** What `(.*\w)` accepts: non-empty, ends in a `\w` character, no line terminator. */
  predicate IsPathPart(p: string) {
    |p| > 0 && IsWordChar(p[|p| - 1]) && NoLineTerminator(p)
  }

  /**
   * The join. A number `second` is turned into its decimal string first;
   * any other value reaches the regular expressions through `String(...)`.
   */
  function JoinPaths(first: string, second: Value): (r: Result<string, PathError>)
    ensures r.Ok? ==> exists head, tail :: IsPathPart(head) && IsPathPart(tail) && r.value == head + "/" + tail
  {
    var head := StripTrailing(first, '/');
    var tail := StripLeading(ToJsString(second), '/');
    if IsPathPart(head) && IsPathPart(tail) then Ok(head + "/" + tail) else Err(UnableToParsePaths)
  }

  /** The regular expression on `first` matches `s`, leaving `k` trailing slashes outside the group. */
  predicate TrailingMatch(s: string, k: int) {
    0 <= k <= |s| && (forall i :: |s| - k <= i < |s| ==> s[i] == '/') && IsPathPart(s[..|s| - k])
  }

  /** The regular expression on `second` matches `s`, leaving `k` leading slashes outside the group. */
  predicate LeadingMatch(s: string, k: int) {
    0 <= k <= |s| && (forall i :: 0 <= i < k ==> s[i] == '/') && IsPathPart(s[k..])
  }

  /** The first regular expression matches exactly when stripping the trailing slashes leaves a path part, and its group is then unique. */
  lemma {:induction false} TrailingMatchIsStrip(s: string)
    ensures (exists k :: TrailingMatch(s, k)) <==> IsPathPart(StripTrailing(s, '/'))
    ensures forall k :: TrailingMatch(s, k) ==> s[..|s| - k] == StripTrailing(s, '/')
  {
    var r := StripTrailing(s, '/');
    var k0 := |s| - |r|;
    if IsPathPart(r) {
      assert s[..|s| - k0] == r;
      assert TrailingMatch(s, k0);
    }
    forall k | TrailingMatch(s, k)
      ensures s[..|s| - k] == r
    {
      assert k == k0;
    }
  }

  /** The second one matches exactly when stripping the leading slashes leaves a path part; the greedy run of slashes then takes all of them. */
  lemma {:induction false} LeadingMatchIsStrip(s: string)
    ensures (exists k :: LeadingMatch(s, k)) <==> IsPathPart(StripLeading(s, '/'))
    ensures IsPathPart(StripLeading(s, '/')) ==> LeadingMatch(s, |s| - |StripLeading(s, '/')|)
    ensures forall k :: LeadingMatch(s, k) ==> k <= |s| - |StripLeading(s, '/')|
  {
    var r := StripLeading(s, '/');
    var k0 := |s| - |r|;
    if IsPathPart(r) {
      assert s[k0..] == r;
      assert LeadingMatch(s, k0);
    }
    forall k | LeadingMatch(s, k)
      ensures k <= k0 && IsPathPart(r)
    {
      LeadingMatchWithinRun(s, k);
    }
  }

  /** A match of the second expression never takes more slashes than the leading run, and the stripped text is then a path part. */
  lemma LeadingMatchWithinRun(s: string, k: int)
    requires LeadingMatch(s, k)
    ensures k <= |s| - |StripLeading(s, '/')| && IsPathPart(StripLeading(s, '/'))
  {
    var r := StripLeading(s, '/');
    var k0 := |s| - |r|;
    var g := s[k..];
    if k > k0 {
      assert false;
    }
    if r == [] {
      assert false;
    }
    assert r[|r| - 1] == g[|g| - 1];
    forall i | 0 <= i < |r|
      ensures !IsLineTerminator(r[i])
    {
      assert r[i] == g[i + k0 - k];
    }
  }

  /**
   * `joinPaths` does what its two regular expressions say: it succeeds iff
   * both match, and then joins the first group to the greedy second group.
   */
  lemma JoinPathsFollowsRegexes(first: string, second: Value)
    ensures JoinPaths(first, second).Ok? <==>
      (exists k :: TrailingMatch(first, k)) && (exists k :: LeadingMatch(ToJsString(second), k))
    ensures forall k1, k2 ::
      TrailingMatch(first, k1) && LeadingMatch(ToJsString(second), k2) &&
      (forall j :: k2 < j <= |ToJsString(second)| ==> !LeadingMatch(ToJsString(second), j))
      ==> JoinPaths(first, second) == Ok(first[..|first| - k1] + "/" + ToJsString(second)[k2..])
  {
    var b := ToJsString(second);
    TrailingMatchIsStrip(first);
    LeadingMatchIsStrip(b);
    forall k1, k2 | TrailingMatch(first, k1) && LeadingMatch(b, k2) && (forall j :: k2 < j <= |b| ==> !LeadingMatch(b, j))
      ensures JoinPaths(first, second) == Ok(first[..|first| - k1] + "/" + b[k2..])
    {
      var k0 := |b| - |StripLeading(b, '/')|;
      assert k2 <= k0;
      if k2 < k0 {
        assert false;
      }
      assert b[k2..] == StripLeading(b, '/');
    }
  }

  /**
   * A number as second argument is written in decimal: `joinPaths('/api', 42)`
   * is '/api/42'.
   */
  lemma JoinPathsNumber(first: string, n: nat)
    requires IsPathPart(first) && n <= MaxSafeInteger
    ensures JoinPaths(first, Number(n)) == Ok(first + "/" + NatToDecimal(n))
  {
    var digits := NatToDecimal(n);
    assert ToJsString(Number(n)) == digits;
    assert IsPathPart(digits) && digits[0] != '/' by {
      assert forall i :: 0 <= i < |digits| ==> IsDigit(digits[i]);
    }
    StripTrailingRun(first, [], '/');
    assert first + [] == first;
    StripLeadingRun([], digits, '/');
    assert [] + digits == digits;
  }

  /**
   * Surplus slashes at the seam are dropped: `joinPaths('/api', '/test/path/here')`
   * is '/api/test/path/here', and `joinPaths('http://testserver.com/', '/test/path/here')`
   * is 'http://testserver.com/test/path/here'.
   */
  lemma JoinPathsSeam(first: string, trailing: string, leading: string, second: string)
    requires IsPathPart(first) && IsPathPart(second) && second[0] != '/'
    requires forall i :: 0 <= i < |trailing| ==> trailing[i] == '/'
    requires forall i :: 0 <= i < |leading| ==> leading[i] == '/'
    ensures JoinPaths(first + trailing, Str(leading + second)) == Ok(first + "/" + second)
  {
    StripTrailingRun(first, trailing, '/');
    StripLeadingRun(leading, second, '/');
  }

  /** An empty first part, or one made only of slashes, is refused: ('', '/test') and ('///', x) throw. */
  lemma JoinPathsEmptyFirst(first: string, second: Value)
    requires forall i :: 0 <= i < |first| ==> first[i] == '/'
    ensures JoinPaths(first, second) == Err(UnableToParsePaths)
  {
    StripTrailingRun([], first, '/');
    assert [] + first == first;
  }
}
