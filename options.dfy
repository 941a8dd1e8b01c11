/**
 * The options record of a `Discuss` endpoint and the loop that merges a
 * caller's options into it: each own key of the argument that the record
 * already has overwrites the record's value, in enumeration order. The
 * current library has this loop in `configure`, the earlier revision the
 * same loop in `_initOptions`.
 */
module Options {

  import opened Js

  /** The five recognised options. */
  const OptionNames: set<string> := {"charset", "autoParse", "timeout", "cors", "corsWithCredentials"}

  /** The options an endpoint starts with. */
  const DefaultOptions: map<string, Value> := map[
    "charset" := Str("utf-8"),
    "autoParse" := Boolean(true),
    "timeout" := Number(30000),
    "cors" := Boolean(false),
    "corsWithCredentials" := Boolean(false)]

  /** `this.options[name]`: a missing property reads as `undefined`. */
  function OptionValue(options: map<string, Value>, name: string): (v: Value)
    ensures name !in options ==> v == Undefined
    ensures name in options ==> v == options[name]
  {
    if name in options then options[name] else Undefined
  }

  /**
   * The options after a merge: every recognised key that the caller also
   * gives takes the caller's value, every other recognised key keeps its
   * own, and a key that is not recognised is dropped.
   */
  function Merged(current: map<string, Value>, given: map<string, Value>): map<string, Value> {
    map k | k in current :: if k in given then given[k] else current[k]
  }

  /** The merge never adds or removes an option: the key set is always the one it had. */
  lemma MergeKeepsKeys(current: map<string, Value>, given: map<string, Value>)
    ensures Merged(current, given).Keys == current.Keys
  {
  }

  /** A recognised key given by the caller takes the caller's value; the others keep theirs. */
  lemma MergeValues(current: map<string, Value>, given: map<string, Value>, k: string)
    requires k in current
    ensures k in given ==> Merged(current, given)[k] == given[k]
    ensures k !in given ==> Merged(current, given)[k] == current[k]
  {
  }

  /** Merging nothing (`configure({})`, or `_initOptions(undefined)`) changes nothing. */
  lemma MergeNothing(current: map<string, Value>)
    ensures Merged(current, map[]) == current
  {
  }

  /** Merging the same options twice is merging them once. */
  lemma MergeIdempotent(current: map<string, Value>, given: map<string, Value>)
    ensures Merged(Merged(current, given), given) == Merged(current, given)
  {
  }

  /** Keys that are not options make no difference: only the recognised part of the argument counts. */
  lemma MergeIgnoresUnknown(current: map<string, Value>, given: map<string, Value>, unknown: string, v: Value)
    requires unknown !in current
    ensures Merged(current, given[unknown := v]) == Merged(current, given)
  {
  }

  /** One pass of the loop: assigning a key the endpoint has updates it, any other key is skipped. */
  lemma MergeStep(current: map<string, Value>, given: map<string, Value>, k: string, v: Value)
    ensures Merged(current, given[k := v]) == if k in current then Merged(current, given)[k := v] else Merged(current, given)
  {
    var m := Merged(current, given);
    if k in current {
      assert Merged(current, given[k := v]).Keys == m[k := v].Keys;
    }
  }

  /** The `for ... in` loop itself, over the caller's own entries in enumeration order. */
  method MergeOptions(current: map<string, Value>, entries: seq<(string, Value)>) returns (merged: map<string, Value>)
    ensures merged == Merged(current, EntriesToMap(entries))
  {
    merged := current;
    var i := 0;
    while i < |entries|
      invariant 0 <= i <= |entries|
      invariant merged == Merged(current, EntriesToMap(entries[..i]))
    {
      var (k, v) := entries[i];
      assert entries[..i + 1][..i] == entries[..i];
      MergeStep(current, EntriesToMap(entries[..i]), k, v);
      if k in merged {
        merged := merged[k := v];
      }
      i := i + 1;
    }
    assert entries[..i] == entries;
  }

  /** The defaults hold exactly the five recognised options. */
  lemma DefaultsAreTheOptions()
    ensures DefaultOptions.Keys == OptionNames
  {
  }
}
