/**
 * The slice of JavaScript's value semantics that discuss.js relies on:
 * `typeof`, truthiness, coercion to a string, number-to-string conversion
 * and the enumeration of own properties by `for ... in`.
 */
module Js {

  const MaxSafeInteger := 0x1F_FFFF_FFFF_FFFF

  /** Integers a JavaScript number holds exactly; for them `toString` is plain decimal. */
  type SafeInt = n: int | -MaxSafeInteger <= n <= MaxSafeInteger

  /**
   * A JavaScript value as the library sees it. An `Object` lists its own
   * enumerable properties in enumeration order; a `Function` carries its
   * source text, which is what `String(f)` yields.
   */
  datatype Value =
    | Undefined
    | Null
    | Boolean(b: bool)
    | Number(n: SafeInt)
    | Str(s: string)
    | Object(entries: seq<(string, Value)>)
    | Function(source: string)

  /** The results of the `typeof` operator ('undefined', 'object', ...). */
  datatype TypeName = UndefinedType | ObjectType | BooleanType | NumberType | StringType | FunctionType

  /** `typeof v`; note that `typeof null` is 'object'. */
  function TypeOf(v: Value): (t: TypeName)
    ensures t == ObjectType <==> v.Null? || v.Object?
    ensures t == StringType <==> v.Str?
  {
    match v
    case Undefined => UndefinedType
    case Null => ObjectType
    case Boolean(_) => BooleanType
    case Number(_) => NumberType
    case Str(_) => StringType
    case Object(_) => ObjectType
    case Function(_) => FunctionType
  }

  /** JavaScript truthiness: `if (v)`. */
  predicate Truthy(v: Value) {
    match v
    case Undefined => false
    case Null => false
    case Boolean(b) => b
    case Number(n) => n != 0
    case Str(s) => s != ""
    case Object(_) => true
    case Function(_) => true
  }

  predicate IsDigit(c: char) { '0' <= c <= '9' }

  function DigitChar(d: int): (c: char)
    requires 0 <= d < 10
    ensures IsDigit(c)
  {
    (48 + d) as char
  }

  function DigitValue(c: char): int
    requires IsDigit(c)
  {
    c as int - 48
  }

  /** The decimal numeral of `n`, as `n.toString()` writes it. */
  function NatToDecimal(n: nat): (r: string)
    ensures |r| >= 1
    ensures forall i :: 0 <= i < |r| ==> IsDigit(r[i])
    ensures r[0] == '0' ==> n == 0 && r == "0"
    decreases n
  {
    if n < 10 then [DigitChar(n)] else NatToDecimal(n / 10) + [DigitChar(n % 10)]
  }

  /** Reads a string of decimal digits back as a number. */
  function DecimalValue(s: string): nat
    requires forall i :: 0 <= i < |s| ==> IsDigit(s[i])
  {
    if s == [] then 0 else 10 * DecimalValue(s[..|s| - 1]) + DigitValue(s[|s| - 1])
  }

  /** `NatToDecimal` loses nothing: reading the numeral back gives the number. */
  lemma {:induction false} DecimalRoundTrip(n: nat)
    ensures DecimalValue(NatToDecimal(n)) == n
  {
    if n >= 10 {
      var r := NatToDecimal(n);
      var prefix := NatToDecimal(n / 10);
      assert r[..|r| - 1] == prefix;
      DecimalRoundTrip(n / 10);
    }
  }

  /** `Number.prototype.toString()` for a safe integer. */
  function NumberToString(n: SafeInt): (r: string)
    ensures |r| >= 1 && IsDigit(r[|r| - 1])
    ensures r[0] == '-' <==> n < 0
  {
    if n < 0 then "-" + NatToDecimal(-n) else NatToDecimal(n)
  }

  /** `String(v)`: what `+` concatenation and the RegExp methods turn a value into. */
  function ToJsString(v: Value): (s: string) {
    match v
    case Undefined => "undefined"
    case Null => "null"
    case Boolean(b) => if b then "true" else "false"
    case Number(n) => NumberToString(n)
    case Str(s) => s
    case Object(_) => "[object Object]"
    case Function(src) => src
  }

  /**
   * The keys a `for ... in` loop filtered by `hasOwnProperty` visits, with
   * `v[k]`: an object's own properties, a string's indices, nothing otherwise
   * (iterating `null` or `undefined` runs no iteration).
   */
  function OwnEntries(v: Value): (entries: seq<(string, Value)>) {
    match v
    case Object(e) => e
    case Str(s) => seq(|s|, i requires 0 <= i < |s| => (NatToDecimal(i), Str([s[i]])))
    case _ => []
  }

  /**
   * The object a loop `for (...) target[k] = v` builds from an empty object:
   * every key that occurs, bound to the value of its last occurrence.
   */
  function EntriesToMap<V>(e: seq<(string, V)>): (m: map<string, V>)
    decreases |e|
  {
    if e == [] then map[] else EntriesToMap(e[..|e| - 1])[e[|e| - 1].0 := e[|e| - 1].1]
  }

  /** The keys of the built object are exactly the keys that occur. */
  lemma {:induction false} EntriesToMapKeys<V>(e: seq<(string, V)>)
    ensures EntriesToMap(e).Keys == set i | 0 <= i < |e| :: e[i].0
    decreases |e|
  {
    if e != [] {
      var front := e[..|e| - 1];
      EntriesToMapKeys(front);
      assert forall i :: 0 <= i < |e| - 1 ==> front[i] == e[i];
    }
  }

  /** Last write wins: a key's value is that of its final occurrence. */
  lemma {:induction false} EntriesToMapLastWins<V>(e: seq<(string, V)>, i: int)
    requires 0 <= i < |e|
    requires forall j :: i < j < |e| ==> e[j].0 != e[i].0
    ensures e[i].0 in EntriesToMap(e) && EntriesToMap(e)[e[i].0] == e[i].1
    decreases |e|
  {
    if i < |e| - 1 {
      var front := e[..|e| - 1];
      assert front[i] == e[i];
      EntriesToMapLastWins(front, i);
    }
  }
}
