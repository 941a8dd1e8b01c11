/**
 * The string operations of JavaScript the library uses: the `\w` class and
 * the line terminators of regular expressions, `String.prototype.trim`,
 * `split` on one character, `indexOf(...) > -1`, and stripping a repeated
 * character from either end (what a run of slashes at an anchored end matches).
 */
module Text {

  /** The regular-expression class `\w`: `[A-Za-z0-9_]`. */
  predicate IsWordChar(c: char) {
    ('A' <= c <= 'Z') || ('a' <= c <= 'z') || ('0' <= c <= '9') || c == '_'
  }

  /** The characters `.` does not match: LF, CR, LINE SEPARATOR, PARAGRAPH SEPARATOR. */
  predicate IsLineTerminator(c: char) {
    c == '\n' || c == '\r' || c == '\U{2028}' || c == '\U{2029}'
  }

  predicate NoLineTerminator(s: string) {
    forall i :: 0 <= i < |s| ==> !IsLineTerminator(s[i])
  }

  /**
   * What `trim` removes: the ECMAScript WhiteSpace characters (tab, vertical
   * tab, form feed, space, no-break space, byte order mark and the Unicode
   * space separators) and the line terminators.
   */
  predicate IsJsWhitespace(c: char) {
    || c == '\t' || c == '\U{000B}' || c == '\U{000C}' || c == ' ' || c == '\U{00A0}' || c == '\U{FEFF}'
    || c == '\U{1680}' || ('\U{2000}' <= c <= '\U{200A}') || c == '\U{202F}' || c == '\U{205F}' || c == '\U{3000}'
    || IsLineTerminator(c)
  }

  /** Drops the leading white space. */
  function TrimStart(s: string): (r: string)
    ensures |r| <= |s|
    decreases |s|
  {
    if s != [] && IsJsWhitespace(s[0]) then TrimStart(s[1..]) else s
  }

  /** What `TrimStart` leaves is a suffix of `s`, after white space only, and starts with no white space. */
  lemma {:induction false} TrimStartShape(s: string)
    ensures TrimStart(s) == s[|s| - |TrimStart(s)|..]
    ensures forall i :: 0 <= i < |s| - |TrimStart(s)| ==> IsJsWhitespace(s[i])
    ensures TrimStart(s) != [] ==> !IsJsWhitespace(TrimStart(s)[0])
    decreases |s|
  {
    if s != [] && IsJsWhitespace(s[0]) {
      TrimStartShape(s[1..]);
      forall i | 1 <= i < |s| - |TrimStart(s)|
        ensures IsJsWhitespace(s[i])
      {
        assert s[i] == s[1..][i - 1];
      }
    }
  }

  /** Drops the trailing white space. */
  function TrimEnd(s: string): (r: string)
    ensures |r| <= |s|
    decreases |s|
  {
    if s != [] && IsJsWhitespace(s[|s| - 1]) then TrimEnd(s[..|s| - 1]) else s
  }

  /** What `TrimEnd` leaves is a prefix of `s`, before white space only, and ends with no white space. */
  lemma {:induction false} TrimEndShape(s: string)
    ensures TrimEnd(s) == s[..|TrimEnd(s)|]
    ensures forall i :: |TrimEnd(s)| <= i < |s| ==> IsJsWhitespace(s[i])
    ensures TrimEnd(s) != [] ==> !IsJsWhitespace(TrimEnd(s)[|TrimEnd(s)| - 1])
    decreases |s|
  {
    if s != [] && IsJsWhitespace(s[|s| - 1]) {
      TrimEndShape(s[..|s| - 1]);
      forall i | |TrimEnd(s)| <= i < |s| - 1
        ensures IsJsWhitespace(s[i])
      {
        assert s[i] == s[..|s| - 1][i];
      }
    }
  }

  /** Trailing white space after a character that is not white space is all `TrimEnd` removes. */
  lemma {:induction false} TrimEndAppend(a: string, b: string)
    requires a != [] && !IsJsWhitespace(a[|a| - 1])
    ensures TrimEnd(a + b) == a + TrimEnd(b)
    decreases |b|
  {
    if b == [] {
      assert a + b == a;
      assert a + TrimEnd(b) == a;
    } else if IsJsWhitespace(b[|b| - 1]) {
      assert (a + b)[..|a + b| - 1] == a + b[..|b| - 1];
      TrimEndAppend(a, b[..|b| - 1]);
    }
  }

  /** `s.trim()`. */
  function Trim(s: string): string {
    TrimEnd(TrimStart(s))
  }

  /** Trimming removes only white space, so it keeps every other character. */
  lemma TrimKeeps(s: string, c: char)
    requires !IsJsWhitespace(c)
    ensures c in Trim(s) <==> c in s
  {
    var t := TrimStart(s);
    var r := TrimEnd(t);
    TrimStartShape(s);
    TrimEndShape(t);
    if c in s {
      var i :| 0 <= i < |s| && s[i] == c;
      assert t[i - (|s| - |t|)] == c;
      assert r[i - (|s| - |t|)] == c;
    }
    if c in r {
      var i :| 0 <= i < |r| && r[i] == c;
      assert t[i] == c;
      assert s[i + (|s| - |t|)] == c;
    }
  }

  /** The result of `trim` starts and ends with a character that is not white space. */
  lemma TrimmedEnds(s: string)
    ensures Trim(s) != [] ==> !IsJsWhitespace(Trim(s)[0]) && !IsJsWhitespace(Trim(s)[|Trim(s)| - 1])
  {
    var t := TrimStart(s);
    var r := TrimEnd(t);
    TrimStartShape(s);
    TrimEndShape(t);
    if r != [] {
      assert r[0] == t[0];
    }
  }

  /** `s.split(sep)` for a one-character separator; it never returns an empty list. */
  function Split(s: string, sep: char): (r: seq<string>)
    ensures |r| >= 1
    decreases |s|
  {
    if s == [] then [""]
    else
      var rest := Split(s[1..], sep);
      if s[0] == sep then [""] + rest
      else [[s[0]] + rest[0]] + rest[1..]
  }

  /** No piece of a split holds the separator. */
  lemma {:induction false} SplitPiecesFree(s: string, sep: char)
    ensures forall i :: 0 <= i < |Split(s, sep)| ==> sep !in Split(s, sep)[i]
    decreases |s|
  {
    if s != [] {
      SplitPiecesFree(s[1..], sep);
    }
  }

  /** A split yields more than one piece exactly when the separator occurs. */
  lemma {:induction false} SplitHasTwoIff(s: string, sep: char)
    ensures |Split(s, sep)| >= 2 <==> sep in s
    decreases |s|
  {
    if s != [] {
      SplitHasTwoIff(s[1..], sep);
      assert sep in s <==> s[0] == sep || sep in s[1..];
    }
  }

  /** The first two pieces of `a`, `sep`, `b`, then nothing or another separator, are `a` and `b`. */
  lemma SplitFirstTwo(a: string, b: string, t: string, sep: char)
    requires sep !in a && sep !in b
    requires t == [] || t[0] == sep
    ensures |Split(a + [sep] + b + t, sep)| >= 2
    ensures Split(a + [sep] + b + t, sep)[0] == a && Split(a + [sep] + b + t, sep)[1] == b
  {
    var u := [sep] + b + t;
    assert a + [sep] + b + t == a + u;
    SplitAfterPiece(a, u, sep);
    assert u[1..] == b + t;
    SplitAfterPiece(b, t, sep);
    assert Split(u, sep) == [""] + Split(b + t, sep);
    assert Split(t, sep)[0] == "";
    assert a + "" == a;
    assert b + "" == b;
  }

  /** `parts.join(sep)`. */
  function Join(parts: seq<string>, sep: char): string
    decreases |parts|
  {
    if |parts| == 0 then ""
    else if |parts| == 1 then parts[0]
    else parts[0] + [sep] + Join(parts[1..], sep)
  }

  /** Appending one more piece to a join. */
  lemma {:induction false} JoinSnoc(parts: seq<string>, last: string, sep: char)
    ensures Join(parts + [last], sep) == if parts == [] then last else Join(parts, sep) + [sep] + last
    decreases |parts|
  {
    if |parts| > 1 {
      assert (parts + [last])[1..] == parts[1..] + [last];
      JoinSnoc(parts[1..], last, sep);
    } else if |parts| == 1 {
      assert (parts + [last])[1..] == [last];
    }
  }

  /**
   * The step of a loop that builds a join: a separator goes in front of the
   * new piece unless nothing has been written yet.
   */
  lemma JoinStep(parts: seq<string>, last: string, sep: char, acc: string)
    requires acc == Join(parts, sep) && (parts != [] <==> acc != "") && last != ""
    ensures (if acc != "" then acc + [sep] else acc) + last == Join(parts + [last], sep) != ""
  {
    JoinSnoc(parts, last, sep);
    if acc == "" {
      assert acc + last == last;
    }
  }

  /** Joining the pieces of a split gives back the original string. */
  lemma {:induction false} JoinSplit(s: string, sep: char)
    ensures Join(Split(s, sep), sep) == s
    decreases |s|
  {
    if s != [] {
      var rest := Split(s[1..], sep);
      JoinSplit(s[1..], sep);
      if s[0] == sep {
        assert Split(s, sep) == [""] + rest;
        assert ([""] + rest)[1..] == rest;
      } else if |rest| > 1 {
        var r := Split(s, sep);
        assert r[1..] == rest[1..];
        assert Join(rest, sep) == rest[0] + [sep] + Join(rest[1..], sep);
      }
    }
  }

  /** Splitting a string that starts with a separator-free piece `a`. */
  lemma {:induction false} SplitAfterPiece(a: string, t: string, sep: char)
    requires sep !in a
    ensures Split(a + t, sep) == [a + Split(t, sep)[0]] + Split(t, sep)[1..]
    decreases |a|
  {
    if a != [] {
      assert (a + t)[1..] == a[1..] + t;
      assert a[0] != sep;
      SplitAfterPiece(a[1..], t, sep);
      assert [a[0]] + (a[1..] + Split(t, sep)[0]) == a + Split(t, sep)[0];
    } else {
      assert a + t == t;
      var r := Split(t, sep);
      assert a + r[0] == r[0];
      assert r == [r[0]] + r[1..];
    }
  }

  /** Splitting a join of separator-free pieces gives back the pieces. */
  lemma {:induction false} SplitJoin(parts: seq<string>, sep: char)
    requires |parts| >= 1
    requires forall i :: 0 <= i < |parts| ==> sep !in parts[i]
    ensures Split(Join(parts, sep), sep) == parts
    decreases |parts|
  {
    if |parts| == 1 {
      SplitAfterPiece(parts[0], "", sep);
      assert parts[0] + "" == parts[0];
    } else {
      var tail := [sep] + Join(parts[1..], sep);
      SplitJoin(parts[1..], sep);
      assert tail[1..] == Join(parts[1..], sep);
      assert Split(tail, sep) == [""] + parts[1..];
      assert Join(parts, sep) == parts[0] + tail;
      SplitAfterPiece(parts[0], tail, sep);
      assert parts[0] + "" == parts[0];
    }
  }

  /** Neither end is white space: what `trim` returns. */
  predicate IsTrimmed(s: string) {
    s == [] || (!IsJsWhitespace(s[0]) && !IsJsWhitespace(s[|s| - 1]))
  }

  /** `trim` leaves a trimmed string alone, and white space in front of one goes. */
  lemma TrimOfTrimmed(s: string, pad: string)
    requires IsTrimmed(s)
    requires forall i :: 0 <= i < |pad| ==> IsJsWhitespace(pad[i])
    ensures Trim(s) == s
    ensures s != [] ==> Trim(pad + s) == s
  {
    if s != [] {
      var t := TrimStart(pad + s);
      TrimStartShape(pad + s);
      assert t == (pad + s)[|pad|..] == s;
    }
  }

  /** `sub` occurs in `s` starting at index `i`. */
  predicate OccursAt(s: string, sub: string, i: int) {
    0 <= i <= |s| - |sub| && s[i..i + |sub|] == sub
  }

  /** `s.indexOf(sub) > -1`. */
  predicate Contains(s: string, sub: string) {
    exists i | 0 <= i <= |s| :: OccursAt(s, sub, i)
  }

  /** What is left of `s` after dropping every trailing `c`. */
  function StripTrailing(s: string, c: char): (r: string)
    ensures |r| <= |s| && r == s[..|r|]
    ensures forall i :: |r| <= i < |s| ==> s[i] == c
    ensures r != [] ==> r[|r| - 1] != c
    decreases |s|
  {
    if s != [] && s[|s| - 1] == c then StripTrailing(s[..|s| - 1], c) else s
  }

  /** Prefixing a three-part concatenation is the four-part concatenation. */
  lemma PrefixRegroups(p: string, a: string, b: string, c: string)
    ensures p + (a + b + c) == p + a + b + c
  {
    var lhs, rhs := p + (a + b + c), p + a + b + c;
    assert |lhs| == |rhs|;
    forall i | 0 <= i < |lhs|
      ensures lhs[i] == rhs[i]
    {
    }
  }

  /** The middle piece of a three-part concatenation is the slice at its offset. */
  lemma MiddleSlice(x: string, y: string, z: string)
    ensures (x + y + z)[|x|..|x| + |y|] == y
  {
    var t := x + y + z;
    forall i | 0 <= i < |y|
      ensures t[|x|..|x| + |y|][i] == y[i]
    {
      assert t[|x| + i] == y[i];
    }
  }

  /** Five pieces regrouped around the second and the third. */
  lemma RegroupFive(a: string, b: string, c: string, d: string, e: string)
    ensures a + b + c + d + e == a + b + (c + d + e)
    ensures a + b + c + d + e == a + (b + c) + (d + e)
  {
    var t := a + b + c + d + e;
    var u, v := a + b + (c + d + e), a + (b + c) + (d + e);
    assert |t| == |u| == |v|;
    forall i | 0 <= i < |t|
      ensures t[i] == u[i] && t[i] == v[i]
    {
    }
  }

  /** What is left of `s` after dropping every leading `c`. */
  function StripLeading(s: string, c: char): (r: string)
    ensures |r| <= |s| && r == s[|s| - |r|..]
    ensures forall i :: 0 <= i < |s| - |r| ==> s[i] == c
    ensures r != [] ==> r[0] != c
    decreases |s|
  {
    if s != [] && s[0] == c then StripLeading(s[1..], c) else s
  }

  /** Stripping a run of `c` from the end of text that does not already end in `c` gives that text back. */
  lemma {:induction false} StripTrailingRun(a: string, t: string, c: char)
    requires a == [] || a[|a| - 1] != c
    requires forall i :: 0 <= i < |t| ==> t[i] == c
    ensures StripTrailing(a + t, c) == a
    decreases |t|
  {
    if t == [] {
      assert a + t == a;
    } else {
      var t' := t[..|t| - 1];
      assert (a + t)[..|a + t| - 1] == a + t';
      StripTrailingRun(a, t', c);
    }
  }

  /** Stripping a run of `c` from the front of text that does not already start with `c` gives that text back. */
  lemma {:induction false} StripLeadingRun(t: string, a: string, c: char)
    requires a == [] || a[0] != c
    requires forall i :: 0 <= i < |t| ==> t[i] == c
    ensures StripLeading(t + a, c) == a
    decreases |t|
  {
    if t == [] {
      assert t + a == a;
    } else {
      assert (t + a)[1..] == t[1..] + a;
      StripLeadingRun(t[1..], a, c);
    }
  }

  /** Stripping only removes characters: what the text lacks, the stripped text lacks. */
  lemma StripKeepsOut(s: string, c: char, x: char)
    requires x !in s
    ensures x !in StripTrailing(s, c) && x !in StripLeading(s, c)
  {
    var head, tail := StripTrailing(s, c), StripLeading(s, c);
    assert forall i :: 0 <= i < |head| ==> head[i] == s[i];
    assert forall i :: 0 <= i < |tail| ==> tail[i] == s[|s| - |tail| + i];
  }
}
