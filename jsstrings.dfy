/** The few JavaScript string and array primitives the game relies on:
    String.prototype.trim, toLowerCase, includes, the decimal rendering of
    a number inside a template literal, and "no two equal entries" as the
    frontend tests it with `new Set(xs).size < xs.length`. */
module JsStrings {

  /** The characters String.prototype.trim strips: ECMAScript WhiteSpace
      (TAB, VT, FF, ZWNBSP and the space separators of category Zs) and
      LineTerminator (LF, CR, LS, PS). */
  predicate IsSpace(c: char) {
    var n := c as int;
    n == 0x09 || n == 0x0A || n == 0x0B || n == 0x0C || n == 0x0D || n == 0x20 ||
    n == 0xA0 || n == 0x1680 || (0x2000 <= n <= 0x200A) || n == 0x2028 ||
    n == 0x2029 || n == 0x202F || n == 0x205F || n == 0x3000 || n == 0xFEFF
  }

  predicate AllSpace(s: string) {
    forall i :: 0 <= i < |s| ==> IsSpace(s[i])
  }

  /** Drops the longest all-whitespace prefix: the result is a suffix of `s`,
      everything cut off is whitespace, and the result does not start with
      whitespace. */
  function TrimStart(s: string): (r: string)
    ensures |r| <= |s| && r == s[|s| - |r|..]
    ensures forall i :: 0 <= i < |s| - |r| ==> IsSpace(s[i])
    ensures r != [] ==> !IsSpace(r[0])
  {
    if s != [] && IsSpace(s[0]) then TrimStart(s[1..]) else s
  }

  /** Drops the longest all-whitespace suffix. */
  function TrimEnd(s: string): (r: string)
    ensures |r| <= |s| && r == s[..|r|]
    ensures forall i :: |r| <= i < |s| ==> IsSpace(s[i])
    ensures r != [] ==> !IsSpace(r[|r| - 1])
  {
    if s != [] && IsSpace(s[|s| - 1]) then TrimEnd(s[..|s| - 1]) else s
  }

  /** String.prototype.trim. */
  function Trim(s: string): (r: string)
    ensures |r| <= |s|
    ensures r != [] ==> !IsSpace(r[0]) && !IsSpace(r[|r| - 1])
  {
    var t := TrimStart(s);
    var r := TrimEnd(t);
    assert r != [] ==> r[0] == t[0];
    r
  }

  /** `!s.trim()` holds exactly for the strings made of whitespace only
      (the empty string included). */
  lemma TrimEmptyIffBlank(s: string)
    ensures Trim(s) == [] <==> AllSpace(s)
  {
    var t := TrimStart(s);
    if Trim(s) != [] {
      var r := Trim(s);
      assert r[0] == t[0];
      assert !IsSpace(s[|s| - |t|]);
    }
  }

  /** A trimmed string that is not empty is left alone by a second trim:
      it neither starts nor ends with whitespace. */
  lemma TrimIdempotent(s: string)
    ensures Trim(Trim(s)) == Trim(s)
  {
    var r := Trim(s);
    if r != [] {
      assert r[0] == TrimStart(s)[0];
    }
  }

  /** A string that neither starts nor ends with whitespace is its own
      trim. */
  lemma UnpaddedIsTrimmed(s: string)
    requires s != [] && !IsSpace(s[0]) && !IsSpace(s[|s| - 1])
    ensures Trim(s) == s
  {
    assert TrimStart(s) == s;
  }

  /** The lower-case mapping of String.prototype.toLowerCase on the
      letters it is modelled for: ASCII A-Z, the Latin-1 capitals
      U+00C0..U+00DE except U+00D7, and the basic Cyrillic capitals
      U+0400..U+042F. Every other character maps to itself. */
  function LowerChar(c: char): char {
    var n := c as int;
    if 0x41 <= n <= 0x5A then (n + 0x20) as char
    else if 0xC0 <= n <= 0xDE && n != 0xD7 then (n + 0x20) as char
    else if 0x410 <= n <= 0x42F then (n + 0x20) as char
    else if 0x400 <= n <= 0x40F then (n + 0x50) as char
    else c
  }

  /** String.prototype.toLowerCase, character by character. */
  function ToLower(s: string): (r: string)
    ensures |r| == |s|
  {
    if s == [] then [] else [LowerChar(s[0])] + ToLower(s[1..])
  }

  lemma {:induction false} ToLowerAt(s: string, i: int)
    requires 0 <= i < |s|
    ensures ToLower(s)[i] == LowerChar(s[i])
  {
    if i > 0 {
      ToLowerAt(s[1..], i - 1);
    }
  }

  /** Lower-casing twice is lower-casing once. */
  lemma ToLowerIdempotent(s: string)
    ensures ToLower(ToLower(s)) == ToLower(s)
  {
    var l := ToLower(s);
    forall i | 0 <= i < |s| ensures ToLower(l)[i] == l[i] {
      ToLowerAt(s, i);
      ToLowerAt(l, i);
    }
  }

  /** `w` occurs in `s` starting at position `i`. */
  ghost predicate OccursAt(w: string, s: string, i: int) {
    0 <= i <= |s| - |w| && s[i..i + |w|] == w
  }

  /** `w` occurs in `s` at some position. */
  ghost predicate IsInfix(w: string, s: string) {
    exists i :: OccursAt(w, s, i)
  }

  /** String.prototype.includes: does `s` contain `w`? */
  function Includes(s: string, w: string): (r: bool)
    ensures w <= s ==> r
    ensures r ==> |w| <= |s|
  {
    w <= s || (s != [] && Includes(s[1..], w))
  }

  lemma {:induction false} IncludesIffInfix(s: string, w: string)
    ensures Includes(s, w) <==> IsInfix(w, s)
  {
    if Includes(s, w) {
      IncludesHasOccurrence(s, w);
    }
    if IsInfix(w, s) {
      var i :| OccursAt(w, s, i);
      OccurrenceIsIncluded(s, w, i);
    }
  }

  lemma {:induction false} IncludesHasOccurrence(s: string, w: string)
    requires Includes(s, w)
    ensures IsInfix(w, s)
  {
    if w <= s {
      assert OccursAt(w, s, 0);
    } else {
      IncludesHasOccurrence(s[1..], w);
      var i :| OccursAt(w, s[1..], i);
      assert s[i + 1..i + 1 + |w|] == s[1..][i..i + |w|];
      assert OccursAt(w, s, i + 1);
    }
  }

  lemma {:induction false} OccurrenceIsIncluded(s: string, w: string, i: int)
    requires OccursAt(w, s, i)
    ensures Includes(s, w)
    decreases i
  {
    if i == 0 {
      assert w <= s;
    } else {
      assert s[1..][i - 1..i - 1 + |w|] == s[i..i + |w|];
      OccurrenceIsIncluded(s[1..], w, i - 1);
    }
  }

  predicate IsDigit(c: char) {
    '0' <= c <= '9'
  }

  /** The number a string of decimal digits spells. */
  ghost function DigitsValue(s: string): int {
    if s == [] then 0
    else DigitsValue(s[..|s| - 1]) * 10 + (s[|s| - 1] as int - '0' as int)
  }

  /** The decimal digits of `n`, as `${n}` renders a non-negative integer:
      at least one digit, the digits spell `n`, and there is no leading
      zero except in "0" itself. */
  function NatToString(n: nat): (r: string)
    ensures |r| >= 1 && forall i :: 0 <= i < |r| ==> IsDigit(r[i])
    ensures DigitsValue(r) == n
    ensures r[0] == '0' ==> r == "0"
  {
    var d := ('0' as int + n % 10) as char;
    if n < 10 then [d]
    else
      var prefix := NatToString(n / 10);
      assert (prefix + [d])[..|prefix|] == prefix;
      prefix + [d]
  }

  /** No value occurs twice. */
  predicate Distinct<T(==)>(s: seq<T>) {
    forall i, j :: 0 <= i < j < |s| ==> s[i] != s[j]
  }

  /** `new Set(s)`, as a set. */
  function ToSet<T>(s: seq<T>): set<T> {
    set x | x in s
  }

  /** `new Set(s).size < s.length` holds exactly when some value occurs
      twice; a list without repetitions has as many distinct values as
      entries. */
  lemma {:induction false} DistinctIffSetSize<T>(s: seq<T>)
    ensures |ToSet(s)| <= |s|
    ensures |ToSet(s)| == |s| <==> Distinct(s)
  {
    if s != [] {
      var rest := s[1..];
      DistinctIffSetSize(rest);
      assert ToSet(s) == {s[0]} + ToSet(rest);
      if s[0] in rest {
        assert ToSet(s) == ToSet(rest);
        var j :| 0 <= j < |rest| && rest[j] == s[0];
        assert s[0] == s[j + 1];
      } else {
        assert s[0] !in ToSet(rest);
        assert Distinct(s) <==> Distinct(rest) by {
          if Distinct(rest) {
            forall i, j | 0 <= i < j < |s| ensures s[i] != s[j] {
              if i == 0 {
                assert s[j] == rest[j - 1];
              } else {
                assert s[i] == rest[i - 1] && s[j] == rest[j - 1];
              }
            }
          }
          if Distinct(s) {
            forall i, j | 0 <= i < j < |rest| ensures rest[i] != rest[j] {
              assert rest[i] == s[i + 1] && rest[j] == s[j + 1];
            }
          }
        }
      }
    } else {
      assert ToSet(s) == {};
    }
  }
}
