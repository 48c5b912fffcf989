/** The two JavaScript built-ins the interceptor relies on:
    `String.prototype.toLowerCase` (restricted to ASCII) and
    `Array.prototype.indexOf` (strict-equality search, -1 when absent). */
module JsBuiltins {

  predicate IsAsciiUpper(c: char) { 'A' <= c <= 'Z' }

  predicate IsAsciiLower(c: char) { 'a' <= c <= 'z' }

  /** ASCII lower-casing of one character; every other character is kept. */
  function LowerChar(c: char): char
  {
    if IsAsciiUpper(c) then (c as int + 32) as char else c
  }

  /** ASCII upper-casing of one character; every other character is kept. */
  function UpperChar(c: char): char
  {
    if IsAsciiLower(c) then (c as int - 32) as char else c
  }

  /** `s.toLowerCase()` on ASCII: same length, each character lowered. */
  function ToLower(s: string): (r: string)
    ensures |r| == |s|
    ensures forall i :: 0 <= i < |s| ==> r[i] == LowerChar(s[i])
    ensures forall i :: 0 <= i < |r| ==> !IsAsciiUpper(r[i])
  {
    if |s| == 0 then "" else [LowerChar(s[0])] + ToLower(s[1..])
  }

  /** `s` spells `w` letter for letter, each letter in either case. */
  predicate CaseVariantOf(s: string, w: string)
  {
    && |s| == |w|
    && forall i :: 0 <= i < |s| ==> s[i] == w[i] || s[i] == UpperChar(w[i])
  }

  /** A lower-case letter is reached by lowering exactly itself and its
      upper-case form. */
  lemma LowerCharPreimage(c: char, l: char)
    requires IsAsciiLower(l)
    ensures LowerChar(c) == l <==> c == l || c == UpperChar(l)
  {
  }

  /** Comparing `s.toLowerCase()` against an all-lower-case word is a
      case-insensitive comparison against that word. */
  lemma ToLowerMatchesWord(s: string, w: string)
    requires forall i :: 0 <= i < |w| ==> IsAsciiLower(w[i])
    ensures ToLower(s) == w <==> CaseVariantOf(s, w)
  {
    var t := ToLower(s);
    if t == w {
      forall i | 0 <= i < |s|
        ensures s[i] == w[i] || s[i] == UpperChar(w[i])
      {
        LowerCharPreimage(s[i], w[i]);
      }
    }
    if CaseVariantOf(s, w) {
      forall i | 0 <= i < |s|
        ensures t[i] == w[i]
      {
        LowerCharPreimage(s[i], w[i]);
      }
    }
  }

  /** `s.indexOf(x)`: the position of the first element equal to `x`, or -1
      when there is none. */
  function IndexOf<T(==)>(s: seq<T>, x: T): (r: int)
    ensures -1 <= r < |s|
    ensures r == -1 <==> x !in s
    ensures 0 <= r ==> s[r] == x && forall j :: 0 <= j < r ==> s[j] != x
  {
    if |s| == 0 then -1
    else if s[0] == x then 0
    else
      var k := IndexOf(s[1..], x);
      if k < 0 then -1 else k + 1
  }
}
