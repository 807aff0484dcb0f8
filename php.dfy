/**
 * The few PHP and Laravel string primitives the core relies on, restricted to ASCII:
 * `empty()`, `strtoupper()`, `str_replace()` with a one-character needle, and
 * `Str::title()` (which is `mb_convert_case($s, MB_CASE_TITLE)`).
 */
module Php {
  import opened Wrappers

  /** PHP `empty()` on a string-or-null: true for `null`, `""` and `"0"`. */
  predicate Empty(v: Option<string>) {
    v == None || v == Some("") || v == Some("0")
  }

  predicate IsLower(c: char) { 'a' <= c <= 'z' }
  predicate IsUpper(c: char) { 'A' <= c <= 'Z' }
  predicate IsLetter(c: char) { IsLower(c) || IsUpper(c) }

  function UpperChar(c: char): (r: char)
    ensures !IsLower(r)
    ensures IsLetter(c) <==> IsLetter(r)
    ensures !IsLetter(c) ==> r == c
  {
    if IsLower(c) then (c as int - 32) as char else c
  }

  function LowerChar(c: char): (r: char)
    ensures !IsUpper(r)
    ensures IsLetter(c) <==> IsLetter(r)
    ensures !IsLetter(c) ==> r == c
  {
    if IsUpper(c) then (c as int + 32) as char else c
  }

  /** `strtoupper`: every ASCII lower-case letter becomes upper case, nothing else changes. */
  function ToUpper(s: string): (r: string)
    ensures |r| == |s|
    ensures forall i :: 0 <= i < |r| ==> !IsLower(r[i])
    ensures forall i :: 0 <= i < |s| && !IsLower(s[i]) ==> r[i] == s[i]
    ensures forall i :: 0 <= i < |s| ==> LowerChar(r[i]) == LowerChar(s[i])
  {
    seq(|s|, i requires 0 <= i < |s| => UpperChar(s[i]))
  }

  lemma ToUpperIdempotent(s: string)
    ensures ToUpper(ToUpper(s)) == ToUpper(s)
  {
  }

  /** `str_replace(from, to, s)` for a one-character needle. */
  function ReplaceChar(s: string, from: char, to: char): (r: string)
    ensures |r| == |s|
    ensures forall i :: 0 <= i < |s| ==> r[i] == (if s[i] == from then to else s[i])
  {
    seq(|s|, i requires 0 <= i < |s| => if s[i] == from then to else s[i])
  }

  /**
   * The ASCII characters that Unicode calls case-ignorable (apostrophe, full stop,
   * colon, circumflex and grave accent): title-casing looks through them.
   */
  predicate CaseIgnorable(c: char) {
    c == '\'' || c == '.' || c == ':' || c == '^' || c == '`'
  }

  /**
   * Title-casing from a given state: `afterCased` is true when the last character
   * that was not case-ignorable was a letter. A letter in that state is lowered,
   * otherwise it is upper-cased.
   */
  function TitleFrom(s: string, afterCased: bool): (r: string)
    ensures |r| == |s|
    ensures forall i :: 0 <= i < |s| && !IsLetter(s[i]) ==> r[i] == s[i]
    ensures forall i :: 0 <= i < |s| && IsLetter(s[i]) ==> IsLetter(r[i]) && LowerChar(r[i]) == LowerChar(s[i])
    ensures 0 < |s| && IsLetter(s[0]) ==> r[0] == (if afterCased then LowerChar(s[0]) else UpperChar(s[0]))
    decreases |s|
  {
    if s == [] then []
    else
      var c := s[0];
      var out := if afterCased then LowerChar(c) else UpperChar(c);
      var next := if CaseIgnorable(c) then afterCased else IsLetter(c);
      assert forall i :: 0 < i < |s| ==> s[1..][i - 1] == s[i];
      [out] + TitleFrom(s[1..], next)
  }

  /**
   * Inside the string, a letter right after a letter is lowered, and a letter right
   * after a character that is neither a letter nor case-ignorable (a space, a digit,
   * a hyphen) is upper-cased.
   */
  lemma {:induction false} TitleFromCasing(s: string, b: bool)
    ensures forall i :: 0 < i < |s| && IsLetter(s[i]) && IsLetter(s[i - 1]) ==> TitleFrom(s, b)[i] == LowerChar(s[i])
    ensures forall i :: 0 < i < |s| && IsLetter(s[i]) && !IsLetter(s[i - 1]) && !CaseIgnorable(s[i - 1]) ==>
              TitleFrom(s, b)[i] == UpperChar(s[i])
    decreases |s|
  {
    if s != [] {
      var c := s[0];
      var next := if CaseIgnorable(c) then b else IsLetter(c);
      var r, t := TitleFrom(s, b), TitleFrom(s[1..], next);
      assert forall i :: 0 < i < |s| ==> r[i] == t[i - 1] && s[i] == s[1..][i - 1];
      TitleFromCasing(s[1..], next);
    }
  }

  /** `Str::title`: the first letter of every word upper case, the other letters lower case. */
  function Title(s: string): (r: string)
  {
    TitleFrom(s, false)
  }

  /** Title-casing twice is the same as title-casing once. */
  lemma {:induction false} TitleFromIdempotent(s: string, b: bool)
    ensures TitleFrom(TitleFrom(s, b), b) == TitleFrom(s, b)
    decreases |s|
  {
    if s != [] {
      var c := s[0];
      var out := if b then LowerChar(c) else UpperChar(c);
      var next := if CaseIgnorable(c) then b else IsLetter(c);
      var t := TitleFrom(s, b);
      assert t == [out] + TitleFrom(s[1..], next);
      assert t[0] == out && t[1..] == TitleFrom(s[1..], next);
      assert (if b then LowerChar(out) else UpperChar(out)) == out;
      assert CaseIgnorable(out) == CaseIgnorable(c);
      assert IsLetter(out) == IsLetter(c);
      TitleFromIdempotent(s[1..], next);
    }
  }

  predicate IsDigit(c: char) { '0' <= c <= '9' }

  /** `(string) $n` for a non-negative integer: its decimal digits. */
  function NatToString(n: nat): (r: string)
    ensures |r| > 0
    ensures forall i :: 0 <= i < |r| ==> IsDigit(r[i])
  {
    var d := ['0' + (n % 10) as char];
    if n < 10 then d else NatToString(n / 10) + d
  }

  /** The number a string of decimal digits denotes, read from the most significant digit. */
  function DigitsValue(s: string): nat
    requires forall i :: 0 <= i < |s| ==> IsDigit(s[i])
  {
    if s == [] then 0
    else
      var last := s[|s| - 1];
      assert IsDigit(last);
      DigitsValue(s[..|s| - 1]) * 10 + (last as int - '0' as int)
  }

  /** Reading the decimal digits of `n` back gives `n`. */
  lemma {:induction false} NatToStringReadsBack(n: nat)
    ensures DigitsValue(NatToString(n)) == n
  {
    var d := ['0' + (n % 10) as char];
    if n < 10 {
      assert NatToString(n) == d;
      assert d[..0] == [];
    } else {
      var p := NatToString(n / 10);
      assert NatToString(n) == p + d;
      assert (p + d)[..|p|] == p;
      NatToStringReadsBack(n / 10);
    }
  }

  /** Different numbers have different decimal strings. */
  lemma NatToStringInjective(m: nat, n: nat)
    ensures NatToString(m) == NatToString(n) ==> m == n
  {
    NatToStringReadsBack(m);
    NatToStringReadsBack(n);
  }
}
