/** Token escaping (filter/escaper.go). */
module Escaper {
  /** The two character classes: with preserveWildcards, * and ? are not special. */
  predicate IsSpecial(c: char, preserveWildcards: bool) {
    || c in {',', '.', '<', '>', '{', '}', '[', ']', '\\', '"', '\'', ':', ';', '!', '@', '#', '$', '%', '^', '&'}
    || c in {'(', ')', '-', '+', '=', '~', '/', ' '}
    || (!preserveWildcards && c in {'*', '?'})
  }

  function EscapeToken(value: string, preserveWildcards: bool): string {
    if value == "" then ""
    else
      (if IsSpecial(value[0], preserveWildcards) then ['\\', value[0]] else [value[0]])
      + EscapeToken(value[1..], preserveWildcards)
  }

  /** A backslash makes the next character stand for itself. */
  function Unescape(s: string): string {
    if s == "" then ""
    else if s[0] == '\\' && |s| > 1 then [s[1]] + Unescape(s[2..])
    else [s[0]] + Unescape(s[1..])
  }

  /** The characters that a query reads as punctuation, and the two that it reads as wildcards. */
  const DELIMITERS := ",.<>{}[]\\\"':;!@#$%^&()-+=~/ "
  const WILDCARDS := "*?"

  /** The characters that no backslash makes stand for themselves. */
  function Bare(s: string): string {
    if s == "" then ""
    else if s[0] == '\\' && |s| > 1 then Bare(s[2..])
    else [s[0]] + Bare(s[1..])
  }

  /** value without the characters to be escaped. */
  function Harmless(value: string, preserveWildcards: bool): (s: string)
    ensures forall c | c in s :: c !in DELIMITERS && (c in WILDCARDS ==> preserveWildcards)
  {
    if value == "" then ""
    else
      var rest := Harmless(value[1..], preserveWildcards);
      if value[0] in DELIMITERS || (value[0] in WILDCARDS && !preserveWildcards) then rest else [value[0]] + rest
  }

  lemma SpecialIff(c: char, preserveWildcards: bool)
    ensures IsSpecial(c, preserveWildcards) <==> c in DELIMITERS || (c in WILDCARDS && !preserveWildcards)
  {
    if c in DELIMITERS {
      var i :| 0 <= i < |DELIMITERS| && DELIMITERS[i] == c;
    }
  }

  /** What stays bare in an escaped value is exactly what is harmless in it, in order; each other character
      gets one backslash. */
  lemma {:induction false} EscapesExactly(value: string, preserveWildcards: bool)
    ensures Bare(EscapeToken(value, preserveWildcards)) == Harmless(value, preserveWildcards)
    ensures |EscapeToken(value, preserveWildcards)| == 2 * |value| - |Harmless(value, preserveWildcards)|
  {
    if value == "" {
    } else {
      EscapesExactly(value[1..], preserveWildcards);
      SpecialIff(value[0], preserveWildcards);
      SpecialIff('\\', preserveWildcards);
      hide IsSpecial;
      var s, rest := EscapeToken(value, preserveWildcards), EscapeToken(value[1..], preserveWildcards);
      assert if s[0] == '\\' then s[2..] == rest else s[1..] == rest;
    }
  }

  lemma SpecialChars(preserveWildcards: bool)
    ensures IsSpecial('\\', preserveWildcards) && IsSpecial('}', preserveWildcards)
    ensures !IsSpecial('|', preserveWildcards)
  {
  }

  lemma {:induction false} UnescapeEscape(value: string, preserveWildcards: bool)
    ensures Unescape(EscapeToken(value, preserveWildcards)) == value
  {
    hide IsSpecial;
    if value == "" {
    } else {
      var rest := EscapeToken(value[1..], preserveWildcards);
      var s := EscapeToken(value, preserveWildcards);
      UnescapeEscape(value[1..], preserveWildcards);
      SpecialChars(preserveWildcards);
      assert value == [value[0]] + value[1..];
      if s[0] == '\\' {
        assert s[2..] == rest;
      } else {
        assert s[1..] == rest;
      }
    }
  }
}
