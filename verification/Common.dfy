/** Results with an error, and the upper and lower case of strings. */
module Common {
  datatype Option<+T> = None | Some(value: T)

  datatype Result<+T, +E> = Ok(value: T) | Err(error: E)

  /** Lower case of one character. U+0130 and U+212A are the only characters outside ASCII whose lower
      case is in ASCII; the others stay outside it and are left alone here. */
  function LowerChar(c: char): char {
    if 'A' <= c <= 'Z' then (c as int + 32) as char
    else if c == '\U{130}' then 'i'
    else if c == '\U{212A}' then 'k'
    else c
  }

  /** Upper case of one character. U+0131 and U+017F are the only characters outside ASCII whose upper
      case is in ASCII. */
  function UpperChar(c: char): char {
    if 'a' <= c <= 'z' then (c as int - 32) as char
    else if c == '\U{131}' then 'I'
    else if c == '\U{17F}' then 'S'
    else c
  }

  function ToLower(s: string): (t: string)
    ensures |t| == |s|
  {
    seq(|s|, i requires 0 <= i < |s| => LowerChar(s[i]))
  }

  function ToUpper(s: string): (t: string)
    ensures |t| == |s|
  {
    seq(|s|, i requires 0 <= i < |s| => UpperChar(s[i]))
  }

  /** The letters of ASCII change case, and its other characters do not. */
  lemma LetterCase(i: nat, c: char)
    requires i < 26 && c < 128 as char
    ensures var upper, lower := "ABCDEFGHIJKLMNOPQRSTUVWXYZ", "abcdefghijklmnopqrstuvwxyz";
            LowerChar(upper[i]) == lower[i] && UpperChar(lower[i]) == upper[i]
    ensures !('A' <= c <= 'Z') ==> LowerChar(c) == c
    ensures !('a' <= c <= 'z') ==> UpperChar(c) == c
  {
  }

  lemma ToLowerIdempotent(s: string)
    ensures ToLower(ToLower(s)) == ToLower(s)
  {
  }

  lemma ToUpperIdempotent(s: string)
    ensures ToUpper(ToUpper(s)) == ToUpper(s)
  {
  }
}
