/** Case conversion of `String.toLowerCase`, `String.toUpperCase` and
    `String.equalsIgnoreCase`, restricted to the ASCII letters. The one
    case-insensitive comparison against user input is `parseBoolean`'s
    against "true", and no non-ASCII character case-maps to t, r, u or e;
    "ASC" and "DESC" are only ever cased by the program itself. */
module Text {

  function LowerChar(c: char): char {
    if 'A' <= c <= 'Z' then (c as int + 32) as char else c
  }

  function UpperChar(c: char): char {
    if 'a' <= c <= 'z' then (c as int - 32) as char else c
  }

  function ToLower(s: string): string {
    seq(|s|, i requires 0 <= i < |s| => LowerChar(s[i]))
  }

  function ToUpper(s: string): string {
    seq(|s|, i requires 0 <= i < |s| => UpperChar(s[i]))
  }

  /** Same length, and the characters agree position by position once
      upper-cased. */
  predicate EqualsIgnoreCase(a: string, b: string) {
    |a| == |b| && forall i :: 0 <= i < |a| ==> UpperChar(a[i]) == UpperChar(b[i])
  }
}
