/** Whitespace of `str.strip`, on ASCII text. */
module PythonText {

  predicate IsSpace(c: char): (yes: bool)
    ensures yes <==> c as int in {9, 10, 11, 12, 13, 28, 29, 30, 31, 32}
  {
    c == ' ' || '\t' <= c <= '\r' || '\U{1C}' <= c <= '\U{1F}'
  }

  function StripLeft(s: string): string {
    if s != [] && IsSpace(s[0]) then StripLeft(s[1..]) else s
  }

  function StripRight(s: string): string {
    if s != [] && IsSpace(s[|s| - 1]) then StripRight(s[..|s| - 1]) else s
  }

  function Strip(s: string): string {
    StripRight(StripLeft(s))
  }
}
