/** The string operations the ledgers rely on: trimming, upper-casing, padding, digits. */
module Text {

  /** White space and line terminators, as `String.prototype.trim` strips them. */
  predicate IsSpace(c: char) {
    || c == ' ' || c == '\t' || c == '\n' || c == '\r'
    || c == '\U{000B}' || c == '\U{000C}' || c == '\U{00A0}' || c == '\U{1680}'
    || '\U{2000}' <= c <= '\U{200A}'
    || c == '\U{2028}' || c == '\U{2029}' || c == '\U{202F}' || c == '\U{205F}' || c == '\U{3000}' || c == '\U{FEFF}'
  }

  function TrimStart(s: string): string {
    if s != [] && IsSpace(s[0]) then TrimStart(s[1..]) else s
  }

  function TrimEnd(s: string): string {
    if s != [] && IsSpace(s[|s| - 1]) then TrimEnd(s[..|s| - 1]) else s
  }

  function Trim(s: string): string {
    TrimEnd(TrimStart(s))
  }

  /** Upper case of ASCII letters, and of the dotless i, whose upper case is the ASCII letter I. */
  function ToUpper(s: string): string {
    seq(|s|, i requires 0 <= i < |s| =>
      if 'a' <= s[i] <= 'z' then (s[i] as int - 32) as char
      else if s[i] == '\U{0131}' then 'I'
      else s[i])
  }

  /** `code.trim().toUpperCase()` */
  function NormalizeCode(code: string): string {
    ToUpper(Trim(code))
  }
}
