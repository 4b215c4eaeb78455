/** The character classes of the HTTP/1.0 request syntax (section 2.2 of RFC 1945), as the
    request parser tests them. A byte is a `char`; values above 127 are neither CHARs nor CTLs. */
module CharClass {

  predicate IsChar(c: char) {
    c as int <= 127
  }

  predicate IsCtl(c: char) {
    c as int <= 31 || c as int == 127
  }

  predicate IsTspecial(c: char) {
    || c == '(' || c == ')' || c == '<' || c == '>' || c == '@'
    || c == ',' || c == ';' || c == ':' || c == '\\' || c == '\"'
    || c == '/' || c == '[' || c == ']' || c == '?' || c == '='
    || c == '{' || c == '}' || c == ' ' || c == '\t'
  }

  predicate IsDigit(c: char) {
    '0' <= c <= '9'
  }

  predicate IsBlank(c: char) {
    c == ' ' || c == '\t'
  }

  predicate IsTokenChar(c: char) {
    IsChar(c) && !IsCtl(c) && !IsTspecial(c)
  }

  /** Every character may stand in a token; the empty string qualifies. */
  predicate TokenText(s: string) {
    forall i | 0 <= i < |s| :: IsTokenChar(s[i])
  }

  /** Neither a space nor a control character: what a request URI is made of. */
  predicate UriText(s: string) {
    forall i | 0 <= i < |s| :: s[i] != ' ' && !IsCtl(s[i])
  }

  predicate DigitText(s: string) {
    forall i | 0 <= i < |s| :: IsDigit(s[i])
  }

  predicate BlankText(s: string) {
    forall i | 0 <= i < |s| :: IsBlank(s[i])
  }

  /** Free of control characters: what a header value is made of. */
  predicate ValueText(s: string) {
    forall i | 0 <= i < |s| :: !IsCtl(s[i])
  }
}
