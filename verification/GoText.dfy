/** What the repository calls blank text. */
module GoText {

  /** unicode.IsSpace. */
  predicate Space(c: char) {
    c in "\t\n\U{0B}\U{0C}\r \U{85}\U{A0}\U{1680}\U{2028}\U{2029}\U{202F}\U{205F}\U{3000}" || '\U{2000}' <= c <= '\U{200A}'
  }

  /** strings.TrimSpace leaves nothing. */
  predicate Blank(s: string) {
    forall c <- s :: Space(c)
  }

  /** strings.TrimSpace leaves everything. */
  predicate Trimmed(s: string) {
    s != "" ==> !Space(s[0]) && !Space(s[|s| - 1])
  }
}
