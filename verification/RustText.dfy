/** White space as Rust's string functions see it. */
module RustText {

  /** The Unicode White_Space property, which `trim` and `split_whitespace` use. */
  predicate IsSpace(c: char)
  {
    || '\U{0009}' <= c <= '\U{000D}' || c == ' ' || c == '\U{0085}' || c == '\U{00A0}' || c == '\U{1680}'
    || '\U{2000}' <= c <= '\U{200A}' || c == '\U{2028}' || c == '\U{2029}' || c == '\U{202F}' || c == '\U{205F}'
    || c == '\U{3000}'
  }
}
