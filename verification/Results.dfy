/** Results that several components share. */
module Results {

  datatype Option<T> = None | Some(value: T)

  /** What becomes of a command to a store: an answer, or a failure before or after the store acted. */
  datatype Link = Up | LostBefore | LostAfter

  /** What `RewriteUrl` answers: a new URL, `UnmappableUrl`, or a parse error. */
  datatype UrlResult<U> = Mapped(url: U) | Unmappable | Malformed
}
