/**
 * The collaborators the builder calls but whose code is not part of this
 * model: the markdown renderer, the HTML tag stripper, the whitespace-aware
 * truncation, the RFC 3339 date parser and the URL host lookup. Each is a
 * function value supplied by the caller, so every property proved holds for
 * whatever they compute.
 */
module Externals {
  import opened Wrappers

  /** An instant; only its order matters to the builder. */
  type Timestamp = int

  /** What parsing the site URL and asking for its host gives. */
  datatype UrlHost = Unparseable | NoHost | Host(domain: string)

  datatype Externals = Externals(
    /** comrak's `markdown_to_html` with the builder's options. */
    markdownToHtml: string -> string,
    /** voca_rs's `strip_tags`. */
    stripTags: string -> string,
    /** `truncate_text(text, length)`. */
    truncateText: (string, nat) -> string,
    /** chrono's `DateTime::parse_from_rfc3339`: an instant, or None when the text is not RFC 3339. */
    parseRfc3339: string -> Option<Timestamp>,
    /** `url::Url::parse(url)` followed by `host()`. */
    hostOf: string -> UrlHost
  )
}
