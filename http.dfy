/**
  The downloader sees the network only through the answers it gets back. A
  `HEAD` probe is an answer per URL; a request that raised is `Raised`.
 */
module Http {
  import opened Wrappers

  /** The answer to a `session.head(url)`: its status and its `Location` header, or an exception. */
  datatype Head = Head(status: int, location: Option<string>) | Raised

  /** Python truthiness of a value that may be `None`: present and non-empty. */
  predicate Truthy(v: Option<string>) {
    v.Some? && v.value != ""
  }

  predicate IsRedirect(status: int) {
    status == 301 || status == 302
  }

  /** `response.raise_for_status()` raises exactly for client and server errors. */
  predicate RaisesForStatus(status: int) {
    400 <= status < 600
  }
}
