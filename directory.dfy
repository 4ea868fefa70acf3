/** The data exchanged with the directory service (src/app/file.service.ts).
    The network call itself is not modelled: its result reaches the component
    as an `Outcome` value. */
module Directory {
  import opened Wrappers

  /** One row of a directory listing. Only the fields the component reads are
      kept; size, timestamps, permissions, uid, gid and mode pass through
      the component untouched. */
  datatype Entry = Entry(name: string, path: string, isDirectory: bool)

  /** One page of a listing and the server's continuation cursor, stored by
      the component verbatim (an empty string is possible and is kept). */
  datatype Page = Page(entries: seq<Entry>, nextCursor: Option<string>)

  /** The arguments of one call to the service's `list(path, cursor, limit)`. */
  datatype Request = Request(path: string, cursor: Option<string>, limit: int)

  /** What a call to `list` yields: the `data.directory` page, or the error it
      rejects with (a transport failure or the response's `errors` value),
      written here as the text that string concatenation makes of it. */
  datatype Outcome = Success(page: Page) | Failure(err: string)

  /** A page together with the request that fetched it. */
  datatype Fetch = Fetch(request: Request, page: Page)
}
