# File browser view: the paging and navigation state machine

This project models the one component of a small file-browser web page,
`AppComponent`. The component keeps four fields: the current path, the
entries listed so far, a loading flag and the cursor for the next page. It
has three operations:

- `load(cursor?)` asks the directory service for one page of the current
  path, then replaces or extends the listing.
- `enter(entry)` moves into a directory and starts its listing afresh.
- `loadMore()` fetches the next page when a cursor is stored.

`ngOnInit` performs the first load.

The model has four modules:

- `Wrappers` (`wrappers.dfy`) holds `Option`. It stands for the source's
  `string | null` cursor and its optional `cursor?` argument.
- `Directory` (`directory.dfy`) holds the values exchanged with the
  service. These are `Entry`, `Page`, `Request` (the arguments of
  `list(path, cursor, limit)`) and `Outcome`. `Outcome` is either the page
  returned by the service or the error it rejects with.
- `Browser` (`browser.dfy`) is the state machine over values. It has one
  function per operation on a `ViewState`. `load` is split in two at its
  `await`: `Begin` and `Complete`. `Complete` decides between replace and
  append using the cursor captured when the call began. It appends to the
  entries as they are when the answer arrives. The module also holds
  lemmas about runs of calls.
- `App` (`app_component.dfy`) holds the class `AppComponent`. Its methods
  assign the four fields in place. Each method's postcondition ties the new
  state to the matching `Browser` function. Three ghost fields record what
  the component does besides its fields:
  - `requests` logs every request sent to the service.
  - `alerts` logs every alert shown.
  - `session` lists the pages fetched since the listing was last started
    afresh.

The network call is a parameter: every method that loads receives the
service's answer as an `Outcome`.

JavaScript truthiness is kept as the code has it. `HasCursor` is false for
an absent cursor, for `null` and for the empty string. So `load("")`
replaces the listing instead of extending it, and `loadMore()` does nothing
when the stored cursor is `""`. So `load("")` behaves like `load()`, and a
stored `""` behaves like `null`, because the code tests `!cursor` and
`if (this.nextCursor)` (src/app/app.component.ts:28, 51). The cursor
returned by the server is stored as it is, even when it is `""`. The
request still carries the cursor exactly as it was passed, `""` included.

The model preserves the unguarded race between overlapping loads and does
not fix it. `StaleAnswerOverwritesNewDirectory` shows the effect. A load
starts at one path, then the user enters a directory, then the old answer
arrives. The old answer still replaces the listing, so the new path shows
the old directory's page. `StaleLoadMoreAppendsToNewDirectory` shows the
same race for paging: a `loadMore` answer that arrives after `enter`
appends the old directory's page to the new listing and stores the old
path's cursor, which the next `loadMore` then sends for the new path.

## Model

| member | source | states |
|---|---|---|
| `App.AppComponent.constructor` | src/app/app.component.ts:13-18 | a new component is at "/", with no entries, not loading and no cursor; this state satisfies the listing invariant |
| `App.AppComponent.NgOnInit` | src/app/app.component.ts:20-22 | initialisation sends exactly one request: the current path, no cursor, limit 300; a consistent listing stays consistent |
| `App.AppComponent.BeginLoad` | src/app/app.component.ts:24-27 | the flag is raised while the request is outstanding; the request is (current path, the cursor as passed, 300) and is logged |
| `App.AppComponent.CompleteLoad` | src/app/app.component.ts:28-39 | completing a load lowers the flag, keeps the path and changes the fields as `Browser.Complete` prescribes |
| `App.AppComponent.Load` | src/app/app.component.ts:24-40 | one request for (current path, cursor, 300); afterwards not loading and the same path; a failure leaves entries and cursor as they were; a consistent listing stays consistent |
| `App.AppComponent.Enter` | src/app/app.component.ts:42-48 | a file changes nothing and sends nothing; a directory becomes the current path and is loaded with no cursor; a consistent listing stays consistent |
| `App.AppComponent.LoadMore` | src/app/app.component.ts:50-54 | without a truthy cursor nothing changes; with one, exactly one request carries that stored cursor; a consistent listing stays consistent |
| `Browser.Begin` | src/app/app.component.ts:24-27 | loading becomes true; exactly one request for the current path with limit 300 is appended to the log; nothing else changes |
| `Browser.Complete` | src/app/app.component.ts:28-39 | loading ends false and the path is kept; on success a missing or empty captured cursor makes the entries exactly the page, while a non-empty one keeps the old entries as a prefix followed by the page; the page's cursor is stored; on failure entries, cursor and session are kept and the alert "Failed to load directory: " + error is raised |
| `Browser.Load` | src/app/app.component.ts:24-40 | the whole of `load`: one request (current path, cursor, 300); path unchanged; not loading afterwards; replace or append as decided by the cursor's truthiness; the page's cursor is stored; on failure the listing is unchanged and one alert is raised |
| `Browser.OnInit` | src/app/app.component.ts:20-22 | one request with no cursor; on success the entries are the page and the cursor is the page's; on failure both are unchanged |
| `Browser.Enter` | src/app/app.component.ts:42-48 | a non-directory leaves the state identical; a directory sets the path, sends one cursorless request for it and ends not loading; on success it lists exactly the page; on failure it stays at the new path with no entries, no cursor and one alert |
| `Browser.LoadMore` | src/app/app.component.ts:50-54 | without a truthy stored cursor the state is identical; with one it is a load with that cursor, sending one request that carries it |
| `Browser.LoadPreservesConsistent` | src/app/app.component.ts:24-40 | a completed load keeps the invariant: the entries are the concatenation of the pages fetched for the current path since the last fresh start, and the cursor is the last page's |
| `Browser.StepPreservesConsistent` | src/app/app.component.ts:20-54 | every public call (init, load, enter, loadMore) keeps that invariant |
| `Browser.RunConsistent` | src/app/app.component.ts:20-54 | any sequence of calls made one at a time keeps the invariant |
| `Browser.InitialConsistent` | src/app/app.component.ts:13-16 | the initial state satisfies the invariant |
| `Browser.ReachableConsistent` | src/app/app.component.ts:12-55 | every state reached from construction by calls made one at a time satisfies the invariant |
| `Browser.FetchedAppend` | src/app/app.component.ts:31 | appending a page to the session appends its entries to the listing |
| `Browser.StepRequests` | src/app/app.component.ts:27 | a call sends at most one request; that request is for the path current when the call returns, with limit 300; earlier log entries are never rewritten |
| `Browser.RunRequestsUsePageLimit` | src/app/app.component.ts:27 | every request sent by any run of calls has limit 300, and the request log only grows |
| `Browser.LoadMoreWithoutCursorIsNoOp` | src/app/app.component.ts:51-53 | with no truthy stored cursor, any number of `loadMore` calls leave the state identical and send no request |
| `Browser.LoadMoreAppendsPage` | src/app/app.component.ts:50-53 | one `loadMore` answered with a page, while a truthy cursor is stored, appends the page to the entries, stores the page's cursor, keeps the path and sends one request |
| `Browser.LoadMoreAppendsEveryPage` | src/app/app.component.ts:28-53 | paging with `loadMore` while the server returns truthy cursors makes the entries the old entries followed by every page's entries, in order |
| `Browser.LoadMoreKeepsLastCursor` | src/app/app.component.ts:33-53 | after paging through one or more pages the stored cursor is the one the last page returned |
| `Browser.LoadMoreRequestsEveryPage` | src/app/app.component.ts:27-53 | paging stays at the same path, keeps the earlier request log as a prefix and sends exactly one request per page: the first carries the stored cursor, each later one the cursor the previous page returned, all for the current path with limit 300 |
| `Browser.StaleAnswerOverwritesNewDirectory` | src/app/app.component.ts:24-47 | an answer to a load begun before `enter` replaces the new directory's listing with the old path's page, which breaks the listing invariant |
| `Browser.StaleLoadMoreAppendsToNewDirectory` | src/app/app.component.ts:27-52 | an answer to a `loadMore` begun before `enter` appends the old path's page to the new directory's listing, stores the old path's cursor so that the next `loadMore` sends (new path, old path's cursor, 300), and breaks the listing invariant |

## Left out

- The directory service (src/app/file.service.ts) is not modelled. This covers the POST request, the GraphQL query text, JSON (de)serialisation and reading the endpoint from a window-level global. Its answer reaches the model as an `Outcome` parameter.
- The rule that an `errors` field in the response wins over `data.directory` is not modelled. It lives in the service, and its result is the `Failure` case of `Outcome`.
- The error value is modelled as the text JavaScript's string concatenation makes of it. How arrays or `Error` objects are converted to text is not modelled.
- `console.error` is not modelled, because it only writes a diagnostic. The alert is modelled only as the message appended to the ghost `alerts` log.
- Event-loop interleaving is modelled only through the two halves of `load`, `Begin`/`BeginLoad` and `Complete`/`CompleteLoad`. The class's `Load`, `Enter` and `LoadMore` run a load to completion in one step. Overlapping calls are expressed by composing the two halves in `Browser`, not by the class.
- Template rendering and the visibility of the "Load more" button are not modelled. They belong to the view template, which is not part of this model.
- Entry fields other than `name`, `path` and `isDirectory` are not modelled, because the component passes them through untouched. These are size, extension, timestamps, permissions, uid, gid and mode.
- `entry.isDirectory` is modelled as a boolean, so JavaScript truthiness of other values there is not modelled.
- The test-bed bootstrap (src/test.ts) is not part of this model.
