/** The navigation and paging state machine of the file browser's view
    (class AppComponent in src/app/app.component.ts), written over values.
    The class in module App performs these same transitions in place. */
module Browser {
  import opened Wrappers
  import opened Directory

  /** The page size the component always asks for. */
  const PageLimit: int := 300

  /** The text the component puts in front of an error in its alert. */
  const ErrorPrefix: string := "Failed to load directory: "

  /** The component's four fields, together with what the model records
      beside them: every request sent to the service, every alert shown,
      and the pages fetched since the listing was last started afresh. */
  datatype ViewState = ViewState(
    currentPath: string,
    entries: seq<Entry>,
    loading: bool,
    nextCursor: Option<string>,
    requests: seq<Request>,
    alerts: seq<string>,
    session: seq<Fetch>)

  /** JavaScript truthiness of an optional string: `undefined`, `null` and
      the empty string are all false. */
  predicate HasCursor(c: Option<string>)
  {
    c.Some? && c.value != ""
  }

  /** The state of a freshly constructed component. */
  function Initial(): ViewState
  {
    ViewState("/", [], false, None, [], [], [])
  }

  /** The request `load(cursor)` sends from state `s`. */
  function RequestFor(s: ViewState, cursor: Option<string>): Request
  {
    Request(s.currentPath, cursor, PageLimit)
  }

  /** First half of `load(cursor)`: raise the loading flag and send the
      request for the current path. */
  function Begin(s: ViewState, cursor: Option<string>): (r: ViewState)
    ensures r.loading
    ensures r.requests == s.requests + [Request(s.currentPath, cursor, PageLimit)]
    ensures r.currentPath == s.currentPath && r.entries == s.entries
    ensures r.nextCursor == s.nextCursor && r.alerts == s.alerts && r.session == s.session
  {
    s.(loading := true, requests := s.requests + [RequestFor(s, cursor)])
  }

  /** Second half of `load`: the service has answered `req` with `outcome`.
      Whether the page replaces or extends the listing is decided by the
      cursor of `req`, captured when the call began; the page is appended to
      the entries as they are now. */
  function Complete(s: ViewState, req: Request, outcome: Outcome): (r: ViewState)
    ensures !r.loading
    ensures r.currentPath == s.currentPath && r.requests == s.requests
    ensures outcome.Success? && !HasCursor(req.cursor) ==>
      r.entries == outcome.page.entries && r.session == [Fetch(req, outcome.page)]
    ensures outcome.Success? && HasCursor(req.cursor) ==>
      r.entries == s.entries + outcome.page.entries &&
      r.session == s.session + [Fetch(req, outcome.page)]
    ensures outcome.Success? ==>
      r.nextCursor == outcome.page.nextCursor && r.alerts == s.alerts
    ensures outcome.Failure? ==>
      r.entries == s.entries && r.nextCursor == s.nextCursor && r.session == s.session &&
      r.alerts == s.alerts + [ErrorPrefix + outcome.err]
  {
    match outcome
    case Success(page) =>
      var entries := if HasCursor(req.cursor) then s.entries + page.entries else page.entries;
      var session := if HasCursor(req.cursor) then s.session + [Fetch(req, page)] else [Fetch(req, page)];
      s.(entries := entries, nextCursor := page.nextCursor, session := session, loading := false)
    case Failure(err) =>
      s.(alerts := s.alerts + [ErrorPrefix + err], loading := false)
  }

  /** `load(cursor)` run to completion: exactly one request, for the current
      path and with limit 300; the path never changes; the loading flag ends
      false on both paths; a missing or empty cursor replaces the listing, a
      non-empty one appends to it; a failure leaves listing and cursor alone
      and raises one alert. */
  function Load(s: ViewState, cursor: Option<string>, outcome: Outcome): (r: ViewState)
    ensures r.requests == s.requests + [Request(s.currentPath, cursor, PageLimit)]
    ensures r.currentPath == s.currentPath && !r.loading
    ensures outcome.Success? && !HasCursor(cursor) ==> r.entries == outcome.page.entries
    ensures outcome.Success? && HasCursor(cursor) ==>
      r.entries == s.entries + outcome.page.entries
    ensures outcome.Success? ==> r.nextCursor == outcome.page.nextCursor && r.alerts == s.alerts
    ensures outcome.Failure? ==>
      r.entries == s.entries && r.nextCursor == s.nextCursor &&
      r.alerts == s.alerts + [ErrorPrefix + outcome.err]
  {
    Complete(Begin(s, cursor), RequestFor(s, cursor), outcome)
  }

  /** `ngOnInit`: one load without a cursor. */
  function OnInit(s: ViewState, outcome: Outcome): (r: ViewState)
    ensures r.requests == s.requests + [Request(s.currentPath, None, PageLimit)]
    ensures outcome.Success? ==> r.entries == outcome.page.entries && r.nextCursor == outcome.page.nextCursor
    ensures outcome.Failure? ==> r.entries == s.entries && r.nextCursor == s.nextCursor
  {
    Load(s, None, outcome)
  }

  /** The field assignments `enter` makes before it loads: the new path, no
      cursor, no entries (and, in the model, a new session). */
  function Reset(s: ViewState, path: string): ViewState
  {
    s.(currentPath := path, nextCursor := None, entries := [], session := [])
  }

  /** `enter(entry)`: nothing at all for a file; for a directory, move to its
      path, clear the listing and the cursor, and load its first page. */
  function Enter(s: ViewState, entry: Entry, outcome: Outcome): (r: ViewState)
    ensures !entry.isDirectory ==> r == s
    ensures entry.isDirectory ==>
      r.currentPath == entry.path && !r.loading &&
      r.requests == s.requests + [Request(entry.path, None, PageLimit)]
    ensures entry.isDirectory && outcome.Success? ==>
      r.entries == outcome.page.entries && r.nextCursor == outcome.page.nextCursor
    ensures entry.isDirectory && outcome.Failure? ==>
      r.entries == [] && r.nextCursor == None && r.session == [] &&
      r.alerts == s.alerts + [ErrorPrefix + outcome.err]
  {
    if !entry.isDirectory then s else Load(Reset(s, entry.path), None, outcome)
  }

  /** `loadMore()`: load with the stored cursor when it is truthy, else do
      nothing. */
  function LoadMore(s: ViewState, outcome: Outcome): (r: ViewState)
    ensures !HasCursor(s.nextCursor) ==> r == s
    ensures HasCursor(s.nextCursor) ==>
      r.requests == s.requests + [Request(s.currentPath, s.nextCursor, PageLimit)] &&
      r == Load(s, s.nextCursor, outcome)
  {
    if HasCursor(s.nextCursor) then Load(s, s.nextCursor, outcome) else s
  }

  /** A call a user of the component can make, with the service's answer to
      the load it triggers (unused when it triggers none). */
  datatype Call =
    | InitCall(outcome: Outcome)
    | LoadCall(cursor: Option<string>, outcome: Outcome)
    | EnterCall(entry: Entry, outcome: Outcome)
    | LoadMoreCall(outcome: Outcome)

  function Step(s: ViewState, c: Call): ViewState
  {
    match c
    case InitCall(o) => OnInit(s, o)
    case LoadCall(cursor, o) => Load(s, cursor, o)
    case EnterCall(e, o) => Enter(s, e, o)
    case LoadMoreCall(o) => LoadMore(s, o)
  }

  /** The calls made one after another, each finishing before the next. */
  function Run(s: ViewState, calls: seq<Call>): ViewState
    decreases |calls|
  {
    if calls == [] then s else Run(Step(s, calls[0]), calls[1..])
  }

  /** The entries of a session's pages, in the order they were fetched. */
  function Fetched(session: seq<Fetch>): seq<Entry>
  {
    if session == [] then [] else session[0].page.entries + Fetched(session[1..])
  }

  /** The entries of a run of pages, in order. */
  function Concat(pages: seq<Page>): seq<Entry>
  {
    if pages == [] then [] else pages[0].entries + Concat(pages[1..])
  }

  /** The listing is exactly the pages fetched for the current path since it
      was last started afresh, the cursor is the one the last of them gave
      (none when there is none), and no load is in progress. */
  ghost predicate Consistent(s: ViewState)
  {
    !s.loading &&
    s.entries == Fetched(s.session) &&
    s.nextCursor == (if s.session == [] then None else s.session[|s.session| - 1].page.nextCursor) &&
    forall f :: f in s.session ==> f.request.path == s.currentPath && f.request.limit == PageLimit
  }

  lemma {:induction false} FetchedAppend(session: seq<Fetch>, f: Fetch)
    ensures Fetched(session + [f]) == Fetched(session) + f.page.entries
  {
    if session == [] {
      assert [] + [f] == [f];
    } else {
      assert (session + [f])[1..] == session[1..] + [f];
      FetchedAppend(session[1..], f);
    }
  }

  lemma InitialConsistent()
    ensures Consistent(Initial())
  {
  }

  /** A completed `load` keeps the listing consistent. */
  lemma LoadPreservesConsistent(s: ViewState, cursor: Option<string>, outcome: Outcome)
    requires Consistent(s)
    ensures Consistent(Load(s, cursor, outcome))
  {
    var r := Load(s, cursor, outcome);
    if outcome.Success? {
      var f := Fetch(RequestFor(s, cursor), outcome.page);
      if HasCursor(cursor) {
        FetchedAppend(s.session, f);
        assert r.session == s.session + [f];
      } else {
        assert r.session == [f];
        assert Fetched([f]) == f.page.entries + Fetched([]);
      }
    }
  }

  /** Every call of the component keeps the listing consistent. */
  lemma StepPreservesConsistent(s: ViewState, c: Call)
    requires Consistent(s)
    ensures Consistent(Step(s, c))
  {
    match c
    case InitCall(o) => LoadPreservesConsistent(s, None, o);
    case LoadCall(cursor, o) => LoadPreservesConsistent(s, cursor, o);
    case EnterCall(e, o) =>
      if e.isDirectory {
        LoadPreservesConsistent(Reset(s, e.path), None, o);
      }
    case LoadMoreCall(o) =>
      if HasCursor(s.nextCursor) {
        LoadPreservesConsistent(s, s.nextCursor, o);
      }
  }

  /** From construction on, whatever calls are made one at a time, the
      listing shows exactly the pages fetched for the current path since it
      was last entered, and the cursor is the one the last page returned. */
  lemma {:induction false} RunConsistent(s: ViewState, calls: seq<Call>)
    requires Consistent(s)
    ensures Consistent(Run(s, calls))
    decreases |calls|
  {
    if calls != [] {
      StepPreservesConsistent(s, calls[0]);
      RunConsistent(Step(s, calls[0]), calls[1..]);
    }
  }

  lemma ReachableConsistent(calls: seq<Call>)
    ensures Consistent(Run(Initial(), calls))
  {
    InitialConsistent();
    RunConsistent(Initial(), calls);
  }

  /** A call sends at most one request, for the path the component is at
      when the call returns, with limit 300, and never rewrites the log. */
  lemma StepRequests(s: ViewState, c: Call)
    ensures var r := Step(s, c);
      s.requests <= r.requests && |r.requests| <= |s.requests| + 1 &&
      (|r.requests| > |s.requests| ==>
         r.requests[|s.requests|].path == r.currentPath &&
         r.requests[|s.requests|].limit == PageLimit)
  {
  }

  /** Every request any run of calls sends asks for 300 entries. */
  lemma {:induction false} RunRequestsUsePageLimit(s: ViewState, calls: seq<Call>)
    ensures s.requests <= Run(s, calls).requests
    ensures forall i :: |s.requests| <= i < |Run(s, calls).requests| ==>
      Run(s, calls).requests[i].limit == PageLimit
    decreases |calls|
  {
    if calls != [] {
      var t := Step(s, calls[0]);
      StepRequests(s, calls[0]);
      RunRequestsUsePageLimit(t, calls[1..]);
    }
  }

  /** With no truthy cursor stored, any number of `loadMore` calls change
      nothing and send nothing. */
  lemma {:induction false} LoadMoreWithoutCursorIsNoOp(s: ViewState, calls: seq<Call>)
    requires !HasCursor(s.nextCursor)
    requires forall i :: 0 <= i < |calls| ==> calls[i].LoadMoreCall?
    ensures Run(s, calls) == s
    decreases |calls|
  {
    if calls != [] {
      assert Step(s, calls[0]) == s;
      LoadMoreWithoutCursorIsNoOp(s, calls[1..]);
    }
  }

  /** The state after `loadMore` has been called once per page in `pages`,
      each call answered by that page. */
  function PageThrough(s: ViewState, pages: seq<Page>): ViewState
    decreases |pages|
  {
    if pages == [] then s else PageThrough(LoadMore(s, Success(pages[0])), pages[1..])
  }

  /** One `loadMore` answered with a page, while a truthy cursor is stored,
      appends that page and stores its cursor. */
  lemma LoadMoreAppendsPage(s: ViewState, page: Page)
    requires HasCursor(s.nextCursor)
    ensures LoadMore(s, Success(page)).entries == s.entries + page.entries
    ensures LoadMore(s, Success(page)).nextCursor == page.nextCursor
    ensures LoadMore(s, Success(page)).currentPath == s.currentPath
    ensures LoadMore(s, Success(page)).requests ==
      s.requests + [Request(s.currentPath, s.nextCursor, PageLimit)]
  {
  }

  /** Regrouping a concatenation, kept apart so that the paging proof below
      does not have to establish it element by element. */
  lemma AppendAssociative(a: seq<Entry>, b: seq<Entry>, c: seq<Entry>)
    ensures (a + b) + c == a + (b + c)
  {
  }

  /** Paging through a listing: while the server keeps returning a truthy
      cursor, each `loadMore` appends its page, so the entries become the old
      entries followed by every page in order. */
  lemma {:induction false} LoadMoreAppendsEveryPage(s: ViewState, pages: seq<Page>)
    requires HasCursor(s.nextCursor)
    requires forall i :: 0 <= i < |pages| - 1 ==> HasCursor(pages[i].nextCursor)
    ensures PageThrough(s, pages).entries == s.entries + Concat(pages)
    decreases |pages|
  {
    if pages == [] {
      assert s.entries + Concat(pages) == s.entries;
    } else {
      var t := LoadMore(s, Success(pages[0]));
      LoadMoreAppendsPage(s, pages[0]);
      assert PageThrough(s, pages) == PageThrough(t, pages[1..]);
      assert Concat(pages) == pages[0].entries + Concat(pages[1..]);
      if |pages| == 1 {
        assert pages[1..] == [];
        assert Concat(pages) == pages[0].entries + [];
      } else {
        LoadMoreAppendsEveryPage(t, pages[1..]);
        AppendAssociative(s.entries, pages[0].entries, Concat(pages[1..]));
      }
    }
  }

  /** After paging through a listing the stored cursor is the one the last
      page returned. */
  lemma {:induction false} LoadMoreKeepsLastCursor(s: ViewState, pages: seq<Page>)
    requires HasCursor(s.nextCursor)
    requires forall i :: 0 <= i < |pages| - 1 ==> HasCursor(pages[i].nextCursor)
    requires pages != []
    ensures PageThrough(s, pages).nextCursor == pages[|pages| - 1].nextCursor
    decreases |pages|
  {
    var t := LoadMore(s, Success(pages[0]));
    LoadMoreAppendsPage(s, pages[0]);
    if |pages| == 1 {
      assert PageThrough(s, pages) == t;
    } else {
      LoadMoreKeepsLastCursor(t, pages[1..]);
      assert pages[1..][|pages| - 2] == pages[|pages| - 1];
    }
  }

  /** The cursor the `k`-th request of a paging run carries: the stored one
      first, then the one each page returned. */
  function CursorBefore(s: ViewState, pages: seq<Page>, k: nat): Option<string>
    requires k <= |pages|
  {
    if k == 0 then s.nextCursor else pages[k - 1].nextCursor
  }

  /** Paging through a listing stays at the same path and sends one request
      per page, each for the current path with limit 300, carrying the
      stored cursor first and then the cursor the previous page returned. */
  lemma {:induction false} LoadMoreRequestsEveryPage(s: ViewState, pages: seq<Page>)
    requires HasCursor(s.nextCursor)
    requires forall i :: 0 <= i < |pages| - 1 ==> HasCursor(pages[i].nextCursor)
    ensures PageThrough(s, pages).currentPath == s.currentPath
    ensures |PageThrough(s, pages).requests| == |s.requests| + |pages|
    ensures s.requests <= PageThrough(s, pages).requests
    ensures forall i :: |s.requests| <= i < |PageThrough(s, pages).requests| ==>
      PageThrough(s, pages).requests[i] ==
        Request(s.currentPath, CursorBefore(s, pages, i - |s.requests|), PageLimit)
    decreases |pages|
  {
    if pages != [] {
      var t := LoadMore(s, Success(pages[0]));
      LoadMoreAppendsPage(s, pages[0]);
      var r := PageThrough(s, pages);
      assert r == PageThrough(t, pages[1..]);
      if |pages| == 1 {
        assert r == t;
      } else {
        LoadMoreRequestsEveryPage(t, pages[1..]);
        assert t.requests <= r.requests;
        assert s.requests <= t.requests;
        forall i | |s.requests| <= i < |r.requests|
          ensures r.requests[i] ==
            Request(s.currentPath, CursorBefore(s, pages, i - |s.requests|), PageLimit)
        {
          if i == |s.requests| {
            assert r.requests[i] == t.requests[i];
          } else {
            assert CursorBefore(t, pages[1..], i - |t.requests|) ==
              CursorBefore(s, pages, i - |s.requests|);
          }
        }
      }
    }
  }

  /** The unguarded race: a load begun at one path whose answer arrives after
      the user has entered another directory still replaces the listing, so
      the component shows the old directory's page under the new path. */
  lemma StaleAnswerOverwritesNewDirectory(s: ViewState, dir: Entry, page: Page, later: Outcome)
    requires dir.isDirectory && dir.path != s.currentPath
    ensures var req := RequestFor(s, None);
      var r := Complete(Enter(Begin(s, None), dir, later), req, Success(page));
      r.currentPath == dir.path && r.entries == page.entries && !Consistent(r)
  {
    var req := RequestFor(s, None);
    var r := Complete(Enter(Begin(s, None), dir, later), req, Success(page));
    assert Fetch(req, page) in r.session;
  }

  /** The same race during paging: the answer to a `loadMore` begun before
      `enter` is appended to the new directory's listing, and the old path's
      cursor is stored, so the next `loadMore` asks the new path for a page
      with the old path's cursor. */
  lemma StaleLoadMoreAppendsToNewDirectory(
    s: ViewState, dir: Entry, page: Page, later: Outcome, next: Outcome)
    requires HasCursor(s.nextCursor) && HasCursor(page.nextCursor)
    requires dir.isDirectory && dir.path != s.currentPath
    ensures var e := Enter(Begin(s, s.nextCursor), dir, later);
      var r := Complete(e, RequestFor(s, s.nextCursor), Success(page));
      r.currentPath == dir.path && r.entries == e.entries + page.entries &&
      r.nextCursor == page.nextCursor && !Consistent(r) &&
      LoadMore(r, next).requests == r.requests + [Request(dir.path, page.nextCursor, PageLimit)]
  {
    var req := RequestFor(s, s.nextCursor);
    var e := Enter(Begin(s, s.nextCursor), dir, later);
    var r := Complete(e, req, Success(page));
    assert Fetch(req, page) in r.session;
  }
}
