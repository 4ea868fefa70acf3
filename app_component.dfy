/** The view component itself (src/app/app.component.ts): four fields that
    its methods assign in place. The service call is not made here: each
    method that loads receives the service's answer as a parameter. */
module App {
  import opened Wrappers
  import opened Directory
  import Browser

  class AppComponent {
    var currentPath: string
    var entries: seq<Entry>
    var loading: bool
    var nextCursor: Option<string>

    /** Every request sent to the service, oldest first. */
    ghost var requests: seq<Request>
    /** Every alert shown to the user, oldest first. */
    ghost var alerts: seq<string>
    /** The pages fetched since the listing was last started afresh. */
    ghost var session: seq<Fetch>

    ghost function State(): Browser.ViewState
      reads this
    {
      Browser.ViewState(currentPath, entries, loading, nextCursor, requests, alerts, session)
    }

    /** A new component is at "/", with no entries, not loading, no cursor. */
    constructor ()
      ensures currentPath == "/" && entries == [] && !loading && nextCursor == None
      ensures requests == [] && alerts == []
      ensures State() == Browser.Initial() && Browser.Consistent(State())
    {
      currentPath := "/";
      entries := [];
      loading := false;
      nextCursor := None;
      requests := [];
      alerts := [];
      session := [];
    }

    method NgOnInit(outcome: Outcome)
      modifies this
      ensures requests == old(requests) + [Request(old(currentPath), None, Browser.PageLimit)]
      ensures State() == Browser.OnInit(old(State()), outcome)
      ensures Browser.Consistent(old(State())) ==> Browser.Consistent(State())
    {
      Load(None, outcome);
    }

    /** The part of `load` before the `await`: raise the flag and send the
        request for the current path; `req` is what was sent. */
    method BeginLoad(cursor: Option<string>) returns (req: Request)
      modifies this
      ensures req == Request(old(currentPath), cursor, Browser.PageLimit)
      ensures loading && requests == old(requests) + [req]
      ensures State() == Browser.Begin(old(State()), cursor)
    {
      loading := true;
      req := Request(currentPath, cursor, Browser.PageLimit);
      requests := requests + [req];
    }

    /** The part of `load` after the `await`, once `req` has been answered. */
    method CompleteLoad(req: Request, outcome: Outcome)
      modifies this
      ensures !loading && currentPath == old(currentPath)
      ensures State() == Browser.Complete(old(State()), req, outcome)
    {
      match outcome {
        case Success(page) =>
          if !Browser.HasCursor(req.cursor) {
            entries := page.entries;
            session := [Fetch(req, page)];
          } else {
            entries := entries + page.entries;
            session := session + [Fetch(req, page)];
          }
          nextCursor := page.nextCursor;
        case Failure(err) =>
          alerts := alerts + [Browser.ErrorPrefix + err];
      }
      loading := false;
    }

    method Load(cursor: Option<string>, outcome: Outcome)
      modifies this
      ensures requests == old(requests) + [Request(old(currentPath), cursor, Browser.PageLimit)]
      ensures !loading && currentPath == old(currentPath)
      ensures outcome.Failure? ==> entries == old(entries) && nextCursor == old(nextCursor)
      ensures State() == Browser.Load(old(State()), cursor, outcome)
      ensures Browser.Consistent(old(State())) ==> Browser.Consistent(State())
    {
      ghost var before := State();
      var req := BeginLoad(cursor);
      CompleteLoad(req, outcome);
      if Browser.Consistent(before) {
        Browser.LoadPreservesConsistent(before, cursor, outcome);
      }
    }

    method Enter(entry: Entry, outcome: Outcome)
      modifies this
      ensures !entry.isDirectory ==> State() == old(State())
      ensures entry.isDirectory ==>
        currentPath == entry.path &&
        requests == old(requests) + [Request(entry.path, None, Browser.PageLimit)]
      ensures State() == Browser.Enter(old(State()), entry, outcome)
      ensures Browser.Consistent(old(State())) ==> Browser.Consistent(State())
    {
      ghost var before := State();
      if Browser.Consistent(before) {
        Browser.StepPreservesConsistent(before, Browser.EnterCall(entry, outcome));
      }
      if !entry.isDirectory {
        return;
      }
      currentPath := entry.path;
      nextCursor := None;
      entries := [];
      session := [];
      Load(None, outcome);
    }

    method LoadMore(outcome: Outcome)
      modifies this
      ensures !Browser.HasCursor(old(nextCursor)) ==> State() == old(State())
      ensures Browser.HasCursor(old(nextCursor)) ==>
        requests == old(requests) + [Request(old(currentPath), old(nextCursor), Browser.PageLimit)]
      ensures State() == Browser.LoadMore(old(State()), outcome)
      ensures Browser.Consistent(old(State())) ==> Browser.Consistent(State())
    {
      ghost var before := State();
      if Browser.Consistent(before) {
        Browser.StepPreservesConsistent(before, Browser.LoadMoreCall(outcome));
      }
      if Browser.HasCursor(nextCursor) {
        Load(nextCursor, outcome);
      }
    }
  }
}
