/** The scraper demo (`app/routes/scraper.py`): the start/stop/status
    controls acting on the `(running, results)` pair, and the scripted run,
    stepped one progress entry at a time so that control requests can be
    interleaved with it. */
module Scraper {
  import opened Common
  import opened Seqs
  import opened Users
  import opened Posts
  import opened AccessLogs
  import opened Database
  import Admin

  // ---- progress entries -------------------------------------------------

  datatype Status = InProgress | Complete | Error

  /** The `data_collected` text of an entry, kept structured; `Describe`
      renders it the way the run formats it. */
  datatype Collected =
    | FoundUsers(users: nat)
    | FoundPosts(posts: nat, privatePosts: nat)
    | FoundDeleted(deleted: nat)
    | CollectedDetails(username: string)
    | ErrorText(text: string)
    | AllComplete

  function Describe(c: Collected): (r: string)
    ensures c.ErrorText? ==> r == c.text
  {
    match c
    case FoundUsers(n) => "Found " + NatToString(n) + " users with emails and privacy settings"
    case FoundPosts(n, k) => "Found " + NatToString(n) + " posts including " + NatToString(k) + " private ones"
    case FoundDeleted(n) => "Found " + NatToString(n) + " deleted posts that should be inaccessible"
    case CollectedDetails(name) => "Collected private details for " + name
    case ErrorText(text) => text
    case AllComplete => "All data collection complete"
  }

  /** What an entry is about; `ActionText`, `Url` and `LeakNote` give the
      `action`, `url` and `leak_type` strings the run writes for it. */
  datatype Task =
    | UsersTask
    | PostsTask
    | DeletedTask
    | DetailTask(username: string, userId: nat)
    | ErrorTask
    | FinishTask

  function ActionText(t: Task): string {
    match t
    case UsersTask => "Scraping all users"
    case PostsTask => "Scraping all posts"
    case DeletedTask => "Scraping deleted posts"
    case DetailTask(name, _) => "Scraping detailed info for user " + name
    case ErrorTask => "Error in scraper"
    case FinishTask => "Scraper finished"
  }

  /** The API endpoint a scraping step imitates; the error and finished
      entries have none. */
  function Url(t: Task): (r: Option<string>)
    ensures r.None? <==> t.ErrorTask? || t.FinishTask?
    ensures t.DetailTask? ==> r == Some(DetailLog(t.userId).endpoint)
  {
    match t
    case UsersTask => Some("/api/users")
    case PostsTask => Some("/api/posts")
    case DeletedTask => Some("/api/posts/all")
    case DetailTask(_, id) => Some("/api/users/" + NatToString(id))
    case ErrorTask => None
    case FinishTask => None
  }

  /** The leak description of a scraping step; an entry carries
      `privacy_leak: True` exactly when it has one. */
  function LeakNote(t: Task): (r: Option<string>)
    ensures r.None? <==> t.ErrorTask? || t.FinishTask?
  {
    match t
    case UsersTask => Some("API endpoint leaks private email addresses")
    case PostsTask => Some("API endpoint leaks private posts")
    case DeletedTask => Some("API endpoint leaks deleted posts")
    case DetailTask(_, _) => Some("API endpoint leaks detailed user information")
    case ErrorTask => None
    case FinishTask => None
  }

  /** One element of `scraper_results`. */
  datatype Entry = Entry(timestamp: nat, task: Task, status: Status, collected: Option<Collected>)

  /** The entry as the status route serialises it. */
  function EntryToDict(e: Entry): (d: Dict)
    ensures "timestamp" in d && "action" in d && "status" in d
    ensures ("url" in d) <==> Url(e.task).Some?
    ensures ("privacy_leak" in d) <==> LeakNote(e.task).Some?
    ensures ("leak_type" in d) <==> LeakNote(e.task).Some?
    ensures ("data_collected" in d) <==> e.collected.Some?
    ensures "privacy_leak" in d ==> d["privacy_leak"] == Bool(true)
    ensures d["action"] == Str(ActionText(e.task))
  {
    var base := map["timestamp" := Time(e.timestamp), "action" := Str(ActionText(e.task)),
                    "status" := Str(StatusText(e.status))];
    var withUrl := if Url(e.task).Some? then base["url" := Str(Url(e.task).value)] else base;
    var withLeak := if LeakNote(e.task).Some?
                    then withUrl["privacy_leak" := Bool(true)]["leak_type" := Str(LeakNote(e.task).value)]
                    else withUrl;
    if e.collected.Some? then withLeak["data_collected" := Str(Describe(e.collected.value))] else withLeak
  }

  function StatusText(st: Status): string {
    match st
    case InProgress => "In progress"
    case Complete => "Complete"
    case Error => "Error"
  }

  /** The module-level `scraper_running` and `scraper_results`. */
  datatype Control = Control(running: bool, results: seq<Entry>)

  /** A control request's answer, with the control state and store it leaves. */
  datatype Reply<T> = Reply(out: Result<T>, control: Control, store: Store)

  /** The leak tag of the run's own audit rows. */
  const ScraperLeakType := "Unauthorized access to private user data"
  const ScraperAddress := "scraper-simulation"
  const ScraperAgent := "Scraper/1.0"

  /** `str(e)` of the two exceptions the run can meet: a post whose author row
      is gone, and a visited user whose row is gone. */
  const MissingAuthor := "'NoneType' object has no attribute 'username'"
  const MissingUser := "'NoneType' object has no attribute 'id'"

  function UsersEntry(now: nat, n: nat): Entry {
    Entry(now, UsersTask, Complete, Some(FoundUsers(n)))
  }

  function PostsStarted(now: nat): Entry {
    Entry(now, PostsTask, InProgress, None)
  }

  function PostsEntry(now: nat, n: nat, privatePosts: nat): Entry {
    Entry(now, PostsTask, Complete, Some(FoundPosts(n, privatePosts)))
  }

  function DeletedStarted(now: nat): Entry {
    Entry(now, DeletedTask, InProgress, None)
  }

  function DeletedEntry(now: nat, n: nat): Entry {
    Entry(now, DeletedTask, Complete, Some(FoundDeleted(n)))
  }

  function DetailStarted(now: nat, u: User): Entry {
    Entry(now, DetailTask(u.username, u.id), InProgress, None)
  }

  function DetailEntry(now: nat, u: User): Entry {
    Entry(now, DetailTask(u.username, u.id), Complete, Some(CollectedDetails(u.username)))
  }

  function ErrorEntry(now: nat, text: string): Entry {
    Entry(now, ErrorTask, Error, Some(ErrorText(text)))
  }

  function FinishedEntry(now: nat): Entry {
    Entry(now, FinishTask, Complete, Some(AllComplete))
  }

  /** The completed detail entries for the visited users, in order. */
  function DetailEntries(now: nat, us: seq<User>): (r: seq<Entry>)
    ensures |r| == |us|
    ensures forall k :: 0 <= k < |us| ==> r[k] == DetailEntry(now, us[k])
  {
    if |us| == 0 then [] else [DetailEntry(now, us[0])] + DetailEntries(now, us[1..])
  }

  /** The audit row the run writes for each visited user: anonymous, from the
      scraper's address, flagged with a tag outside the API's vocabulary. */
  function DetailLog(userId: nat): (l: AccessLog)
    ensures l.endpoint == "/api/users/" + NatToString(userId) && l.httpMethod == "GET"
    ensures l.userId.None? && l.ipAddress == ScraperAddress && l.userAgent == ScraperAgent
    ensures l.accessedData == map["action" := Str("get_user_details"), "user_id" := Int(userId)]
    ensures l.isPrivacyLeak && l.leakType == Some(ScraperLeakType)
    ensures l.leakType.value !in ApiLeakTypes
  {
    NewAccessLog("/api/users/" + NatToString(userId), "GET", ScraperAddress, ScraperAgent,
                 map["action" := Str("get_user_details"), "user_id" := Int(userId)],
                 None, true, Some(ScraperLeakType))
  }

  // ---- control requests -------------------------------------------------

  /** POST /scraper/start: refused to non-admins and while running; otherwise
      the results are cleared, the flag is raised and one row is audited. */
  function Start(c: Control, s: Store, req: Request): (r: Reply<()>)
    ensures Admin.AdminGate(s, req).Err? ==> r == Reply(Err(Admin.AdminGate(s, req).failure), c, s)
    ensures Admin.AdminGate(s, req).Ok? && c.running ==> r == Reply(Err(AlreadyRunning), c, s)
    ensures Admin.AdminGate(s, req).Ok? && !c.running ==>
      && r.out.Ok?
      && r.control == Control(true, [])
      && AppendedOneLog(s, r.store)
      && Logged(Newest(r.store), "/scraper/start", "POST", Some(Admin.AdminGate(s, req).value.id),
                map["action" := Str("start_scraper")], false, None)
      && StampedBy(Newest(r.store), req)
    ensures Valid(s) ==> Valid(r.store)
  {
    match Admin.AdminGate(s, req)
    case Err(f) => Reply(Err(f), c, s)
    case Ok(me) =>
      if c.running then Reply(Err(AlreadyRunning), c, s)
      else Reply(Ok(()), Control(true, []),
                 Audit(s, req, "/scraper/start", "POST", Some(me.id), map["action" := Str("start_scraper")]))
  }

  /** POST /scraper/stop: refused to non-admins and when not running;
      otherwise the flag is lowered, the results kept, and one row audited. */
  function Stop(c: Control, s: Store, req: Request): (r: Reply<()>)
    ensures Admin.AdminGate(s, req).Err? ==> r == Reply(Err(Admin.AdminGate(s, req).failure), c, s)
    ensures Admin.AdminGate(s, req).Ok? && !c.running ==> r == Reply(Err(NotRunning), c, s)
    ensures Admin.AdminGate(s, req).Ok? && c.running ==>
      && r.out.Ok?
      && r.control == Control(false, c.results)
      && AppendedOneLog(s, r.store)
      && Logged(Newest(r.store), "/scraper/stop", "POST", Some(Admin.AdminGate(s, req).value.id),
                map["action" := Str("stop_scraper")], false, None)
      && StampedBy(Newest(r.store), req)
    ensures r.store.users == s.users && r.store.posts == s.posts
    ensures Valid(s) ==> Valid(r.store)
  {
    match Admin.AdminGate(s, req)
    case Err(f) => Reply(Err(f), c, s)
    case Ok(me) =>
      if !c.running then Reply(Err(NotRunning), c, s)
      else Reply(Ok(()), Control(false, c.results),
                 Audit(s, req, "/scraper/stop", "POST", Some(me.id), map["action" := Str("stop_scraper")]))
  }

  /** GET /scraper/status: the flag and the results, to admins only; read-only. */
  function StatusOf(c: Control, s: Store, req: Request): (r: Reply<Control>)
    ensures r.control == c && r.store == s
    ensures r.out.Ok? <==> Admin.AdminGate(s, req).Ok?
    ensures r.out.Ok? ==> r.out.value == c
  {
    match Admin.AdminGate(s, req)
    case Err(f) => Reply(Err(f), c, s)
    case Ok(_) => Reply(Ok(c), c, s)
  }

  /** A second start, by anyone, fails while the first run is marked running. */
  lemma StartTwiceFails(c: Control, s: Store, req1: Request, req2: Request)
    requires Start(c, s, req1).out.Ok?
    ensures var r1 := Start(c, s, req1);
            Start(r1.control, r1.store, req2).out.Err?
            && Start(r1.control, r1.store, req2).control == r1.control
            && Start(r1.control, r1.store, req2).store == r1.store
  {
  }

  // ---- the scripted run -------------------------------------------------

  /** Where the run is. The snapshot of users taken in the first step is
      carried along, since the detail step iterates over it. */
  datatype Phase =
    | Begin
    | ScrapeUsers
    | ScrapePosts(users: seq<User>)
    | ScrapeDeleted(users: seq<User>)
    | ScrapeDetail(users: seq<User>, next: nat)
    | Finish
    | Done

  /** How far the run is from `Done`; every step lowers it. */
  function Rank(ph: Phase): nat {
    match ph
    case Begin => 9
    case ScrapeUsers => 8
    case ScrapePosts(_) => 7
    case ScrapeDeleted(_) => 6
    case ScrapeDetail(_, k) => if k <= 3 then 5 - k else 2
    case Finish => 1
    case Done => 0
  }

  datatype Config = Config(phase: Phase, control: Control, store: Store)

  /** Some post in `ps` has no author row, so reading its author's name raises. */
  predicate HasOrphan(users: seq<User>, ps: seq<Post>) {
    exists p | p in ps :: Orphan(users, p)
  }

  /** No user row carries the post's author id (`AuthorOf` is `None`). */
  predicate Orphan(users: seq<User>, p: Post) {
    forall u | u in users :: u.id != p.userId
  }

  /** The `except` branch: the step's in-progress entry stays, an error
      entry follows, and the run moves to its `finally`. */
  function Failed(g: Config, started: Entry, text: string, now: nat): (r: Config)
    requires Rank(g.phase) > Rank(Finish)
    ensures Advances(g, r)
    ensures r.phase == Finish && r.store == g.store && r.control.running == g.control.running
    ensures r.control.results == g.control.results + [started, ErrorEntry(now, text)]
  {
    Config(Finish, g.control.(results := g.control.results + [started, ErrorEntry(now, text)]), g.store)
  }

  /** A step that went through: its entry is appended and the run moves on. */
  function Appended(g: Config, entry: Entry, next: Phase): (r: Config)
    requires Rank(next) < Rank(g.phase) && !next.Done? && !g.phase.Finish?
    ensures Advances(g, r)
    ensures r.phase == next && r.store == g.store && r.control.running == g.control.running
    ensures r.control.results == g.control.results + [entry]
  {
    Config(next, g.control.(results := g.control.results + [entry]), g.store)
  }

  /** `sum(1 for p in post_data if not p["is_public"])`. */
  function PrivateCount(ps: seq<Post>): (n: nat)
    ensures n == CountWhere(ps, IsPrivate)
  {
    FilterLengthIsCount(ps, IsPrivate);
    |Filter(ps, IsPrivate)|
  }

  /** `len([p for p in all_post_data if p['is_deleted']])`. */
  function DeletedCount(ps: seq<Post>): (n: nat)
    ensures n == CountWhere(ps, IsDeleted)
  {
    FilterLengthIsCount(ps, IsDeleted);
    |Filter(ps, IsDeleted)|
  }

  /** How a bulk scraping step ends once its rows are read: `orphan` raises in
      the `except` branch, otherwise `entry` is recorded and the run moves on. */
  function Outcome(g: Config, orphan: bool, started: Entry, entry: Entry, now: nat): (r: Config)
    requires g.phase.ScrapePosts? || g.phase.ScrapeDeleted?
    ensures Advances(g, r)
    ensures r.store == g.store
    ensures r.phase == if orphan then Finish
                       else if g.phase.ScrapePosts? then ScrapeDeleted(g.phase.users)
                       else ScrapeDetail(g.phase.users, 0)
    ensures r.control == g.control.(results := g.control.results + if orphan then [started, ErrorEntry(now, MissingAuthor)] else [entry])
  {
    if orphan then Failed(g, started, MissingAuthor, now)
    else if g.phase.ScrapePosts? then Appended(g, entry, ScrapeDeleted(g.phase.users))
    else Appended(g, entry, ScrapeDetail(g.phase.users, 0))
  }

  /** The second step: every live post, private ones included; counts the
      private ones among them. */
  function StepPosts(g: Config, users: seq<User>, now: nat): (r: Config)
    requires g.phase == ScrapePosts(users)
    ensures Advances(g, r)
    ensures r.store == g.store
    ensures r.phase == Finish || r.phase == ScrapeDeleted(users)
  {
    var live := Filter(g.store.posts, IsLive);
    Outcome(g, HasOrphan(g.store.users, live), PostsStarted(now), PostsEntry(now, |live|, PrivateCount(live)), now)
  }

  /** The third step: every post row; counts the soft-deleted ones. */
  function StepDeleted(g: Config, users: seq<User>, now: nat): (r: Config)
    requires g.phase == ScrapeDeleted(users)
    ensures Advances(g, r)
    ensures r.store == g.store
    ensures r.phase == Finish || r.phase == ScrapeDetail(users, 0)
  {
    Outcome(g, HasOrphan(g.store.users, g.store.posts), DeletedStarted(now), DeletedEntry(now, DeletedCount(g.store.posts)), now)
  }

  /** One pass of the fourth step's loop over the first three users of the
      snapshot: one leak row and one entry per user. */
  function StepDetail(g: Config, users: seq<User>, k: nat, now: nat): (r: Config)
    requires g.phase == ScrapeDetail(users, k)
    ensures Advances(g, r)
    ensures r.phase == Finish || (k < |Take(users, 3)| && r.phase == ScrapeDetail(users, k + 1))
  {
    var visit := Take(users, 3);
    if k >= |visit| then Config(Finish, g.control, g.store)
    else
      var u := visit[k];
      if FindUser(g.store.users, u.id).None? then Failed(g, DetailStarted(now, u), MissingUser, now)
      else
        Config(ScrapeDetail(users, k + 1), g.control.(results := g.control.results + [DetailEntry(now, u)]),
               InsertLog(g.store, DetailLog(u.id), now))
  }

  /** What every step guarantees: the run gets closer to `Done`, which only
      the `finally` reaches; the user and post tables are untouched and row
      ids stay distinct; past the reset, the entries so far are kept. */
  ghost predicate Advances(g: Config, r: Config) {
    && Rank(r.phase) < Rank(g.phase)
    && (r.phase.Done? <==> g.phase.Finish?)
    && r.store.users == g.store.users && r.store.posts == g.store.posts
    && (Valid(g.store) ==> Valid(r.store))
    && (!g.phase.Begin? ==> g.control.results <= r.control.results)
  }

  /** One step of the run: the reset, one scraping step, or the `finally`. */
  function Step(g: Config, now: nat): (r: Config)
    requires !g.phase.Done?
    ensures Advances(g, r)
    ensures g.phase.Finish? ==> r.control == Control(false, g.control.results + [FinishedEntry(now)])
  {
    match g.phase
    case Begin => Config(ScrapeUsers, Control(true, []), g.store)
    case ScrapeUsers =>
      Config(ScrapePosts(g.store.users), g.control.(results := g.control.results + [UsersEntry(now, |g.store.users|)]), g.store)
    case ScrapePosts(users) => StepPosts(g, users, now)
    case ScrapeDeleted(users) => StepDeleted(g, users, now)
    case ScrapeDetail(users, k) => StepDetail(g, users, k, now)
    case Finish => Config(Done, Control(false, g.control.results + [FinishedEntry(now)]), g.store)
  }

  /** Runs the remaining steps. Whatever happens on the way, the run ends
      with the flag lowered and a finished entry. */
  function Drive(g: Config, now: nat): (r: Config)
    ensures r.phase.Done?
    ensures r.store.users == g.store.users && r.store.posts == g.store.posts
    ensures Valid(g.store) ==> Valid(r.store)
    ensures !g.phase.Done? ==> !r.control.running && |r.control.results| > 0
                               && r.control.results[|r.control.results| - 1] == FinishedEntry(now)
    ensures !g.phase.Begin? ==>
      g.control.results <= r.control.results
    decreases Rank(g.phase)
  {
    if g.phase.Done? then g else Drive(Step(g, now), now)
  }

  /** `run_scraper` from its first line to the end of its `finally`. */
  function Run(c: Control, s: Store, now: nat): (r: Config)
    ensures r.phase.Done? && !r.control.running
    ensures |r.control.results| > 0 && r.control.results[|r.control.results| - 1] == FinishedEntry(now)
    ensures r.store.users == s.users && r.store.posts == s.posts
    ensures Valid(s) ==> Valid(r.store)
  {
    Drive(Config(Begin, c, s), now)
  }

  /** Drives the run while stop requests arrive: before each step, the next
      scheduled request (if any) is served by `Stop`. */
  function Interleave(g: Config, now: nat, stops: seq<Option<Request>>): (r: Config)
    ensures r.phase.Done?
    ensures r.store.users == g.store.users && r.store.posts == g.store.posts
    ensures !g.phase.Done? ==> !r.control.running && |r.control.results| > 0
                               && r.control.results[|r.control.results| - 1] == FinishedEntry(now)
    decreases Rank(g.phase)
  {
    if g.phase.Done? then g
    else
      var g1 := if |stops| > 0 && stops[0].Some?
                then var rep := Stop(g.control, g.store, stops[0].value); Config(g.phase, rep.control, rep.store)
                else g;
      Interleave(Step(g1, now), now, if |stops| > 0 then stops[1..] else [])
  }

  /** Two configurations the run cannot tell apart: it never reads the flag
      or the log table. */
  predicate Agree(g1: Config, g2: Config) {
    && g1.phase == g2.phase
    && g1.control.results == g2.control.results
    && g1.store.users == g2.store.users
    && g1.store.posts == g2.store.posts
  }

  lemma StepAgree(g1: Config, g2: Config, now: nat)
    requires Agree(g1, g2) && !g1.phase.Done?
    ensures Agree(Step(g1, now), Step(g2, now))
    ensures g1.phase.Finish? ==> Step(g1, now).control == Step(g2, now).control
  {
  }

  lemma {:induction false} DriveAgree(g1: Config, g2: Config, now: nat)
    requires Agree(g1, g2)
    ensures Agree(Drive(g1, now), Drive(g2, now))
    ensures !g1.phase.Done? ==> Drive(g1, now).control == Drive(g2, now).control
    decreases Rank(g1.phase)
  {
    if !g1.phase.Done? {
      StepAgree(g1, g2, now);
      DriveAgree(Step(g1, now), Step(g2, now), now);
    }
  }

  /** The run never rereads the flag, so stop requests arriving during it
      do not shorten it: the entries and the final flag are those of the
      undisturbed run. */
  lemma {:induction false} StopDoesNotShortenRun(g: Config, now: nat, stops: seq<Option<Request>>)
    ensures Agree(Interleave(g, now, stops), Drive(g, now))
    ensures !g.phase.Done? ==> Interleave(g, now, stops).control == Drive(g, now).control
    decreases Rank(g.phase)
  {
    if !g.phase.Done? {
      var g1 := if |stops| > 0 && stops[0].Some?
                then var rep := Stop(g.control, g.store, stops[0].value); Config(g.phase, rep.control, rep.store)
                else g;
      var rest := if |stops| > 0 then stops[1..] else [];
      StopDoesNotShortenRun(Step(g1, now), now, rest);
      StepAgree(g1, g, now);
      DriveAgree(Step(g1, now), Step(g, now), now);
    }
  }

  /** Of what a step appends, only the entry just before the move to
      `finally` can be an error. */
  ghost predicate AppendsCleanly(g: Config, r: Config) {
    var rs := g.control.results;
    var rs1 := r.control.results;
    && (forall k :: |rs| <= k < |rs1| - 1 ==> rs1[k].status != Error)
    && (!r.phase.Finish? ==> forall k :: |rs| <= k < |rs1| ==> rs1[k].status != Error)
  }

  /** Past the reset, what a step appends holds an error only right before
      the move to `finally`. */
  lemma StepAppends(g: Config, now: nat)
    requires !g.phase.Done? && !g.phase.Begin? && !g.phase.Finish?
    ensures AppendsCleanly(g, Step(g, now))
  {
    match g.phase
    case ScrapeUsers =>
    case ScrapePosts(users) =>
      var live := Filter(g.store.posts, IsLive);
      OutcomeClean(g, HasOrphan(g.store.users, live), PostsStarted(now), PostsEntry(now, |live|, PrivateCount(live)), now);
    case ScrapeDeleted(users) =>
      OutcomeClean(g, HasOrphan(g.store.users, g.store.posts), DeletedStarted(now),
                   DeletedEntry(now, DeletedCount(g.store.posts)), now);
    case ScrapeDetail(users, k) =>
      DetailClean(g, users, k, now);
  }

  lemma OutcomeClean(g: Config, orphan: bool, started: Entry, entry: Entry, now: nat)
    requires g.phase.ScrapePosts? || g.phase.ScrapeDeleted?
    requires started.status != Error && entry.status != Error
    ensures AppendsCleanly(g, Outcome(g, orphan, started, entry, now))
  {
  }

  lemma DetailClean(g: Config, users: seq<User>, k: nat, now: nat)
    requires g.phase == ScrapeDetail(users, k)
    ensures AppendsCleanly(g, StepDetail(g, users, k, now))
  {
  }

  /** An error entry can only be the one just before the finished entry:
      nothing the run appends earlier is an error. */
  lemma {:induction false} DriveErrorsOnlyAtEnd(g: Config, now: nat)
    requires !g.phase.Done? && !g.phase.Finish?
    ensures var rs := Drive(g, now).control.results;
            forall k :: |g.control.results| <= k < |rs| - 2 ==> rs[k].status != Error
    decreases Rank(g.phase)
  {
    var g1 := Step(g, now);
    assert Drive(g, now) == Drive(g1, now);
    if g.phase.Begin? {
      DriveErrorsOnlyAtEnd(g1, now);
    } else {
      StepAppends(g, now);
      if g1.phase.Finish? {
        assert Drive(g1, now) == Drive(Step(g1, now), now) == Step(g1, now);
      } else {
        DriveErrorsOnlyAtEnd(g1, now);
        var rs := Drive(g, now).control.results;
        forall k | |g.control.results| <= k < |g1.control.results|
          ensures rs[k] == g1.control.results[k]
        {
          assert g1.control.results <= rs;
        }
      }
    }
  }

  /** A whole run holds at most one error entry, and only right before the
      finished entry. */
  lemma RunErrorsOnlyAtEnd(c: Control, s: Store, now: nat)
    ensures var rs := Run(c, s, now).control.results;
            forall k :: 0 <= k < |rs| - 2 ==> rs[k].status != Error
  {
    var g1 := Step(Config(Begin, c, s), now);
    assert Run(c, s, now) == Drive(g1, now);
    DriveErrorsOnlyAtEnd(g1, now);
  }

  /** Every post row has its author row. */
  ghost predicate PostsHaveAuthors(s: Store) {
    forall p :: p in s.posts ==> AuthorOf(s.users, p).Some?
  }

  /** `logs` are the run's leak rows for the users `visit`, in order, stamped `now`. */
  ghost predicate ScraperLogs(logs: seq<AccessLog>, visit: seq<User>, now: nat) {
    && |logs| == |visit|
    && forall j :: 0 <= j < |visit| ==>
         && Logged(logs[j], "/api/users/" + NatToString(visit[j].id), "GET", None,
                   map["action" := Str("get_user_details"), "user_id" := Int(visit[j].id)], true, Some(ScraperLeakType))
         && logs[j].timestamp == now
  }

  lemma ConsScraperLogs(row: AccessLog, logs: seq<AccessLog>, u: User, visit: seq<User>, now: nat)
    requires ScraperLogs(logs, visit, now)
    requires row == DetailLog(u.id).(id := row.id, timestamp := now)
    ensures ScraperLogs([row] + logs, [u] + visit, now)
  {
    var all := [row] + logs;
    var us := [u] + visit;
    forall j | 1 <= j < |us|
      ensures all[j] == logs[j - 1] && us[j] == visit[j - 1]
    {
    }
  }

  /** One pass of the detail loop on a user that still exists. */
  lemma DetailVisit(g: Config, now: nat)
    requires g.phase.ScrapeDetail? && g.phase.next < |Take(g.phase.users, 3)|
    requires Take(g.phase.users, 3)[g.phase.next] in g.store.users
    ensures
      var u := Take(g.phase.users, 3)[g.phase.next];
      Step(g, now) == Config(ScrapeDetail(g.phase.users, g.phase.next + 1),
                             g.control.(results := g.control.results + [DetailEntry(now, u)]),
                             InsertLog(g.store, DetailLog(u.id), now))
  {
  }

  /** How the rest of a run from a detail step ends: one entry per user in
      `visit`, then the finished entry; the log table gains exactly their
      leak rows, in order. */
  ghost predicate DetailOutcome(g: Config, r: Config, visit: seq<User>, now: nat) {
    && r.control.results == g.control.results + DetailEntries(now, visit) + [FinishedEntry(now)]
    && |g.store.logs| <= |r.store.logs|
    && r.store.logs[..|g.store.logs|] == g.store.logs
    && ScraperLogs(r.store.logs[|g.store.logs|..], visit, now)
  }

  /** The detail loop, from visit `k` on, when every visited user still exists. */
  lemma {:induction false} DetailLoop(g: Config, now: nat)
    requires g.phase.ScrapeDetail? && g.phase.next <= |Take(g.phase.users, 3)|
    requires forall u :: u in Take(g.phase.users, 3) ==> u in g.store.users
    ensures DetailOutcome(g, Drive(g, now), Take(g.phase.users, 3)[g.phase.next..], now)
    decreases |Take(g.phase.users, 3)| - g.phase.next
  {
    if g.phase.next < |Take(g.phase.users, 3)| {
      DetailVisit(g, now);
      DetailLoop(Step(g, now), now);
      DetailCase(g, now);
    } else {
      DetailEnd(g, now);
    }
  }

  /** The loop's last check: with no user left to visit the run goes to its
      `finally`. */
  lemma DetailEnd(g: Config, now: nat)
    requires g.phase.ScrapeDetail? && g.phase.next == |Take(g.phase.users, 3)|
    ensures DetailOutcome(g, Drive(g, now), Take(g.phase.users, 3)[g.phase.next..], now)
  {
    var g1 := Step(g, now);
    assert g1 == Config(Finish, g.control, g.store);
    assert Drive(g, now) == Drive(g1, now) == Drive(Step(g1, now), now) == Step(g1, now);
  }

  /** One visit, then the rest of the loop. */
  lemma DetailCase(g: Config, now: nat)
    requires g.phase.ScrapeDetail? && g.phase.next < |Take(g.phase.users, 3)|
    requires Take(g.phase.users, 3)[g.phase.next] in g.store.users
    requires DetailOutcome(Step(g, now), Drive(Step(g, now), now), Take(g.phase.users, 3)[g.phase.next + 1..], now)
    ensures DetailOutcome(g, Drive(g, now), Take(g.phase.users, 3)[g.phase.next..], now)
  {
    var all := Take(g.phase.users, 3);
    var k := g.phase.next;
    var u := all[k];
    var g1 := Step(g, now);
    DetailVisit(g, now);
    DriveStep(g, now);
    DropCons(all, k);
    DetailGlue(g, g1, Drive(g1, now), u, all[k + 1..], now);
  }

  /** One visit followed by the rest of the loop is the loop from that visit. */
  lemma DetailGlue(g: Config, g1: Config, r: Config, u: User, rest: seq<User>, now: nat)
    requires g1.control.results == g.control.results + [DetailEntry(now, u)]
    requires g1.store == InsertLog(g.store, DetailLog(u.id), now)
    requires DetailOutcome(g1, r, rest, now)
    ensures DetailOutcome(g, r, [u] + rest, now)
  {
    var n := |g.store.logs|;
    LogsGlue(g.store.logs, g1.store.logs[n], r.store.logs, u, rest, now);
    EntriesGlue(g.control.results, r.control.results, u, rest, now);
  }

  lemma LogsGlue(prefix: seq<AccessLog>, row: AccessLog, logs: seq<AccessLog>, u: User, rest: seq<User>, now: nat)
    requires |prefix| + 1 <= |logs| && logs[..|prefix| + 1] == prefix + [row]
    requires ScraperLogs(logs[|prefix| + 1..], rest, now)
    requires row == DetailLog(u.id).(id := row.id, timestamp := now)
    ensures logs[..|prefix|] == prefix
    ensures ScraperLogs(logs[|prefix|..], [u] + rest, now)
  {
    var n := |prefix|;
    assert logs[..n] == logs[..n + 1][..n];
    assert logs[n] == logs[..n + 1][n];
    assert logs[n..] == [row] + logs[n + 1..];
    ConsScraperLogs(row, logs[n + 1..], u, rest, now);
  }

  lemma EntriesGlue(prefix: seq<Entry>, rs: seq<Entry>, u: User, rest: seq<User>, now: nat)
    requires rs == prefix + [DetailEntry(now, u)] + DetailEntries(now, rest) + [FinishedEntry(now)]
    ensures rs == prefix + DetailEntries(now, [u] + rest) + [FinishedEntry(now)]
  {
    DetailEntriesCons(now, u, rest);
    RegroupSingle(prefix, DetailEntry(now, u), DetailEntries(now, rest), FinishedEntry(now));
  }

  lemma RegroupSingle<T>(prefix: seq<T>, a: T, mid: seq<T>, last: T)
    ensures prefix + [a] + mid + [last] == prefix + ([a] + mid) + [last]
  {
  }

  lemma DetailEntriesCons(now: nat, u: User, rest: seq<User>)
    ensures DetailEntries(now, [u] + rest) == [DetailEntry(now, u)] + DetailEntries(now, rest)
  {
    var us := [u] + rest;
    assert us[0] == u && us[1..] == rest;
  }

  lemma DriveStep(g: Config, now: nat)
    requires !g.phase.Done?
    ensures Drive(g, now) == Drive(Step(g, now), now)
  {
  }

  /** The entries of a run stopped by an orphan post, as one list. */
  lemma OrphanEntries(now: nat, n: nat)
    ensures [UsersEntry(now, n)] + [PostsStarted(now), ErrorEntry(now, MissingAuthor)] + [FinishedEntry(now)]
         == [UsersEntry(now, n), PostsStarted(now), ErrorEntry(now, MissingAuthor), FinishedEntry(now)]
  {
    assert [UsersEntry(now, n)] + [PostsStarted(now), ErrorEntry(now, MissingAuthor)]
        == [UsersEntry(now, n), PostsStarted(now), ErrorEntry(now, MissingAuthor)];
  }

  /** The reset and the users step always go through. */
  lemma OpeningSteps(c: Control, s: Store, now: nat)
    ensures Run(c, s, now) == Drive(Config(ScrapePosts(s.users), Control(true, [UsersEntry(now, |s.users|)]), s), now)
  {
    var g0 := Config(Begin, c, s);
    var g1 := Step(g0, now);
    assert g1 == Config(ScrapeUsers, Control(true, []), s);
    assert [] + [UsersEntry(now, |s.users|)] == [UsersEntry(now, |s.users|)];
    DriveStep(g0, now);
    DriveStep(g1, now);
  }

  /** From the `finally`, the run ends after one step. */
  lemma DriveFinish(g: Config, now: nat)
    requires g.phase == Finish
    ensures Drive(g, now) == Config(Done, Control(false, g.control.results + [FinishedEntry(now)]), g.store)
  {
    DriveStep(g, now);
  }

  /** The posts step when every live post has its author. */
  lemma PostsStepClean(g: Config, now: nat)
    requires g.phase.ScrapePosts? && !HasOrphan(g.store.users, Filter(g.store.posts, IsLive))
    ensures Step(g, now) == Config(ScrapeDeleted(g.phase.users),
      g.control.(results := g.control.results + [PostsEntry(now, CountWhere(g.store.posts, IsLive),
                                                              CountWhere(Filter(g.store.posts, IsLive), IsPrivate))]),
      g.store)
  {
    FilterLengthIsCount(g.store.posts, IsLive);
  }

  /** The posts step when some live post has no author. */
  lemma PostsStepOrphan(g: Config, now: nat)
    requires g.phase.ScrapePosts? && HasOrphan(g.store.users, Filter(g.store.posts, IsLive))
    ensures Step(g, now) == Config(Finish,
      g.control.(results := g.control.results + [PostsStarted(now), ErrorEntry(now, MissingAuthor)]), g.store)
  {
  }

  /** The deleted-posts step when every post has its author. */
  lemma DeletedStepClean(g: Config, now: nat)
    requires g.phase.ScrapeDeleted? && !HasOrphan(g.store.users, g.store.posts)
    ensures Step(g, now) == Config(ScrapeDetail(g.phase.users, 0),
      g.control.(results := g.control.results + [DeletedEntry(now, CountWhere(g.store.posts, IsDeleted))]),
      g.store)
  {
  }

  /** The three bulk steps on a store where every post has its author. */
  lemma BulkSteps(c: Control, s: Store, now: nat)
    requires PostsHaveAuthors(s)
    ensures Run(c, s, now) == Drive(Config(ScrapeDetail(s.users, 0), Control(true, BulkEntries(s, now)), s), now)
  {
    OpeningSteps(c, s, now);
    var g2 := Config(ScrapePosts(s.users), Control(true, [UsersEntry(now, |s.users|)]), s);
    assert !HasOrphan(s.users, Filter(s.posts, IsLive));
    PostsStepClean(g2, now);
    var g3 := Step(g2, now);
    assert !HasOrphan(s.users, s.posts);
    DeletedStepClean(g3, now);
    BulkEntriesInOrder(s, now);
    DriveStep(g2, now);
    DriveStep(g3, now);
  }

  /** The entries of the three bulk steps, with the counts they report. */
  function BulkEntries(s: Store, now: nat): (r: seq<Entry>)
    ensures |r| == 3
    ensures r[1].collected == Some(FoundPosts(CountWhere(s.posts, IsLive), CountWhere(Filter(s.posts, IsLive), IsPrivate)))
    ensures r[2].collected == Some(FoundDeleted(CountWhere(s.posts, IsDeleted)))
  {
    [UsersEntry(now, |s.users|),
     PostsEntry(now, CountWhere(s.posts, IsLive), CountWhere(Filter(s.posts, IsLive), IsPrivate)),
     DeletedEntry(now, CountWhere(s.posts, IsDeleted))]
  }

  lemma BulkEntriesInOrder(s: Store, now: nat)
    ensures BulkEntries(s, now)
         == [UsersEntry(now, |s.users|)]
            + [PostsEntry(now, CountWhere(s.posts, IsLive), CountWhere(Filter(s.posts, IsLive), IsPrivate))]
            + [DeletedEntry(now, CountWhere(s.posts, IsDeleted))]
  {
  }

  /** On a store where every post has its author, the run takes every step:
      three bulk entries with the true counts, one detail entry and one leak
      row per visited user (at most three), then the finished entry. */
  lemma RunWithoutOrphans(c: Control, s: Store, now: nat)
    requires PostsHaveAuthors(s)
    ensures
      var r := Run(c, s, now);
      var visit := Take(s.users, 3);
      && r.control.results == BulkEntries(s, now) + DetailEntries(now, visit) + [FinishedEntry(now)]
      && |s.logs| <= |r.store.logs|
      && r.store.logs[..|s.logs|] == s.logs
      && ScraperLogs(r.store.logs[|s.logs|..], visit, now)
  {
    BulkSteps(c, s, now);
    var g := Config(ScrapeDetail(s.users, 0), Control(true, BulkEntries(s, now)), s);
    forall u | u in Take(s.users, 3)
      ensures u in s.users
    {
      var j :| 0 <= j < |Take(s.users, 3)| && Take(s.users, 3)[j] == u;
      assert s.users[j] == u;
    }
    DetailLoop(g, now);
    assert Take(s.users, 3)[0..] == Take(s.users, 3);
  }

  /** A live post without an author stops the run in its second step: the
      store is untouched and the entries are the users step, the posts
      step left in progress, one error and the finished entry. */
  lemma DeletedStepOrphan(g: Config, now: nat)
    requires g.phase.ScrapeDeleted? && HasOrphan(g.store.users, g.store.posts)
    ensures Step(g, now) == Config(Finish,
      g.control.(results := g.control.results + [DeletedStarted(now), ErrorEntry(now, MissingAuthor)]), g.store)
  {
  }

  lemma DeletedOrphanEntries(now: nat, n: nat, live: nat, privatePosts: nat)
    ensures [UsersEntry(now, n)] + [PostsEntry(now, live, privatePosts)]
            + [DeletedStarted(now), ErrorEntry(now, MissingAuthor)] + [FinishedEntry(now)]
         == [UsersEntry(now, n), PostsEntry(now, live, privatePosts), DeletedStarted(now),
             ErrorEntry(now, MissingAuthor), FinishedEntry(now)]
  {
    assert [UsersEntry(now, n)] + [PostsEntry(now, live, privatePosts)]
        == [UsersEntry(now, n), PostsEntry(now, live, privatePosts)];
    assert [UsersEntry(now, n), PostsEntry(now, live, privatePosts)] + [DeletedStarted(now), ErrorEntry(now, MissingAuthor)]
        == [UsersEntry(now, n), PostsEntry(now, live, privatePosts), DeletedStarted(now), ErrorEntry(now, MissingAuthor)];
  }

  /** When every live post has an author but some soft-deleted post has none,
      the posts step completes and the deleted-posts step raises: its
      in-progress entry stays, one error entry follows, then the finished
      entry; no row is written. */
  lemma RunWithDeletedOrphan(c: Control, s: Store, now: nat, p: Post)
    requires forall q :: q in s.posts && !q.isDeleted ==> AuthorOf(s.users, q).Some?
    requires p in s.posts && p.isDeleted && AuthorOf(s.users, p).None?
    ensures Run(c, s, now).store == s
    ensures Run(c, s, now).control
            == Control(false, [UsersEntry(now, |s.users|),
                               PostsEntry(now, CountWhere(s.posts, IsLive), CountWhere(Filter(s.posts, IsLive), IsPrivate)),
                               DeletedStarted(now), ErrorEntry(now, MissingAuthor), FinishedEntry(now)])
  {
    var live := Filter(s.posts, IsLive);
    forall q | q in live
      ensures !Orphan(s.users, q)
    {
      var u := AuthorOf(s.users, q).value;
      assert u in s.users && u.id == q.userId;
    }
    assert Orphan(s.users, p);
    OpeningSteps(c, s, now);
    var g2 := Config(ScrapePosts(s.users), Control(true, [UsersEntry(now, |s.users|)]), s);
    PostsStepClean(g2, now);
    DriveStep(g2, now);
    var g3 := Step(g2, now);
    DeletedStepOrphan(g3, now);
    DriveStep(g3, now);
    DriveFinish(Step(g3, now), now);
    DeletedOrphanEntries(now, |s.users|, CountWhere(s.posts, IsLive), CountWhere(live, IsPrivate));
  }

  lemma RunWithOrphanPost(c: Control, s: Store, now: nat, p: Post)
    requires p in s.posts && !p.isDeleted && AuthorOf(s.users, p).None?
    ensures Run(c, s, now).store == s
    ensures Run(c, s, now).control
            == Control(false, [UsersEntry(now, |s.users|), PostsStarted(now), ErrorEntry(now, MissingAuthor), FinishedEntry(now)])
  {
    assert p in Filter(s.posts, IsLive);
    OpeningSteps(c, s, now);
    var g2 := Config(ScrapePosts(s.users), Control(true, [UsersEntry(now, |s.users|)]), s);
    PostsStepOrphan(g2, now);
    DriveStep(g2, now);
    DriveFinish(Step(g2, now), now);
    OrphanEntries(now, |s.users|);
  }
}
