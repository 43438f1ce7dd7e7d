/** The content store: the user, post and access-log tables, the request
    context a handler sees, and the queries and inserts the routes share. */
module Database {
  import opened Common
  import opened Seqs
  import opened Users
  import opened Posts
  import opened AccessLogs

  /** The three tables, each in insertion (row id) order. */
  datatype Store = Store(users: seq<User>, posts: seq<Post>, logs: seq<AccessLog>)

  /** What a handler reads from the request: the user id held by the session
      (if any), the HTTP method (a GET-only route also answers HEAD), the
      client address and agent string, and the clock. */
  datatype Request = Request(viewer: Option<nat>, httpMethod: string, ipAddress: string, userAgent: string, now: nat)

  /** A handler's answer together with the store it leaves behind. */
  datatype Handled<T> = Handled(out: Result<T>, store: Store)

  function UserId(u: User): nat { u.id }
  function PostId(p: Post): nat { p.id }
  function LogId(l: AccessLog): nat { l.id }
  function PostCreatedAt(p: Post): int { p.createdAt }
  function LogTimestamp(l: AccessLog): int { l.timestamp }

  /** Primary keys are unique in every table. */
  ghost predicate Valid(s: Store) {
    && DistinctIds(s.users, UserId)
    && DistinctIds(s.posts, PostId)
    && DistinctIds(s.logs, LogId)
  }

  // ---- lookups ----------------------------------------------------------

  function UserIndex(users: seq<User>, id: nat): (r: Option<nat>)
    ensures r.Some? ==> r.value < |users| && users[r.value].id == id
    ensures r.Some? ==> forall j :: 0 <= j < r.value ==> users[j].id != id
    ensures r.None? ==> forall j :: 0 <= j < |users| ==> users[j].id != id
  {
    FirstIndex(users, (u: User) => u.id == id)
  }

  /** `User.query.get(id)`. */
  function FindUser(users: seq<User>, id: nat): (r: Option<User>)
    ensures r.Some? ==> r.value in users && r.value.id == id
    ensures r.None? <==> forall u :: u in users ==> u.id != id
  {
    match UserIndex(users, id)
    case None => None
    case Some(i) => Some(users[i])
  }

  /** `User.query.filter_by(username=...).first()`. */
  function FindUserByName(users: seq<User>, username: string): (r: Option<User>)
    ensures r.Some? ==> r.value in users && r.value.username == username
    ensures r.None? <==> forall u :: u in users ==> u.username != username
  {
    match FirstIndex(users, (u: User) => u.username == username)
    case None => None
    case Some(i) => Some(users[i])
  }

  /** `User.query.filter_by(email=...).first()`. */
  function FindUserByEmail(users: seq<User>, email: string): (r: Option<User>)
    ensures r.Some? ==> r.value in users && r.value.email == email
    ensures r.None? <==> forall u :: u in users ==> u.email != email
  {
    match FirstIndex(users, (u: User) => u.email == email)
    case None => None
    case Some(i) => Some(users[i])
  }

  /** Position of `Post.query.get(id)` in the post table. */
  function PostIndex(posts: seq<Post>, id: nat): (r: Option<nat>)
    ensures r.Some? ==> r.value < |posts| && posts[r.value].id == id
    ensures r.Some? ==> forall j :: 0 <= j < r.value ==> posts[j].id != id
    ensures r.None? ==> forall j :: 0 <= j < |posts| ==> posts[j].id != id
  {
    FirstIndex(posts, (p: Post) => p.id == id)
  }

  /** The lookup depends only on the ids: rewriting a row without changing ids finds the same row. */
  lemma PostIndexKeepsPosition(posts: seq<Post>, i: nat, p: Post, id: nat)
    requires PostIndex(posts, id) == Some(i)
    requires p.id == posts[i].id
    ensures PostIndex(posts[i := p], id) == Some(i)
  {
    var q := posts[i := p];
    assert q[i].id == id;
    var r := PostIndex(q, id);
    assert r.Some?;
    assert r.value <= i;
  }

  /** `post.author`: the user the post's `user_id` refers to, if that user exists. */
  function AuthorOf(users: seq<User>, p: Post): Option<User> {
    FindUser(users, p.userId)
  }

  /** flask_login's `current_user`: the session's user, reloaded from the
      user table; a session whose user is gone is anonymous. */
  function CurrentUser(s: Store, req: Request): (r: Option<User>)
    ensures r.Some? ==> r.value in s.users && req.viewer == Some(r.value.id)
    ensures r.None? <==> req.viewer.None? || forall u :: u in s.users ==> u.id != req.viewer.value
  {
    if req.viewer.None? then None else FindUser(s.users, req.viewer.value)
  }

  /** The `user_id` an audit row records: the signed-in user's, or none. */
  function ViewerId(s: Store, req: Request): (r: Option<nat>)
    ensures r.Some? <==> CurrentUser(s, req).Some?
    ensures r.Some? ==> r.value == CurrentUser(s, req).value.id
  {
    match CurrentUser(s, req)
    case None => None
    case Some(u) => Some(u.id)
  }

  // ---- row filters ------------------------------------------------------

  predicate IsLive(p: Post) { !p.isDeleted }
  predicate IsPublicLive(p: Post) { p.isPublic && !p.isDeleted }
  predicate IsPrivate(p: Post) { !p.isPublic }
  predicate IsDeleted(p: Post) { p.isDeleted }
  predicate IsLeak(l: AccessLog) { l.isPrivacyLeak }

  function LiveOwnedBy(userId: nat): Post -> bool {
    (p: Post) => p.userId == userId && !p.isDeleted
  }

  function PublicLiveOwnedBy(userId: nat): Post -> bool {
    (p: Post) => p.userId == userId && p.isPublic && !p.isDeleted
  }

  function LoggedFor(userId: nat): AccessLog -> bool {
    (l: AccessLog) => l.userId == Some(userId)
  }

  // ---- dictionary views -------------------------------------------------

  /** `post.to_dict(include_private=True)`, which always yields a dictionary. */
  function FullPostDict(p: Post, users: seq<User>): (d: Dict)
    ensures Some(d) == PostToDict(p, AuthorOf(users, p), true)
  {
    PostToDict(p, AuthorOf(users, p), true).value
  }

  function FullPostDicts(ps: seq<Post>, users: seq<User>): (r: seq<Dict>)
    ensures |r| == |ps|
    ensures forall k :: 0 <= k < |r| ==> r[k] == FullPostDict(ps[k], users)
  {
    seq(|ps|, k requires 0 <= k < |ps| => FullPostDict(ps[k], users))
  }

  function FullUserDicts(us: seq<User>): (r: seq<Dict>)
    ensures |r| == |us|
    ensures forall k :: 0 <= k < |r| ==> r[k] == UserToDict(us[k], true)
  {
    seq(|us|, k requires 0 <= k < |us| => UserToDict(us[k], true))
  }

  // ---- inserts ----------------------------------------------------------

  /** `db.session.add(user); commit()`: the row gets the next id and the current time. */
  function InsertUser(s: Store, u: User, now: nat): (r: Store)
    ensures r.posts == s.posts && r.logs == s.logs
    ensures |r.users| == |s.users| + 1 && r.users[..|s.users|] == s.users
    ensures r.users[|s.users|] == u.(id := r.users[|s.users|].id, createdAt := now)
    ensures forall v :: v in s.users ==> v.id < r.users[|s.users|].id
    ensures |s.users| == 0 ==> r.users[0].id == 1
    ensures Valid(s) ==> Valid(r)
  {
    var row := u.(id := NextId(s.users, UserId), createdAt := now);
    AppendFreshKeepsDistinct(s.users, row, UserId);
    s.(users := s.users + [row])
  }

  /** `db.session.add(post); commit()`: next id, both timestamps set to now. */
  function InsertPost(s: Store, p: Post, now: nat): (r: Store)
    ensures r.users == s.users && r.logs == s.logs
    ensures |r.posts| == |s.posts| + 1 && r.posts[..|s.posts|] == s.posts
    ensures r.posts[|s.posts|] == p.(id := r.posts[|s.posts|].id, createdAt := now, updatedAt := now)
    ensures forall q :: q in s.posts ==> q.id < r.posts[|s.posts|].id
    ensures Valid(s) ==> Valid(r)
  {
    var row := p.(id := NextId(s.posts, PostId), createdAt := now, updatedAt := now);
    AppendFreshKeepsDistinct(s.posts, row, PostId);
    s.(posts := s.posts + [row])
  }

  /** `s2` is `s` with exactly one access-log row appended, under a fresh id, and nothing else changed. */
  predicate AppendedOneLog(s: Store, s2: Store) {
    && s2.users == s.users
    && s2.posts == s.posts
    && |s2.logs| == |s.logs| + 1
    && s2.logs[..|s.logs|] == s.logs
    && forall l :: l in s.logs ==> l.id < s2.logs[|s.logs|].id
  }

  function Newest(s: Store): AccessLog
    requires |s.logs| > 0
  {
    s.logs[|s.logs| - 1]
  }

  /** `db.session.add(log); commit()`: the row gets the next id and `timestamp = now`. */
  function InsertLog(s: Store, l: AccessLog, now: nat): (r: Store)
    ensures AppendedOneLog(s, r)
    ensures Newest(r) == l.(id := Newest(r).id, timestamp := now)
    ensures Valid(s) ==> Valid(r)
  {
    var row := l.(id := NextId(s.logs, LogId), timestamp := now);
    AppendFreshKeepsDistinct(s.logs, row, LogId);
    s.(logs := s.logs + [row])
  }

  /** Log row `l` records this access: these columns, no others implied. */
  predicate Logged(l: AccessLog, endpoint: string, httpMethod: string, userId: Option<nat>,
                   data: Dict, isPrivacyLeak: bool, leakType: Option<string>)
  {
    && l.endpoint == endpoint && l.httpMethod == httpMethod && l.userId == userId
    && l.accessedData == data && l.isPrivacyLeak == isPrivacyLeak && l.leakType == leakType
  }

  /** Log row `l` was written while serving `req`. */
  predicate StampedBy(l: AccessLog, req: Request) {
    l.timestamp == req.now && l.ipAddress == req.ipAddress && l.userAgent == req.userAgent
  }

  /** Appends the audit row for `req` (the common tail of every logging route). */
  function Audit(s: Store, req: Request, endpoint: string, httpMethod: string, userId: Option<nat>,
                 data: Dict, isPrivacyLeak: bool := false, leakType: Option<string> := None): (r: Store)
    ensures AppendedOneLog(s, r)
    ensures Logged(Newest(r), endpoint, httpMethod, userId, data, isPrivacyLeak, leakType)
    ensures StampedBy(Newest(r), req)
    ensures Valid(s) ==> Valid(r)
  {
    InsertLog(s, NewAccessLog(endpoint, httpMethod, req.ipAddress, req.userAgent, data,
                              userId, isPrivacyLeak, leakType), req.now)
  }
}
