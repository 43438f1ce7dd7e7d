/** Account routes (`app/routes/auth.py`): login with its audit row,
    registration with uniqueness checks, profile update and the hard delete
    of an account with everything it owns. */
module Auth {
  import opened Common
  import opened Seqs
  import opened Users
  import opened Posts
  import opened AccessLogs
  import opened Database
  import Api

  /** POST /login: on a matching username and password one audit row names
      the user; a wrong name or password writes nothing. A signed-in caller
      is sent away before anything is read. */
  function Login(s: Store, req: Request, username: string, password: string): (h: Handled<nat>)
    ensures CurrentUser(s, req).Some? ==> h == Handled(Err(AlreadyAuthenticated), s)
    ensures CurrentUser(s, req).None? ==>
      var u := FindUserByName(s.users, username);
      && (h.out.Ok? <==> u.Some? && CheckPassword(u.value.passwordHash, password))
      && (h.out.Err? ==> h == Handled(Err(InvalidCredentials), s))
      && (h.out.Ok? ==>
            && h.out.value == u.value.id
            && AppendedOneLog(s, h.store)
            && Logged(Newest(h.store), "/login", "POST", Some(u.value.id), map["username" := Str(username)], false, None))
    ensures Valid(s) ==> Valid(h.store)
  {
    if CurrentUser(s, req).Some? then Handled(Err(AlreadyAuthenticated), s)
    else
      match FindUserByName(s.users, username)
      case None => Handled(Err(InvalidCredentials), s)
      case Some(u) =>
        if !CheckPassword(u.passwordHash, password) then Handled(Err(InvalidCredentials), s)
        else Handled(Ok(u.id), Audit(s, req, "/login", "POST", Some(u.id), map["username" := Str(username)]))
  }

  /** No two accounts share a username or an email. */
  ghost predicate UniqueAccounts(users: seq<User>) {
    forall i, j :: 0 <= i < j < |users| ==> users[i].username != users[j].username && users[i].email != users[j].email
  }

  /** POST /register: a taken username is refused first, then a taken email,
      and neither writes anything; otherwise exactly one non-admin account is
      added with the visibility flags from the form. */
  function Register(s: Store, req: Request, username: string, email: string, password: string,
                    bio: Option<string>, emailPublic: bool, bioPublic: bool): (h: Handled<()>)
    ensures CurrentUser(s, req).Some? ==> h == Handled(Err(AlreadyAuthenticated), s)
    ensures CurrentUser(s, req).None? && FindUserByName(s.users, username).Some? ==>
      h == Handled(Err(UsernameTaken), s)
    ensures CurrentUser(s, req).None? && FindUserByName(s.users, username).None? && FindUserByEmail(s.users, email).Some? ==>
      h == Handled(Err(EmailTaken), s)
    ensures CurrentUser(s, req).None? && FindUserByName(s.users, username).None? && FindUserByEmail(s.users, email).None? ==>
      var n := |s.users|;
      && h.out.Ok?
      && h.store.posts == s.posts && h.store.logs == s.logs
      && |h.store.users| == n + 1 && h.store.users[..n] == s.users
      && h.store.users[n].username == username && h.store.users[n].email == email
      && h.store.users[n].bio == bio && !h.store.users[n].isAdmin
      && h.store.users[n].emailPublic == emailPublic && h.store.users[n].bioPublic == bioPublic
      && (forall a :: CheckPassword(h.store.users[n].passwordHash, a) <==> a == password)
      && h.store.users[n].createdAt == req.now
      && (forall u :: u in s.users ==> u.id < h.store.users[n].id)
    ensures Valid(s) ==> Valid(h.store)
    ensures UniqueAccounts(s.users) ==> UniqueAccounts(h.store.users)
  {
    if CurrentUser(s, req).Some? then Handled(Err(AlreadyAuthenticated), s)
    else if FindUserByName(s.users, username).Some? then Handled(Err(UsernameTaken), s)
    else if FindUserByEmail(s.users, email).Some? then Handled(Err(EmailTaken), s)
    else
      var u := NewUser(username, email, password, bio).(emailPublic := emailPublic, bioPublic := bioPublic);
      var r := InsertUser(s, u, req.now);
      assert forall k :: 0 <= k < |s.users| ==> r.users[k] == s.users[k] && s.users[k] in s.users;
      Handled(Ok(()), r)
  }

  /** Registration and login round-trip: an anonymous login with the
      credentials just registered signs in as the new account. */
  lemma RegisterThenLogin(s: Store, req: Request, username: string, email: string, password: string,
                          bio: Option<string>, emailPublic: bool, bioPublic: bool, later: Request)
    requires Register(s, req, username, email, password, bio, emailPublic, bioPublic).out.Ok?
    requires later.viewer.None?
    ensures
      var s1 := Register(s, req, username, email, password, bio, emailPublic, bioPublic).store;
      && |s1.users| == |s.users| + 1
      && Login(s1, later, username, password).out == Ok(s1.users[|s.users|].id)
  {
    var s1 := Register(s, req, username, email, password, bio, emailPublic, bioPublic).store;
    var n := |s.users|;
    var found := FindUserByName(s1.users, username);
    assert s1.users[n] in s1.users;
    var k :| 0 <= k < |s1.users| && s1.users[k] == found.value;
  }

  /** The form's new password counts only when it is present and non-empty. */
  predicate Provided(newPassword: Option<string>) {
    newPassword.Some? && newPassword.value != ""
  }

  /** The account row after a profile or admin edit of its password. */
  function WithPassword(u: User, newPassword: Option<string>): (v: User)
    ensures v == u.(passwordHash := v.passwordHash)
    ensures Provided(newPassword) ==> forall a :: CheckPassword(v.passwordHash, a) <==> a == newPassword.value
    ensures !Provided(newPassword) ==> v == u
  {
    if Provided(newPassword) then u.(passwordHash := HashPassword(newPassword.value)) else u
  }

  /** The signed-in user's row position, when the session names a live account. */
  function ViewerIndex(s: Store, req: Request): (r: Option<nat>)
    ensures r.Some? <==> CurrentUser(s, req).Some?
    ensures r.Some? ==> r.value < |s.users| && CurrentUser(s, req) == Some(s.users[r.value])
  {
    if req.viewer.None? then None else UserIndex(s.users, req.viewer.value)
  }

  /** POST /profile: bio and both visibility flags are overwritten; the password
      changes only when a non-empty new one is given; nothing else changes. */
  function Profile(s: Store, req: Request, bio: Option<string>, emailPublic: bool, bioPublic: bool,
                   newPassword: Option<string>): (h: Handled<()>)
    ensures CurrentUser(s, req).None? ==> h == Handled(Err(Unauthenticated), s)
    ensures CurrentUser(s, req).Some? ==>
      var i := ViewerIndex(s, req).value;
      var me := s.users[i];
      && h.out.Ok?
      && h.store.posts == s.posts && h.store.logs == s.logs
      && |h.store.users| == |s.users|
      && h.store.users == s.users[i := h.store.users[i]]
      && h.store.users[i] == WithPassword(me.(bio := bio, emailPublic := emailPublic, bioPublic := bioPublic), newPassword)
    ensures Valid(s) ==> Valid(h.store)
  {
    match ViewerIndex(s, req)
    case None => Handled(Err(Unauthenticated), s)
    case Some(i) =>
      var me := s.users[i];
      var v := WithPassword(me.(bio := bio, emailPublic := emailPublic, bioPublic := bioPublic), newPassword);
      ReplaceKeepsDistinct(s.users, i, v, UserId);
      Handled(Ok(()), s.(users := s.users[i := v]))
  }

  /** The user table without the rows keyed `id`. */
  function RemoveUser(users: seq<User>, id: nat): (r: seq<User>)
    ensures forall u :: multiset(r)[u] == if u.id != id then multiset(users)[u] else 0
    ensures DistinctIds(users, UserId) ==> DistinctIds(r, UserId)
  {
    FilterPreservesDistinct(users, NotUser(id), UserId);
    Filter(users, NotUser(id))
  }

  /** The post table without the posts `userId` wrote, soft-deleted or not. */
  function RemovePostsOf(posts: seq<Post>, userId: nat): (r: seq<Post>)
    ensures forall p :: multiset(r)[p] == if p.userId != userId then multiset(posts)[p] else 0
    ensures DistinctIds(posts, PostId) ==> DistinctIds(r, PostId)
  {
    FilterPreservesDistinct(posts, NotOwnedBy(userId), PostId);
    Filter(posts, NotOwnedBy(userId))
  }

  /** The log table without the rows that name `userId`. */
  function RemoveLogsOf(logs: seq<AccessLog>, userId: nat): (r: seq<AccessLog>)
    ensures forall l :: multiset(r)[l] == if l.userId != Some(userId) then multiset(logs)[l] else 0
    ensures DistinctIds(logs, LogId) ==> DistinctIds(r, LogId)
  {
    FilterPreservesDistinct(logs, NotLoggedFor(userId), LogId);
    Filter(logs, NotLoggedFor(userId))
  }

  function NotUser(id: nat): User -> bool { (u: User) => u.id != id }
  function NotOwnedBy(userId: nat): Post -> bool { (p: Post) => p.userId != userId }
  function NotLoggedFor(userId: nat): AccessLog -> bool { (l: AccessLog) => l.userId != Some(userId) }

  /** POST /delete-account: with the right password, the caller's account,
      all of their posts (soft-deleted ones too) and every log naming them
      are removed; every other row is kept. A wrong password changes nothing. */
  function DeleteAccount(s: Store, req: Request, password: string): (h: Handled<()>)
    ensures CurrentUser(s, req).None? ==> h == Handled(Err(Unauthenticated), s)
    ensures CurrentUser(s, req).Some? && !CheckPassword(CurrentUser(s, req).value.passwordHash, password) ==>
      h == Handled(Err(IncorrectPassword), s)
    ensures CurrentUser(s, req).Some? && CheckPassword(CurrentUser(s, req).value.passwordHash, password) ==>
      var me := CurrentUser(s, req).value;
      && h.out.Ok?
      && (forall u :: multiset(h.store.users)[u] == if u.id != me.id then multiset(s.users)[u] else 0)
      && (forall p :: multiset(h.store.posts)[p] == if p.userId != me.id then multiset(s.posts)[p] else 0)
      && (forall l :: multiset(h.store.logs)[l] == if l.userId != Some(me.id) then multiset(s.logs)[l] else 0)
    ensures Valid(s) ==> Valid(h.store)
  {
    match CurrentUser(s, req)
    case None => Handled(Err(Unauthenticated), s)
    case Some(me) =>
      if !CheckPassword(me.passwordHash, password) then Handled(Err(IncorrectPassword), s)
      else Handled(Ok(()), Store(RemoveUser(s.users, me.id), RemovePostsOf(s.posts, me.id), RemoveLogsOf(s.logs, me.id)))
  }

  /** After an account is deleted its session is anonymous, and even the
      leaking read of every post row returns none of its posts. */
  lemma DeletedAccountLeavesNoPosts(s: Store, req: Request, password: string, later: Request)
    requires DeleteAccount(s, req, password).out.Ok?
    requires Valid(s)
    ensures CurrentUser(DeleteAccount(s, req, password).store, req).None?
    ensures
      var me := CurrentUser(s, req).value;
      var dump := Api.AllPostsIncludingDeleted(DeleteAccount(s, req, password).store, later).out.value;
      forall k :: 0 <= k < |dump| ==> dump[k]["user_id"] != Int(me.id)
  {
    var me := CurrentUser(s, req).value;
    var s1 := DeleteAccount(s, req, password).store;
    forall u | u in s1.users
      ensures u.id != me.id
    {
      assert multiset(s1.users)[u] > 0;
    }
    forall k | 0 <= k < |s1.posts|
      ensures s1.posts[k].userId != me.id
    {
      assert multiset(s1.posts)[s1.posts[k]] > 0;
    }
  }
}
