/** The admin area (`app/routes/admin.py`): every route is behind the admin
    gate; the user and post listings are audited, the log listing is not, and
    the user editor overwrites an account wholesale. */
module Admin {
  import opened Common
  import opened Seqs
  import opened Users
  import opened Posts
  import opened AccessLogs
  import opened Database
  import Auth

  /** `admin_required`: anonymous callers go to the login view, signed-in
      non-admins are turned away, admins pass through. */
  function AdminGate(s: Store, req: Request): (r: Result<User>)
    ensures CurrentUser(s, req).None? ==> r == Err(Unauthenticated)
    ensures CurrentUser(s, req).Some? && !CurrentUser(s, req).value.isAdmin ==> r == Err(PermissionDenied)
    ensures r.Ok? <==> CurrentUser(s, req).Some? && CurrentUser(s, req).value.isAdmin
    ensures r.Ok? ==> Some(r.value) == CurrentUser(s, req)
  {
    match CurrentUser(s, req)
    case None => Err(Unauthenticated)
    case Some(me) => if me.isAdmin then Ok(me) else Err(PermissionDenied)
  }

  /** GET /admin/users: every account, and one non-leak row naming the admin. */
  function UsersView(s: Store, req: Request): (h: Handled<seq<User>>)
    ensures AdminGate(s, req).Err? ==> h == Handled(Err(AdminGate(s, req).failure), s)
    ensures AdminGate(s, req).Ok? ==>
      && h.out == Ok(s.users)
      && AppendedOneLog(s, h.store)
      && Logged(Newest(h.store), "/admin/users", "GET", Some(AdminGate(s, req).value.id),
                map["action" := Str("view_all_users")], false, None)
      && StampedBy(Newest(h.store), req)
    ensures Valid(s) ==> Valid(h.store)
  {
    match AdminGate(s, req)
    case Err(f) => Handled(Err(f), s)
    case Ok(me) =>
      Handled(Ok(s.users), Audit(s, req, "/admin/users", "GET", Some(me.id), map["action" := Str("view_all_users")]))
  }

  /** GET /admin/posts: every post row, soft-deleted and private ones included,
      and one non-leak row naming the admin. */
  function PostsView(s: Store, req: Request): (h: Handled<seq<Post>>)
    ensures AdminGate(s, req).Err? ==> h == Handled(Err(AdminGate(s, req).failure), s)
    ensures AdminGate(s, req).Ok? ==>
      && h.out == Ok(s.posts)
      && AppendedOneLog(s, h.store)
      && Logged(Newest(h.store), "/admin/posts", "GET", Some(AdminGate(s, req).value.id),
                map["action" := Str("view_all_posts")], false, None)
      && StampedBy(Newest(h.store), req)
    ensures Valid(s) ==> Valid(h.store)
  {
    match AdminGate(s, req)
    case Err(f) => Handled(Err(f), s)
    case Ok(me) =>
      Handled(Ok(s.posts), Audit(s, req, "/admin/posts", "GET", Some(me.id), map["action" := Str("view_all_posts")]))
  }

  /** What the log page shows: all rows, newest first, and the number of leak rows. */
  datatype LogsReport = LogsReport(logs: seq<AccessLog>, privacyLeaks: nat)

  /** GET /admin/logs: a read-only report; this route writes no audit row. */
  function LogsView(s: Store, req: Request): (h: Handled<LogsReport>)
    ensures AdminGate(s, req).Err? ==> h == Handled(Err(AdminGate(s, req).failure), s)
    ensures AdminGate(s, req).Ok? ==>
      && h.store == s
      && h.out.Ok?
      && multiset(h.out.value.logs) == multiset(s.logs)
      && SortedDesc(h.out.value.logs, LogTimestamp)
      && h.out.value.privacyLeaks == CountWhere(s.logs, IsLeak)
  {
    match AdminGate(s, req)
    case Err(f) => Handled(Err(f), s)
    case Ok(_) =>
      FilterLengthIsCount(s.logs, IsLeak);
      Handled(Ok(LogsReport(SortDesc(s.logs, LogTimestamp), |Filter(s.logs, IsLeak)|)), s)
  }

  /** GET /admin/edit-user/<id>: the account to edit, or not found. */
  function EditUserForm(s: Store, req: Request, userId: nat): (h: Handled<User>)
    ensures h.store == s
    ensures AdminGate(s, req).Err? ==> h.out == Err(AdminGate(s, req).failure)
    ensures AdminGate(s, req).Ok? && FindUser(s.users, userId).None? ==> h.out == Err(NotFound)
    ensures AdminGate(s, req).Ok? && FindUser(s.users, userId).Some? ==> h.out == Ok(FindUser(s.users, userId).value)
  {
    match AdminGate(s, req)
    case Err(f) => Handled(Err(f), s)
    case Ok(_) =>
      match FindUser(s.users, userId)
      case None => Handled(Err(NotFound), s)
      case Some(u) => Handled(Ok(u), s)
  }

  /** The account after the editor's form is applied: every editable column is
      overwritten, and the password only when a non-empty one is given. */
  function AdminEdited(u: User, username: string, email: string, bio: Option<string>,
                       emailPublic: bool, bioPublic: bool, isAdmin: bool, newPassword: Option<string>): (v: User)
    ensures v.id == u.id && v.createdAt == u.createdAt
    ensures v.username == username && v.email == email && v.bio == bio
    ensures v.emailPublic == emailPublic && v.bioPublic == bioPublic && v.isAdmin == isAdmin
    ensures !Auth.Provided(newPassword) ==> v.passwordHash == u.passwordHash
    ensures Auth.Provided(newPassword) ==> forall a :: CheckPassword(v.passwordHash, a) <==> a == newPassword.value
  {
    Auth.WithPassword(u.(username := username, email := email, bio := bio, emailPublic := emailPublic,
                         bioPublic := bioPublic, isAdmin := isAdmin), newPassword)
  }

  /** Some row other than `i` already holds this username or email, so the
      unique columns would refuse the commit. */
  predicate Clashes(users: seq<User>, i: nat, username: string, email: string) {
    exists j | 0 <= j < |users| :: j != i && (users[j].username == username || users[j].email == email)
  }

  /** POST /admin/edit-user/<id>: overwrites the account. A value another
      account already holds makes the commit fail and nothing changes. */
  function EditUser(s: Store, req: Request, userId: nat, username: string, email: string, bio: Option<string>,
                    emailPublic: bool, bioPublic: bool, isAdmin: bool, newPassword: Option<string>): (h: Handled<()>)
    ensures AdminGate(s, req).Err? ==> h == Handled(Err(AdminGate(s, req).failure), s)
    ensures AdminGate(s, req).Ok? && FindUser(s.users, userId).None? ==> h == Handled(Err(NotFound), s)
    ensures AdminGate(s, req).Ok? && FindUser(s.users, userId).Some? ==>
      var i := UserIndex(s.users, userId).value;
      && (Clashes(s.users, i, username, email) ==> h == Handled(Err(UniqueViolation), s))
      && (!Clashes(s.users, i, username, email) ==>
            && h.out.Ok?
            && h.store.posts == s.posts && h.store.logs == s.logs
            && |h.store.users| == |s.users|
            && h.store.users == s.users[i := h.store.users[i]]
            && h.store.users[i] == AdminEdited(s.users[i], username, email, bio, emailPublic, bioPublic, isAdmin, newPassword))
    ensures Valid(s) ==> Valid(h.store)
    ensures Auth.UniqueAccounts(s.users) ==> Auth.UniqueAccounts(h.store.users)
  {
    match AdminGate(s, req)
    case Err(f) => Handled(Err(f), s)
    case Ok(_) =>
      match UserIndex(s.users, userId)
      case None => Handled(Err(NotFound), s)
      case Some(i) =>
        if Clashes(s.users, i, username, email) then Handled(Err(UniqueViolation), s)
        else
          var v := AdminEdited(s.users[i], username, email, bio, emailPublic, bioPublic, isAdmin, newPassword);
          ReplaceKeepsDistinct(s.users, i, v, UserId);
          Handled(Ok(()), s.(users := s.users[i := v]))
  }

  /** The user lookup depends only on ids: rewriting a row without changing
      its id finds the same row. */
  lemma UserIndexKeepsPosition(users: seq<User>, i: nat, v: User, id: nat)
    requires UserIndex(users, id) == Some(i)
    requires v.id == users[i].id
    ensures UserIndex(users[i := v], id) == Some(i)
  {
    var q := users[i := v];
    assert q[i].id == id;
    var r := UserIndex(q, id);
    assert r.Some?;
    assert r.value <= i;
  }

  /** An admin who edits their own account without the admin box loses the
      admin area on their next request. */
  lemma SelfDemotionLocksOut(s: Store, req: Request, username: string, email: string, bio: Option<string>,
                             emailPublic: bool, bioPublic: bool, newPassword: Option<string>, next: Request)
    requires AdminGate(s, req).Ok?
    requires next.viewer == req.viewer
    requires EditUser(s, req, req.viewer.value, username, email, bio, emailPublic, bioPublic, false, newPassword).out.Ok?
    ensures AdminGate(EditUser(s, req, req.viewer.value, username, email, bio, emailPublic, bioPublic, false, newPassword).store, next)
            == Err(PermissionDenied)
  {
    var id := req.viewer.value;
    var i := UserIndex(s.users, id).value;
    var s1 := EditUser(s, req, id, username, email, bio, emailPublic, bioPublic, false, newPassword).store;
    UserIndexKeepsPosition(s.users, i, s1.users[i], id);
  }

  /** No admin route changes anything for a caller who is not an admin. */
  lemma NonAdminsChangeNothing(s: Store, req: Request, userId: nat, username: string, email: string,
                               bio: Option<string>, emailPublic: bool, bioPublic: bool, isAdmin: bool,
                               newPassword: Option<string>)
    requires CurrentUser(s, req).None? || !CurrentUser(s, req).value.isAdmin
    ensures UsersView(s, req).out.Err? && UsersView(s, req).store == s
    ensures PostsView(s, req).out.Err? && PostsView(s, req).store == s
    ensures LogsView(s, req).out.Err? && LogsView(s, req).store == s
    ensures EditUserForm(s, req, userId).out.Err?
    ensures var h := EditUser(s, req, userId, username, email, bio, emailPublic, bioPublic, isAdmin, newPassword);
            h.out.Err? && h.store == s
  {
  }
}
