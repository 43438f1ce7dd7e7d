/** The HTML routes (`app/routes/main.py`): public and own post listings, the
    profile page, post authoring with the owner-or-admin rule and soft delete,
    and the access-log page. Rendering is not modelled; each view returns the
    records it hands to its template. */
module Site {
  import opened Common
  import opened Seqs
  import opened Users
  import opened Posts
  import opened AccessLogs
  import opened Database

  /** GET /: the public posts that are not deleted, newest first; one non-leak row. */
  function Index(s: Store, req: Request): (h: Handled<seq<Post>>)
    ensures h.out.Ok?
    ensures forall p :: multiset(h.out.value)[p] == if p.isPublic && !p.isDeleted then multiset(s.posts)[p] else 0
    ensures SortedDesc(h.out.value, PostCreatedAt)
    ensures AppendedOneLog(s, h.store)
    ensures Logged(Newest(h.store), "/", "GET", ViewerId(s, req), map["action" := Str("view_public_posts")], false, None)
    ensures StampedBy(Newest(h.store), req)
    ensures Valid(s) ==> Valid(h.store)
  {
    var posts := SortDesc(Filter(s.posts, IsPublicLive), PostCreatedAt);
    Handled(Ok(posts), Audit(s, req, "/", "GET", ViewerId(s, req), map["action" := Str("view_public_posts")]))
  }

  /** What the profile template receives. */
  datatype ProfileView = ProfileView(user: User, posts: seq<Post>, showEmail: bool, showBio: bool)

  /** GET /user/<username>: the user's public, non-deleted posts, newest first,
      and whether email and bio may be shown: exactly the owner's settings,
      whoever is looking. An unknown name is not found and writes nothing. */
  function UserProfile(s: Store, req: Request, username: string): (h: Handled<ProfileView>)
    ensures FindUserByName(s.users, username).None? ==> h == Handled(Err(NotFound), s)
    ensures FindUserByName(s.users, username).Some? ==>
      var u := FindUserByName(s.users, username).value;
      && h.out.Ok?
      && h.out.value.user == u
      && h.out.value.showEmail == u.emailPublic
      && h.out.value.showBio == u.bioPublic
      && (forall p :: multiset(h.out.value.posts)[p] ==
            if p.userId == u.id && p.isPublic && !p.isDeleted then multiset(s.posts)[p] else 0)
      && SortedDesc(h.out.value.posts, PostCreatedAt)
      && AppendedOneLog(s, h.store)
      && Logged(Newest(h.store), "/user/" + username, "GET", ViewerId(s, req),
                map["username" := Str(username), "show_email" := Bool(u.emailPublic), "show_bio" := Bool(u.bioPublic)],
                false, None)
    ensures Valid(s) ==> Valid(h.store)
  {
    match FindUserByName(s.users, username)
    case None => Handled(Err(NotFound), s)
    case Some(u) =>
      var posts := SortDesc(Filter(s.posts, PublicLiveOwnedBy(u.id)), PostCreatedAt);
      var data := map["username" := Str(username), "show_email" := Bool(u.emailPublic), "show_bio" := Bool(u.bioPublic)];
      Handled(Ok(ProfileView(u, posts, u.emailPublic, u.bioPublic)),
              Audit(s, req, "/user/" + username, "GET", ViewerId(s, req), data))
  }

  /** GET /my-posts: the caller's non-deleted posts, private ones included, newest first. */
  function MyPosts(s: Store, req: Request): (h: Handled<seq<Post>>)
    ensures CurrentUser(s, req).None? ==> h == Handled(Err(Unauthenticated), s)
    ensures CurrentUser(s, req).Some? ==>
      var me := CurrentUser(s, req).value;
      && h.out.Ok?
      && (forall p :: multiset(h.out.value)[p] ==
            if p.userId == me.id && !p.isDeleted then multiset(s.posts)[p] else 0)
      && SortedDesc(h.out.value, PostCreatedAt)
      && AppendedOneLog(s, h.store)
      && Logged(Newest(h.store), "/my-posts", "GET", Some(me.id), map["action" := Str("view_own_posts")], false, None)
    ensures Valid(s) ==> Valid(h.store)
  {
    match CurrentUser(s, req)
    case None => Handled(Err(Unauthenticated), s)
    case Some(me) =>
      var posts := SortDesc(Filter(s.posts, LiveOwnedBy(me.id)), PostCreatedAt);
      Handled(Ok(posts), Audit(s, req, "/my-posts", "GET", Some(me.id), map["action" := Str("view_own_posts")]))
  }

  /** POST /create-post: one new post owned by the caller; nothing is logged. */
  function CreatePost(s: Store, req: Request, title: string, content: string, isPublic: bool): (h: Handled<()>)
    ensures CurrentUser(s, req).None? ==> h == Handled(Err(Unauthenticated), s)
    ensures CurrentUser(s, req).Some? ==>
      var me := CurrentUser(s, req).value;
      var n := |s.posts|;
      && h.out.Ok?
      && h.store.users == s.users && h.store.logs == s.logs
      && |h.store.posts| == n + 1 && h.store.posts[..n] == s.posts
      && h.store.posts[n].userId == me.id
      && h.store.posts[n].title == title && h.store.posts[n].content == content
      && h.store.posts[n].isPublic == isPublic && !h.store.posts[n].isDeleted
      && h.store.posts[n].createdAt == req.now && h.store.posts[n].updatedAt == req.now
      && (forall p :: p in s.posts ==> p.id < h.store.posts[n].id)
    ensures Valid(s) ==> Valid(h.store)
  {
    match CurrentUser(s, req)
    case None => Handled(Err(Unauthenticated), s)
    case Some(me) => Handled(Ok(()), InsertPost(s, NewPost(title, content, me.id, isPublic), req.now))
  }

  /** The owner-or-admin rule of edit and delete. */
  predicate MayModify(me: User, p: Post) {
    p.userId == me.id || me.isAdmin
  }

  /** The row after an edit. `updated_at` is refreshed (`onupdate`) only when a
      column actually changes. */
  function Edited(p: Post, title: string, content: string, isPublic: bool, now: nat): (q: Post)
    ensures q.title == title && q.content == content && q.isPublic == isPublic
    ensures q.id == p.id && q.userId == p.userId && q.isDeleted == p.isDeleted && q.createdAt == p.createdAt
    ensures q.updatedAt == now || q == p
  {
    var q := p.(title := title, content := content, isPublic := isPublic);
    if q == p then p else q.(updatedAt := now)
  }

  /** The row after a soft delete: flagged deleted, everything else kept;
      `updated_at` is refreshed when the flag actually changes. */
  function SoftDeleted(p: Post, now: nat): (q: Post)
    ensures q.isDeleted
    ensures q.id == p.id && q.userId == p.userId && q.title == p.title && q.content == p.content
    ensures q.isPublic == p.isPublic && q.createdAt == p.createdAt
    ensures p.isDeleted ==> q == p
    ensures !p.isDeleted ==> q.updatedAt == now
  {
    if p.isDeleted then p else p.(isDeleted := true, updatedAt := now)
  }

  /** POST /edit-post/<id>: a missing post is not found; anyone but the owner
      or an admin is refused; otherwise title, content and visibility are
      replaced in that row only. */
  function EditPost(s: Store, req: Request, postId: nat, title: string, content: string, isPublic: bool): (h: Handled<()>)
    ensures CurrentUser(s, req).None? ==> h == Handled(Err(Unauthenticated), s)
    ensures CurrentUser(s, req).Some? && PostIndex(s.posts, postId).None? ==> h == Handled(Err(NotFound), s)
    ensures CurrentUser(s, req).Some? && PostIndex(s.posts, postId).Some? ==>
      var me := CurrentUser(s, req).value;
      var i := PostIndex(s.posts, postId).value;
      && (h.out.Ok? <==> MayModify(me, s.posts[i]))
      && (!MayModify(me, s.posts[i]) ==> h == Handled(Err(PermissionDenied), s))
      && (MayModify(me, s.posts[i]) ==>
            h.store == s.(posts := s.posts[i := Edited(s.posts[i], title, content, isPublic, req.now)]))
    ensures Valid(s) ==> Valid(h.store)
  {
    match CurrentUser(s, req)
    case None => Handled(Err(Unauthenticated), s)
    case Some(me) =>
      match PostIndex(s.posts, postId)
      case None => Handled(Err(NotFound), s)
      case Some(i) =>
        if !MayModify(me, s.posts[i]) then Handled(Err(PermissionDenied), s)
        else
          var q := Edited(s.posts[i], title, content, isPublic, req.now);
          ReplaceKeepsDistinct(s.posts, i, q, PostId);
          Handled(Ok(()), s.(posts := s.posts[i := q]))
  }

  /** GET /delete-post/<id>: the same checks as edit; the row stays in the
      table, flagged deleted. */
  function DeletePost(s: Store, req: Request, postId: nat): (h: Handled<()>)
    ensures CurrentUser(s, req).None? ==> h == Handled(Err(Unauthenticated), s)
    ensures CurrentUser(s, req).Some? && PostIndex(s.posts, postId).None? ==> h == Handled(Err(NotFound), s)
    ensures CurrentUser(s, req).Some? && PostIndex(s.posts, postId).Some? ==>
      var me := CurrentUser(s, req).value;
      var i := PostIndex(s.posts, postId).value;
      && (h.out.Ok? <==> MayModify(me, s.posts[i]))
      && (!MayModify(me, s.posts[i]) ==> h == Handled(Err(PermissionDenied), s))
      && (MayModify(me, s.posts[i]) ==> h.store == s.(posts := s.posts[i := SoftDeleted(s.posts[i], req.now)]))
    ensures |h.store.posts| == |s.posts|
    ensures Valid(s) ==> Valid(h.store)
  {
    match CurrentUser(s, req)
    case None => Handled(Err(Unauthenticated), s)
    case Some(me) =>
      match PostIndex(s.posts, postId)
      case None => Handled(Err(NotFound), s)
      case Some(i) =>
        if !MayModify(me, s.posts[i]) then Handled(Err(PermissionDenied), s)
        else
          var q := SoftDeleted(s.posts[i], req.now);
          ReplaceKeepsDistinct(s.posts, i, q, PostId);
          Handled(Ok(()), s.(posts := s.posts[i := q]))
  }

  /** Deleting a post twice, by the same user and at any later time, changes
      nothing the first deletion did not. */
  lemma DeletePostIdempotent(s: Store, req1: Request, req2: Request, postId: nat)
    requires DeletePost(s, req1, postId).out.Ok?
    requires req2.viewer == req1.viewer
    ensures DeletePost(DeletePost(s, req1, postId).store, req2, postId) == DeletePost(s, req1, postId)
  {
    var s1 := DeletePost(s, req1, postId).store;
    var i := PostIndex(s.posts, postId).value;
    var q := SoftDeleted(s.posts[i], req1.now);
    PostIndexKeepsPosition(s.posts, i, q, postId);
    assert CurrentUser(s1, req2) == CurrentUser(s, req1);
    assert s1.posts[i := SoftDeleted(s1.posts[i], req2.now)] == s1.posts;
  }

  /** A deleted post never reaches the public listing, the profile page or
      the owner's own listing. */
  lemma DeletedPostsAreHidden(s: Store, req: Request, username: string, p: Post)
    requires p.isDeleted
    ensures p !in Index(s, req).out.value
    ensures MyPosts(s, req).out.Ok? ==> p !in MyPosts(s, req).out.value
    ensures UserProfile(s, req, username).out.Ok? ==> p !in UserProfile(s, req, username).out.value.posts
  {
    assert multiset(Index(s, req).out.value)[p] == 0;
    if MyPosts(s, req).out.Ok? {
      assert multiset(MyPosts(s, req).out.value)[p] == 0;
    }
    if UserProfile(s, req, username).out.Ok? {
      assert multiset(UserProfile(s, req, username).out.value.posts)[p] == 0;
    }
  }

  /** The logs a caller may see: all of them for an admin, their own otherwise. */
  function VisibleLogs(s: Store, me: User): (r: seq<AccessLog>)
    ensures forall l :: multiset(r)[l] == if me.isAdmin || l.userId == Some(me.id) then multiset(s.logs)[l] else 0
  {
    if me.isAdmin then s.logs else Filter(s.logs, LoggedFor(me.id))
  }

  /** GET /access-logs: an admin sees the newest 100 logs of anyone, anyone
      else the newest 50 of their own; the page writes no log. */
  function AccessLogsPage(s: Store, req: Request): (h: Handled<seq<AccessLog>>)
    ensures CurrentUser(s, req).None? ==> h == Handled(Err(Unauthenticated), s)
    ensures CurrentUser(s, req).Some? ==>
      var me := CurrentUser(s, req).value;
      var seen := VisibleLogs(s, me);
      var limit := if me.isAdmin then 100 else 50;
      && h.store == s
      && h.out.Ok?
      && IsTop(h.out.value, seen, LogTimestamp, limit)
  {
    match CurrentUser(s, req)
    case None => Handled(Err(Unauthenticated), s)
    case Some(me) =>
      var limit := if me.isAdmin then 100 else 50;
      Handled(Ok(TopDesc(VisibleLogs(s, me), LogTimestamp, limit)), s)
  }

  /** A non-admin's log page only ever shows rows of their own. */
  lemma AccessLogsPageIsOwnForNonAdmins(s: Store, req: Request, l: AccessLog)
    requires CurrentUser(s, req).Some? && !CurrentUser(s, req).value.isAdmin
    requires l in AccessLogsPage(s, req).out.value
    ensures l in s.logs && l.userId == Some(CurrentUser(s, req).value.id)
  {
    var me := CurrentUser(s, req).value;
    var r := AccessLogsPage(s, req).out.value;
    assert multiset(r)[l] > 0;
    assert multiset(r)[l] <= multiset(VisibleLogs(s, me))[l];
  }
}
