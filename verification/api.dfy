/** The JSON API (`app/routes/api.py`): two compliant self-reads and four
    reads that ignore the visibility rules and are audited as leaks. */
module Api {
  import opened Common
  import opened Seqs
  import opened Users
  import opened Posts
  import opened AccessLogs
  import opened Database

  /** `log_api_access`: one audit row under the request's own method, carrying
      the signed-in user's id, or none for an anonymous caller. */
  function LogApiAccess(s: Store, req: Request, endpoint: string, data: Dict,
                        isPrivacyLeak: bool := false, leakType: Option<string> := None): (r: Store)
    ensures AppendedOneLog(s, r)
    ensures Logged(Newest(r), endpoint, req.httpMethod, ViewerId(s, req), data, isPrivacyLeak, leakType)
    ensures Newest(r).userId.Some? <==> CurrentUser(s, req).Some?
    ensures StampedBy(Newest(r), req)
    ensures Valid(s) ==> Valid(r)
  {
    Audit(s, req, endpoint, req.httpMethod, ViewerId(s, req), data, isPrivacyLeak, leakType)
  }

  /** GET /api/users/me: the caller's own record with private fields; one non-leak row. */
  function UsersMe(s: Store, req: Request): (h: Handled<Dict>)
    ensures CurrentUser(s, req).None? ==> h == Handled(Err(Unauthenticated), s)
    ensures CurrentUser(s, req).Some? ==>
      var me := CurrentUser(s, req).value;
      && h.out == Ok(UserToDict(me, true))
      && "email" in h.out.value && "bio" in h.out.value
      && AppendedOneLog(s, h.store)
      && Logged(Newest(h.store), "/api/users/me", req.httpMethod, Some(me.id), map["user_id" := Int(me.id)], false, None)
    ensures Valid(s) ==> Valid(h.store)
  {
    match CurrentUser(s, req)
    case None => Handled(Err(Unauthenticated), s)
    case Some(me) =>
      Handled(Ok(UserToDict(me, true)), LogApiAccess(s, req, "/api/users/me", map["user_id" := Int(me.id)]))
  }

  /** The caller's posts that are not soft-deleted. */
  function OwnLivePosts(s: Store, userId: nat): (r: seq<Post>)
    ensures forall p :: p in r <==> p in s.posts && p.userId == userId && !p.isDeleted
    ensures forall p :: multiset(r)[p] == if p.userId == userId && !p.isDeleted then multiset(s.posts)[p] else 0
  {
    Filter(s.posts, LiveOwnedBy(userId))
  }

  /** GET /api/posts/me: the caller's non-deleted posts, with the count logged. */
  function PostsMe(s: Store, req: Request): (h: Handled<seq<Dict>>)
    ensures CurrentUser(s, req).None? ==> h == Handled(Err(Unauthenticated), s)
    ensures CurrentUser(s, req).Some? ==>
      var me := CurrentUser(s, req).value;
      && h.out == Ok(FullPostDicts(OwnLivePosts(s, me.id), s.users))
      && AppendedOneLog(s, h.store)
      && Logged(Newest(h.store), "/api/posts/me", req.httpMethod, Some(me.id),
                map["user_id" := Int(me.id), "post_count" := Int(|h.out.value|)], false, None)
    ensures Valid(s) ==> Valid(h.store)
  {
    match CurrentUser(s, req)
    case None => Handled(Err(Unauthenticated), s)
    case Some(me) =>
      var data := FullPostDicts(OwnLivePosts(s, me.id), s.users);
      Handled(Ok(data), LogApiAccess(s, req, "/api/posts/me",
                                     map["user_id" := Int(me.id), "post_count" := Int(|data|)]))
  }

  /** GET /api/users: every user with private fields, whatever their settings; logged as `email_leak`. */
  function AllUsers(s: Store, req: Request): (h: Handled<seq<Dict>>)
    ensures h.out.Ok? && |h.out.value| == |s.users|
    ensures forall k :: 0 <= k < |s.users| ==> h.out.value[k] == UserToDict(s.users[k], true)
    ensures forall k :: 0 <= k < |s.users| ==>
      "email" in h.out.value[k] && h.out.value[k]["email"] == Str(s.users[k].email)
    ensures AppendedOneLog(s, h.store)
    ensures Logged(Newest(h.store), "/api/users", req.httpMethod, ViewerId(s, req),
                   map["user_count" := Int(|s.users|)], true, Some(EmailLeak))
    ensures Valid(s) ==> Valid(h.store)
  {
    var data := FullUserDicts(s.users);
    Handled(Ok(data), LogApiAccess(s, req, "/api/users", map["user_count" := Int(|data|)], true, Some(EmailLeak)))
  }

  /** GET /api/posts: every non-deleted post, private ones included; logged as `private_post_leak`. */
  function AllPosts(s: Store, req: Request): (h: Handled<seq<Dict>>)
    ensures h.out == Ok(FullPostDicts(Filter(s.posts, IsLive), s.users))
    ensures AppendedOneLog(s, h.store)
    ensures Logged(Newest(h.store), "/api/posts", req.httpMethod, ViewerId(s, req),
                   map["post_count" := Int(|h.out.value|)], true, Some(PrivatePostLeak))
    ensures Valid(s) ==> Valid(h.store)
  {
    var data := FullPostDicts(Filter(s.posts, IsLive), s.users);
    Handled(Ok(data), LogApiAccess(s, req, "/api/posts", map["post_count" := Int(|data|)], true, Some(PrivatePostLeak)))
  }

  /** GET /api/users/<id>: any user's full record, with no ownership check;
      a missing id is not found and writes nothing. */
  function UserById(s: Store, req: Request, userId: nat): (h: Handled<Dict>)
    ensures FindUser(s.users, userId).None? ==> h == Handled(Err(NotFound), s)
    ensures FindUser(s.users, userId).Some? ==>
      && h.out == Ok(UserToDict(FindUser(s.users, userId).value, true))
      && AppendedOneLog(s, h.store)
      && Logged(Newest(h.store), "/api/users/" + NatToString(userId), req.httpMethod, ViewerId(s, req),
                map["user_id" := Int(userId)], true, Some(UserDetailLeak))
    ensures Valid(s) ==> Valid(h.store)
  {
    match FindUser(s.users, userId)
    case None => Handled(Err(NotFound), s)
    case Some(u) =>
      Handled(Ok(UserToDict(u, true)),
              LogApiAccess(s, req, "/api/users/" + NatToString(userId), map["user_id" := Int(userId)],
                           true, Some(UserDetailLeak)))
  }

  /** GET /api/posts/all: every post row, soft-deleted ones included; logged as `deleted_post_leak`. */
  function AllPostsIncludingDeleted(s: Store, req: Request): (h: Handled<seq<Dict>>)
    ensures h.out == Ok(FullPostDicts(s.posts, s.users))
    ensures forall k :: 0 <= k < |s.posts| ==> h.out.value[k]["is_deleted"] == Bool(s.posts[k].isDeleted)
    ensures AppendedOneLog(s, h.store)
    ensures Logged(Newest(h.store), "/api/posts/all", req.httpMethod, ViewerId(s, req),
                   map["post_count" := Int(|s.posts|)], true, Some(DeletedPostLeak))
    ensures Valid(s) ==> Valid(h.store)
  {
    var data := FullPostDicts(s.posts, s.users);
    Handled(Ok(data), LogApiAccess(s, req, "/api/posts/all", map["post_count" := Int(|data|)],
                                   true, Some(DeletedPostLeak)))
  }

  /** Whoever asks, /api/posts exposes every private post that is not deleted,
      with its `is_public` flag. */
  lemma AllPostsLeaksPrivatePosts(s: Store, req: Request, p: Post)
    requires p in s.posts && !p.isDeleted
    ensures exists k ::
              && 0 <= k < |AllPosts(s, req).out.value|
              && AllPosts(s, req).out.value[k]["id"] == Int(p.id)
              && AllPosts(s, req).out.value[k]["is_public"] == Bool(p.isPublic)
  {
    var live := Filter(s.posts, IsLive);
    assert p in live;
    var k :| 0 <= k < |live| && live[k] == p;
    assert AllPosts(s, req).out.value[k] == FullPostDict(p, s.users);
  }

  /** /api/posts never returns a soft-deleted row, while /api/posts/all returns
      every row with its deleted flag. */
  lemma DeletedPostsOnlyInAll(s: Store, req: Request)
    ensures forall k :: 0 <= k < |AllPosts(s, req).out.value| ==>
      AllPosts(s, req).out.value[k]["is_deleted"] == Bool(false)
    ensures |AllPostsIncludingDeleted(s, req).out.value| == |s.posts|
  {
    var live := Filter(s.posts, IsLive);
    forall k | 0 <= k < |live|
      ensures !live[k].isDeleted
    {
      assert live[k] in live;
    }
  }

  /** Each of the four leaking reads appends exactly one row, flagged as a
      leak with a tag from the API vocabulary. */
  lemma LeakingReadsAreTagged(s: Store, req: Request, userId: nat)
    ensures Newest(AllUsers(s, req).store).isPrivacyLeak
    ensures Newest(AllUsers(s, req).store).leakType.value in ApiLeakTypes
    ensures Newest(AllPosts(s, req).store).isPrivacyLeak
    ensures Newest(AllPosts(s, req).store).leakType.value in ApiLeakTypes
    ensures Newest(AllPostsIncludingDeleted(s, req).store).isPrivacyLeak
    ensures Newest(AllPostsIncludingDeleted(s, req).store).leakType.value in ApiLeakTypes
    ensures UserById(s, req, userId).out.Ok? ==>
      Newest(UserById(s, req, userId).store).isPrivacyLeak &&
      Newest(UserById(s, req, userId).store).leakType.value in ApiLeakTypes
  {
  }
}
