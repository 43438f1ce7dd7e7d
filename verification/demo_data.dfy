/** The demo fixture (`app/models/demo_data.py`): four users with different
    privacy settings and seven posts, written only into an empty user table. */
module DemoData {
  import opened Common
  import opened Seqs
  import opened Users
  import opened Posts
  import opened Database
  import Api

  /** The administrator: bio shown, email hidden. */
  function AdminAccount(): (u: User)
    ensures u.username == "admin" && u.isAdmin && !u.emailPublic && u.bioPublic && u.bio.Some?
  {
    NewUser("admin", "admin@example.com", "adminpass", Some("System administrator"), true)
      .(emailPublic := false, bioPublic := true)
  }

  /** alice: email and bio both public. */
  function Alice(): (u: User)
    ensures u.username == "alice" && !u.isAdmin && u.emailPublic && u.bioPublic && u.bio.Some?
  {
    NewUser("alice", "alice@example.com", "alicepass", Some("Hi, I'm Alice! I love sharing my thoughts and ideas."))
      .(emailPublic := true, bioPublic := true)
  }

  /** bob: bio public, email hidden. */
  function Bob(): (u: User)
    ensures u.username == "bob" && !u.isAdmin && !u.emailPublic && u.bioPublic && u.bio.Some?
  {
    NewUser("bob", "bob@example.com", "bobpass", Some("Privacy advocate. I keep my information private."))
      .(emailPublic := false, bioPublic := true)
  }

  /** charlie: email and bio both hidden. */
  function Charlie(): (u: User)
    ensures u.username == "charlie" && u.email == "charlie@example.com"
    ensures !u.isAdmin && !u.emailPublic && !u.bioPublic && u.bio.Some?
  {
    NewUser("charlie", "charlie@example.com", "charliepass", Some("Very private person. Please respect my privacy."))
      .(emailPublic := false, bioPublic := false)
  }

  /** The shape of the fixture's accounts: admin, alice, bob and charlie in
      that order, with their admin bit and visibility flags. */
  ghost predicate FixtureAccounts(us: seq<User>) {
    && |us| == 4
    && us[0].username == "admin" && us[0].isAdmin && !us[0].emailPublic && us[0].bioPublic
    && us[1].username == "alice" && !us[1].isAdmin && us[1].emailPublic && us[1].bioPublic
    && us[2].username == "bob" && !us[2].isAdmin && !us[2].emailPublic && us[2].bioPublic
    && us[3].username == "charlie" && !us[3].isAdmin && !us[3].emailPublic && !us[3].bioPublic
    && us[3].email == "charlie@example.com"
  }

  /** The fixture's accounts, in insertion order. */
  function SeedUsers(): (us: seq<User>)
    ensures FixtureAccounts(us)
    ensures forall k :: 0 <= k < |us| ==> us[k].bio.Some?
  {
    [AdminAccount(), Alice(), Bob(), Charlie()]
  }

  /** The shape of the fixture's posts: owner id, visibility and soft-delete
      flag of each, in insertion order. */
  ghost predicate FixturePosts(ps: seq<Post>) {
    && |ps| == 7
    && ps[0].userId == 2 && ps[0].isPublic && !ps[0].isDeleted
    && ps[1].userId == 2 && !ps[1].isPublic && !ps[1].isDeleted
    && ps[2].userId == 3 && ps[2].isPublic && !ps[2].isDeleted
    && ps[3].userId == 3 && !ps[3].isPublic && !ps[3].isDeleted
    && ps[4].userId == 4 && ps[4].isPublic && !ps[4].isDeleted
    && ps[5].userId == 4 && !ps[5].isPublic && !ps[5].isDeleted
    && ps[6].userId == 2 && ps[6].isPublic && ps[6].isDeleted
  }

  /** A fixture post with its owner id and flags. */
  function SeedPost(title: string, content: string, owner: nat, isPublic: bool, isDeleted: bool): (p: Post)
    ensures p.title == title && p.content == content
    ensures p.userId == owner && p.isPublic == isPublic && p.isDeleted == isDeleted
  {
    NewPost(title, content, owner, isPublic).(isDeleted := isDeleted)
  }

  function HelloWorld(): (p: Post)
    ensures p.userId == 2 && p.isPublic && !p.isDeleted
  {
    SeedPost("Hello World!", "This is my first public post on this platform!", 2, true, false)
  }

  function PrivateThoughts(): (p: Post)
    ensures p.userId == 2 && !p.isPublic && !p.isDeleted
  {
    SeedPost("My Private Thoughts", "This is a private post that only I should be able to see.", 2, false, false)
  }

  function PrivacyMatters(): (p: Post)
    ensures p.userId == 3 && p.isPublic && !p.isDeleted
  {
    SeedPost("Privacy Matters", "Here's why privacy is important in the digital age...", 3, true, false)
  }

  function SecretProject(): (p: Post)
    ensures p.userId == 3 && !p.isPublic && !p.isDeleted
  {
    SeedPost("My Secret Project", "I'm working on something exciting but want to keep it private for now.", 3, false, false)
  }

  function LimitedSharing(): (p: Post)
    ensures p.userId == 4 && p.isPublic && !p.isDeleted
  {
    SeedPost("Limited Sharing", "I'm only sharing this with trusted friends.", 4, true, false)
  }

  function PersonalNotes(): (p: Post)
    ensures p.userId == 4 && !p.isPublic && !p.isDeleted
  {
    SeedPost("Personal Notes", "These are my personal notes that should remain private.", 4, false, false)
  }

  function MarkedDeleted(): (p: Post)
    ensures p.userId == 2 && p.isPublic && p.isDeleted
  {
    SeedPost("Post Marked as Deleted", "This post was 'deleted' but still exists in the database.", 2, true, true)
  }

  /** The fixture's posts, in insertion order, owned through the hard-coded
      user ids 2 (alice), 3 (bob) and 4 (charlie). */
  function SeedPosts(): (ps: seq<Post>)
    ensures FixturePosts(ps)
  {
    [HelloWorld(), PrivateThoughts(), PrivacyMatters(), SecretProject(), LimitedSharing(), PersonalNotes(), MarkedDeleted()]
  }

  /** Row ids 1, 2, 3, ... in insertion order, as SQLite assigns them to a
      table that started empty. */
  ghost predicate Sequential(users: seq<User>) {
    forall k :: 0 <= k < |users| ==> users[k].id == k + 1
  }

  /** Writes row number `n` and the insert time into an account. */
  function StampUser(now: nat): (User, nat) -> User {
    (u: User, n: nat) => u.(id := n, createdAt := now)
  }

  /** Writes row number `n` and both timestamps into a post. */
  function StampPost(now: nat): (Post, nat) -> Post {
    (p: Post, n: nat) => p.(id := n, createdAt := now, updatedAt := now)
  }

  /** Adds the users in order in one commit; the row ids continue from the
      table's next id, one per row. */
  function InsertUsers(s: Store, us: seq<User>, now: nat): (r: Store)
    ensures r.posts == s.posts && r.logs == s.logs
    ensures |r.users| == |s.users| + |us|
    ensures forall k :: 0 <= k < |s.users| ==> r.users[k] == s.users[k]
    ensures forall k :: 0 <= k < |us| ==>
      r.users[|s.users| + k] == us[k].(id := NextId(s.users, UserId) + k, createdAt := now)
    ensures |s.users| == 0 ==> Sequential(r.users)
  {
    var base := NextId(s.users, UserId);
    var rows := Numbered(us, base, StampUser(now));
    AppendNumbered(s.users, us, base, StampUser(now));
    StampedFromOne(s.users, us, base, now);
    s.(users := s.users + rows)
  }

  /** Rows stamped from id 1 onto an empty table are numbered 1, 2, ... */
  lemma StampedFromOne(users: seq<User>, us: seq<User>, base: nat, now: nat)
    requires |users| == 0 ==> base == 1
    ensures var rows := Numbered(us, base, StampUser(now));
      |users| == 0 ==> Sequential(users + rows)
  {
    var rows := Numbered(us, base, StampUser(now));
    if |users| == 0 {
      assert users + rows == rows;
      forall k | 0 <= k < |rows| ensures rows[k].id == k + 1 {
        assert rows[k] == StampUser(now)(us[k], base + k);
      }
    }
  }

  /** Adds the posts in order in one commit, both timestamps `now`; the row
      ids continue from the table's next id. */
  function InsertPosts(s: Store, ps: seq<Post>, now: nat): (r: Store)
    ensures r.users == s.users && r.logs == s.logs
    ensures |r.posts| == |s.posts| + |ps|
    ensures forall k :: 0 <= k < |s.posts| ==> r.posts[k] == s.posts[k]
    ensures forall k :: 0 <= k < |ps| ==>
      r.posts[|s.posts| + k] == ps[k].(id := NextId(s.posts, PostId) + k, createdAt := now, updatedAt := now)
  {
    var base := NextId(s.posts, PostId);
    var rows := Numbered(ps, base, StampPost(now));
    AppendNumbered(s.posts, ps, base, StampPost(now));
    s.(posts := s.posts + rows)
  }

  /** The one-commit insert is the same as inserting the rows one at a time,
      each getting the next row id. */
  lemma InsertUsersOneByOne(s: Store, us: seq<User>, now: nat)
    requires |us| > 0
    ensures InsertUsers(s, us, now) == InsertUsers(InsertUser(s, us[0], now), us[1..], now)
  {
    NumberedOneByOne(s.users, us, UserId, StampUser(now));
  }

  /** The same for posts. */
  lemma InsertPostsOneByOne(s: Store, ps: seq<Post>, now: nat)
    requires |ps| > 0
    ensures InsertPosts(s, ps, now) == InsertPosts(InsertPost(s, ps[0], now), ps[1..], now)
  {
    NumberedOneByOne(s.posts, ps, PostId, StampPost(now));
  }

  /** `initialize_demo_data` with the fixture rows as parameters: nothing
      happens once any user exists; otherwise the accounts get ids 1, 2, ...
      and the posts follow, all in one commit at `now`. */
  function SeedFrom(s: Store, now: nat, us: seq<User>, ps: seq<Post>): (r: Store)
    ensures |s.users| > 0 ==> r == s
    ensures |s.users| == 0 ==>
      && |r.users| == |us| && Sequential(r.users)
      && (forall k :: 0 <= k < |us| ==> r.users[k] == us[k].(id := k + 1, createdAt := now))
      && |r.posts| == |s.posts| + |ps|
      && (forall k :: 0 <= k < |s.posts| ==> r.posts[k] == s.posts[k])
      && (forall k :: 0 <= k < |ps| ==>
            AddedPost(s, r, k) == ps[k].(id := NextId(s.posts, PostId) + k, createdAt := now, updatedAt := now))
      && r.logs == s.logs
  {
    if |s.users| > 0 then s
    else
      var withUsers := InsertUsers(s, us, now);
      FirstAccounts(s, us, now);
      var r := InsertPosts(withUsers, ps, now);
      assert forall k :: 0 <= k < |ps| ==> AddedPost(s, r, k) == r.posts[|withUsers.posts| + k];
      r
  }

  /** A bulk insert keeps the account ids distinct. */
  lemma InsertUsersKeepsValid(s: Store, us: seq<User>, now: nat)
    requires Valid(s)
    ensures Valid(InsertUsers(s, us, now))
  {
    var base := NextId(s.users, UserId);
    var rows := Numbered(us, base, StampUser(now));
    assert forall k :: 0 <= k < |us| ==> rows[k] == StampUser(now)(us[k], base + k);
    BlockKeepsDistinct(s.users, rows, UserId, base);
  }

  /** A bulk insert keeps the post ids distinct. */
  lemma InsertPostsKeepsValid(s: Store, ps: seq<Post>, now: nat)
    requires Valid(s)
    ensures Valid(InsertPosts(s, ps, now))
  {
    var base := NextId(s.posts, PostId);
    var rows := Numbered(ps, base, StampPost(now));
    assert forall k :: 0 <= k < |ps| ==> rows[k] == StampPost(now)(ps[k], base + k);
    BlockKeepsDistinct(s.posts, rows, PostId, base);
  }

  /** The seed keeps every table's row ids distinct. */
  lemma SeedKeepsValid(s: Store, now: nat, us: seq<User>, ps: seq<Post>)
    requires Valid(s)
    ensures Valid(SeedFrom(s, now, us, ps))
  {
    if |s.users| == 0 {
      InsertUsersKeepsValid(s, us, now);
      InsertPostsKeepsValid(InsertUsers(s, us, now), ps, now);
    }
  }

  /** The `j`-th post a seed added after the posts `s` already had. */
  ghost function AddedPost(s: Store, r: Store, j: nat): Post
    requires |s.posts| + j < |r.posts|
  {
    r.posts[|s.posts| + j]
  }

  /** Accounts inserted into an empty table are numbered from 1. */
  lemma FirstAccounts(s: Store, us: seq<User>, now: nat)
    requires |s.users| == 0
    ensures var r := InsertUsers(s, us, now);
      && |r.users| == |us| && Sequential(r.users)
      && (forall k :: 0 <= k < |us| ==> r.users[k] == us[k].(id := k + 1, createdAt := now))
  {
    var r := InsertUsers(s, us, now);
    assert NextId(s.users, UserId) == 1;
    forall k | 0 <= k < |us|
      ensures r.users[k] == us[k].(id := k + 1, createdAt := now)
    {
      assert r.users[|s.users| + k] == us[k].(id := NextId(s.users, UserId) + k, createdAt := now);
    }
  }

  /** `initialize_demo_data`: a no-op once any user exists. On an empty user
      table the four fixture accounts get ids 1 to 4, the seven fixture posts
      follow the existing posts with their owners and flags, and no log is
      written. */
  function Seed(s: Store, now: nat): (r: Store)
    ensures |s.users| > 0 ==> r == s
    ensures |s.users| == 0 ==>
      && FixtureAccounts(r.users) && Sequential(r.users)
      && |r.posts| == |s.posts| + 7 && r.posts[..|s.posts|] == s.posts
      && FixturePosts(r.posts[|s.posts|..])
      && r.logs == s.logs
    ensures Valid(s) ==> Valid(r)
  {
    SeedFacts(s, now, SeedUsers(), SeedPosts());
    SeedFrom(s, now, SeedUsers(), SeedPosts())
  }

  /** Whatever fixture lists satisfy the fixture predicates, the seeded store
      holds them with their flags, and ids stay distinct. */
  lemma SeedFacts(s: Store, now: nat, us: seq<User>, ps: seq<Post>)
    requires FixtureAccounts(us) && FixturePosts(ps)
    ensures var r := SeedFrom(s, now, us, ps);
      && (|s.users| == 0 ==>
            && FixtureAccounts(r.users) && Sequential(r.users)
            && |r.posts| == |s.posts| + 7 && r.posts[..|s.posts|] == s.posts
            && FixturePosts(r.posts[|s.posts|..])
            && r.logs == s.logs)
      && (Valid(s) ==> Valid(r))
  {
    var r := SeedFrom(s, now, us, ps);
    if Valid(s) {
      SeedKeepsValid(s, now, us, ps);
    }
    if |s.users| == 0 {
      var added := r.posts[|s.posts|..];
      forall k | 0 <= k < 7
        ensures added[k].userId == ps[k].userId && added[k].isPublic == ps[k].isPublic
             && added[k].isDeleted == ps[k].isDeleted
      {
        assert added[k] == AddedPost(s, r, k);
      }
      assert r.posts[..|s.posts|] == s.posts;
    }
  }

  /** In a table numbered 1, 2, 3, ... the account with id `i` is row `i - 1`. */
  lemma SequentialFind(users: seq<User>, id: nat)
    requires Sequential(users) && 1 <= id <= |users|
    ensures FindUser(users, id) == Some(users[id - 1])
  {
    assert users[id - 1].id == id;
    var i := UserIndex(users, id);
    assert i.Some?;
    assert users[i.value].id == i.value + 1;
  }

  /** A fresh seed holds exactly the four fixture accounts, numbered 1 to 4,
      with their flags. */
  lemma SeededAccounts(s: Store, now: nat, us: seq<User>, ps: seq<Post>)
    requires |s.users| == 0 && FixtureAccounts(us)
    ensures var r := SeedFrom(s, now, us, ps);
      && |r.users| == 4
      && r.users[0].id == 1 && r.users[0].username == "admin" && r.users[0].isAdmin
      && !r.users[0].emailPublic && r.users[0].bioPublic
      && r.users[1].id == 2 && r.users[1].username == "alice" && !r.users[1].isAdmin
      && r.users[1].emailPublic && r.users[1].bioPublic
      && r.users[2].id == 3 && r.users[2].username == "bob" && !r.users[2].isAdmin
      && !r.users[2].emailPublic && r.users[2].bioPublic
      && r.users[3].id == 4 && r.users[3].username == "charlie" && !r.users[3].isAdmin
      && !r.users[3].emailPublic && !r.users[3].bioPublic
  {
  }

  /** The hard-coded owner ids resolve to the intended accounts on a fresh
      seed: alice owns posts 0, 1 and 6, bob 2 and 3, charlie 4 and 5. */
  lemma SeedAuthors(s: Store, now: nat, us: seq<User>, ps: seq<Post>)
    requires |s.users| == 0 && FixtureAccounts(us) && FixturePosts(ps)
    ensures var r := SeedFrom(s, now, us, ps);
      && |r.users| == 4 && |r.posts| == |s.posts| + 7
      && r.users[1].username == "alice" && r.users[2].username == "bob" && r.users[3].username == "charlie"
      && AuthorOf(r.users, AddedPost(s, r, 0)) == Some(r.users[1])
      && AuthorOf(r.users, AddedPost(s, r, 1)) == Some(r.users[1])
      && AuthorOf(r.users, AddedPost(s, r, 2)) == Some(r.users[2])
      && AuthorOf(r.users, AddedPost(s, r, 3)) == Some(r.users[2])
      && AuthorOf(r.users, AddedPost(s, r, 4)) == Some(r.users[3])
      && AuthorOf(r.users, AddedPost(s, r, 5)) == Some(r.users[3])
      && AuthorOf(r.users, AddedPost(s, r, 6)) == Some(r.users[1])
  {
    var r := SeedFrom(s, now, us, ps);
    SequentialFind(r.users, 2);
    SequentialFind(r.users, 3);
    SequentialFind(r.users, 4);
  }

  /** In the fixture list, owner `owner` has its public live post at
      `2 * (owner - 2)` and its private one right after. */
  lemma FixtureOwnerPosts(ps: seq<Post>, owner: nat)
    requires FixturePosts(ps) && 2 <= owner <= 4
    ensures forall j :: 0 <= j < |ps| ==>
      (ps[j].userId == owner && ps[j].isPublic && !ps[j].isDeleted <==> j == 2 * (owner - 2))
    ensures forall j :: 0 <= j < |ps| ==>
      (ps[j].userId == owner && !ps[j].isPublic && !ps[j].isDeleted <==> j == 2 * (owner - 2) + 1)
  {
    forall j | 0 <= j < |ps|
      ensures ps[j].userId == owner && ps[j].isPublic && !ps[j].isDeleted <==> j == 2 * (owner - 2)
      ensures ps[j].userId == owner && !ps[j].isPublic && !ps[j].isDeleted <==> j == 2 * (owner - 2) + 1
    {
      if j == 0 {} else if j == 1 {} else if j == 2 {} else if j == 3 {} else if j == 4 {} else if j == 5 {} else {}
    }
  }

  /** Each of alice (2), bob (3) and charlie (4) gets exactly one public and
      one private live post among the seeded ones. */
  lemma SeedOwnerPosts(s: Store, now: nat, us: seq<User>, ps: seq<Post>, owner: nat)
    requires |s.users| == 0 && FixturePosts(ps)
    requires 2 <= owner <= 4
    ensures var r := SeedFrom(s, now, us, ps);
      && |r.posts| == |s.posts| + 7
      && (forall j :: 0 <= j < 7 ==>
            (var p := AddedPost(s, r, j); p.userId == owner && p.isPublic && !p.isDeleted <==> j == 2 * (owner - 2)))
      && (forall j :: 0 <= j < 7 ==>
            (var p := AddedPost(s, r, j); p.userId == owner && !p.isPublic && !p.isDeleted <==> j == 2 * (owner - 2) + 1))
  {
    FixtureOwnerPosts(ps, owner);
  }

  /** Only the last fixture post is marked deleted. */
  lemma FixtureOneDeleted(ps: seq<Post>)
    requires FixturePosts(ps)
    ensures forall j :: 0 <= j < |ps| ==> (ps[j].isDeleted <==> j == 6)
  {
    forall j | 0 <= j < |ps|
      ensures ps[j].isDeleted <==> j == 6
    {
      if j == 0 {} else if j == 1 {} else if j == 2 {} else if j == 3 {} else if j == 4 {} else if j == 5 {} else {}
    }
  }

  /** Exactly one seeded post is soft-deleted: alice's public one. */
  lemma SeedOneDeleted(s: Store, now: nat, us: seq<User>, ps: seq<Post>)
    requires |s.users| == 0 && FixtureAccounts(us) && FixturePosts(ps)
    ensures var r := SeedFrom(s, now, us, ps);
      && |r.posts| == |s.posts| + 7
      && (forall j :: 0 <= j < 7 ==> (AddedPost(s, r, j).isDeleted <==> j == 6))
      && |r.users| == 4
      && AddedPost(s, r, 6).isPublic && AddedPost(s, r, 6).userId == r.users[1].id && r.users[1].username == "alice"
  {
    var r := SeedFrom(s, now, us, ps);
    FixtureOneDeleted(ps);
    forall j | 0 <= j < 7
      ensures AddedPost(s, r, j).isDeleted <==> j == 6
    {
      assert AddedPost(s, r, j).isDeleted == ps[j].isDeleted;
    }
    assert AddedPost(s, r, 6).userId == ps[6].userId;
    assert r.users[1] == us[1].(id := 2, createdAt := now);
  }

  /** On a fresh seed charlie's public profile shows neither bio nor email,
      yet the leaking user listing returns his email. */
  lemma SeedShowsEmailLeak(s: Store, now: nat, us: seq<User>, ps: seq<Post>, req: Request)
    requires |s.users| == 0 && FixtureAccounts(us)
    ensures var r := SeedFrom(s, now, us, ps);
      && |r.users| == 4
      && "email" !in UserToDict(r.users[3], false)
      && "bio" !in UserToDict(r.users[3], false)
      && Api.AllUsers(r, req).out.value[3]["email"] == Str("charlie@example.com")
  {
  }
}
