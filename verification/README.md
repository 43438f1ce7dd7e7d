# PrivacyAwareDemo: a Dafny model of the data-privacy core

PrivacyAwareDemo is a small Flask application that demonstrates privacy
leaks. It has three tables (users, posts, access logs), a set of web and
JSON routes over them, and a "scraper" that replays the leaking API. Every
read of interest is audited with an access-log row tagged by leak type.
This project models the logic under the HTTP plumbing and proves its
properties:

- **Records and visibility.** `User.to_dict` and `Post.to_dict` decide which
  fields a dictionary view carries and whether a soft-deleted post appears
  at all. `AccessLog.to_dict` shows every column. These live in modules
  `Users`, `Posts` and `AccessLogs`.
- **Store-level handlers.** A `Store` holds the three tables as sequences in
  row-id order (module `Database`). Every route handler of `api.py`,
  `main.py`, `auth.py` and `admin.py` is a pure function from a store and a
  `Request` to `Handled(out, store)`:
  - `out` is a `Result` whose error cases name each failure the route can
    produce;
  - `store` is the store the route leaves behind.

  The contracts state:
  - which rows a read returns;
  - that a logging route appends exactly one audit row with fixed columns and
    leak tag, and that the not-found and failure paths write none;
  - the owner-or-admin rule for edits and soft deletes;
  - the hard-delete cascade of an account;
  - that row ids stay distinct (`Valid`).
- **The scraper** (module `Scraper`). The start, stop and status controls act
  on the `(running, results)` pair. The scripted run is a phase machine
  stepped one progress entry at a time, so stop requests can be
  interleaved between steps.
- **The demo seed** (module `DemoData`). `initialize_demo_data` is modelled
  as a function from a store to the fixture store.

The request context is explicit:
- the user id held by the session;
- the client address and user agent;
- a clock value `now`.

The signed-in user is re-read from the user table the way the login
manager's user loader does. A session whose account is gone is anonymous.
Row ids follow the row-id rule of the database (largest id plus one, 1 for an
empty table).

Design notes where the code decides against a plainer reading:
- **The scraper's stop request does not cancel the run.** The run raises the
  flag once and never reads it again (`app/routes/scraper.py:126-268`).
  `Scraper.StopDoesNotShortenRun` proves that any schedule of stop requests
  leaves the step sequence and the final results unchanged. So a status
  read after a stop can still see the results grow. A cooperative
  cancellation checked between steps is not what the code does.
- **`updated_at` has an `onupdate` default.** An edit or soft delete refreshes
  it exactly when a column actually changes, because no UPDATE is issued
  otherwise. A soft delete therefore changes `is_deleted` and `updated_at`,
  and deleting an already deleted post changes nothing.
- **The admin user editor does not check uniqueness itself.** The username
  and email columns are declared unique (`app/models/user.py:8-9`), so a
  clashing edit makes the commit fail and the session roll back. This is
  modelled as `UniqueViolation` with the store unchanged.
- **The run's step 2 and step 3 read `post.author.username`,** and step 4
  reads `user_obj.id`. These raise when the referenced row is missing. These
  are the only faults the run can meet, and the model produces the
  interpreter's error text for each.

## Model

| member | source | states |
|---|---|---|
| Common.HashPassword | app/models/user.py:29-33 | a stored credential accepts exactly the password it was made from |
| Users.NewUser | app/models/user.py:12-27 | a new account keeps the given name, email and bio, accepts exactly its password, is an admin only when asked, and has email hidden and bio shown |
| Users.UserToDict | app/models/user.py:35-57 | id, username, created_at and is_admin are always present; bio is present iff bio_public or private data is requested; email is present iff email_public or private data is requested; the two privacy flags are present iff private data is requested; every value is the stored column |
| Users.UserToDictMonotone | app/models/user.py:35-57 | the private view contains every key of the public view, with the same value |
| Posts.NewPost | app/models/post.py:8-20 | a new post keeps title, content, owner and the requested visibility, and is not deleted |
| Posts.PostToDict | app/models/post.py:22-43 | the result is absent iff the post is deleted and private data is not requested; otherwise the seven core keys carry the stored values; author_username is null iff the post has no author row; is_public and is_deleted are present iff private data is requested |
| Posts.PostToDictIgnoresIsPublic | app/models/post.py:22-43 | a non-deleted post always yields a dictionary, and flipping its is_public flag does not change the public view |
| AccessLogs.NewAccessLog | app/models/access_log.py:16-25 | every constructor argument lands unchanged in the column of the same name |
| AccessLogs.NewAccessLogDefaults | app/models/access_log.py:16-17 | without the optional arguments a log names no user, is not a leak and has no leak type |
| AccessLogs.LogToDict | app/models/access_log.py:27-39 | the view has exactly the ten column keys and reading it back yields the same log (round trip) |
| Database.FindUser | app/models/user.py:59-61 | the lookup by id finds a row of the table with that id, and finds none exactly when no row has it |
| Database.CurrentUser | app/models/user.py:59-61 | the signed-in user is a row of the table whose id the session holds; the caller is anonymous iff there is no session id or no row with it |
| Database.InsertUser | app/routes/auth.py:80-81 | one row is appended after the existing ones, with an id above every existing id (1 on an empty table), stamped now; the other tables are untouched and ids stay distinct |
| Database.InsertPost | app/routes/main.py:98-100 | one post is appended with an id above every existing post id and both timestamps now; the other tables are untouched and ids stay distinct |
| Database.InsertLog | app/routes/api.py:28-29 | exactly one log is appended, under a fresh id and stamped now; users and posts are untouched |
| Database.Audit | app/routes/main.py:22-31 | exactly one row is appended, carrying the given endpoint, method, user, payload and leak columns and the request's address, agent and time |
| Api.LogApiAccess | app/routes/api.py:12-29 | exactly one row is appended, under the endpoint and the request's own HTTP method; its user_id is set iff the caller is signed in, and is then the caller's id |
| Api.UsersMe | app/routes/api.py:32-42 | an anonymous caller is refused with nothing written; otherwise the caller's own private view (email and bio included) is returned and one non-leak row names the caller |
| Api.OwnLivePosts | app/routes/api.py:47 | exactly the caller's posts that are not soft-deleted, with their multiplicities |
| Api.PostsMe | app/routes/api.py:44-55 | the caller's non-deleted posts in their private view; the logged post_count equals the number returned; one non-leak row |
| Api.AllUsers | app/routes/api.py:60-75 | every user is returned with the private view, email included whatever email_public says; one row tagged email_leak |
| Api.AllPosts | app/routes/api.py:78-93 | every non-deleted post is returned, private ones included; one row tagged private_post_leak |
| Api.UserById | app/routes/api.py:96-111 | an unknown id is not found and writes nothing; a known id returns that user's private view to any caller and writes one user_detail_leak row |
| Api.AllPostsIncludingDeleted | app/routes/api.py:114-129 | every post row is returned with its deleted flag visible; one row tagged deleted_post_leak |
| Api.AllPostsLeaksPrivatePosts | app/routes/api.py:78-93 | whoever asks, every live post, private or not, appears in the answer with its is_public flag |
| Api.DeletedPostsOnlyInAll | app/routes/api.py:78-129 | the live listing never contains a deleted row, while the full dump has one entry per post row |
| Api.LeakingReadsAreTagged | app/routes/api.py:60-129 | each of the four leaking reads appends a row flagged as a leak, with a tag from the API vocabulary |
| Site.Index | app/routes/main.py:11-33 | exactly the public non-deleted posts, newest first; one non-leak row naming the caller if signed in |
| Site.UserProfile | app/routes/main.py:35-68 | an unknown name is not found and writes nothing; otherwise exactly that user's public non-deleted posts, newest first, with show_email and show_bio equal to the owner's settings, and one non-leak row |
| Site.MyPosts | app/routes/main.py:70-88 | the caller's non-deleted posts, private ones included, newest first, and one non-leak row naming the caller |
| Site.CreatePost | app/routes/main.py:90-105 | exactly one post is added, owned by the caller, with the form's title, content and visibility, not deleted, both timestamps the request's time; nothing else changes and nothing is logged |
| Site.Edited | app/routes/main.py:117-122 | title, content and visibility take the form values; id, owner, deleted flag and creation time are kept; updated_at is refreshed unless nothing changed |
| Site.SoftDeleted | app/routes/main.py:138-140 | the row is flagged deleted and every other content column is kept; an already deleted row is returned unchanged |
| Site.EditPost | app/routes/main.py:107-126 | a missing post is not found; the edit succeeds iff the caller owns the post or is an admin; a refusal changes nothing; success rewrites only that row |
| Site.DeletePost | app/routes/main.py:128-143 | the same checks as edit; on success only that row changes, to its soft-deleted form, and the table keeps its length |
| Site.DeletePostIdempotent | app/routes/main.py:128-143 | repeating a successful delete, at any later time, changes nothing more |
| Site.DeletedPostsAreHidden | app/routes/main.py:11-88 | a deleted post never appears on the index, a profile page or the owner's own listing |
| Site.VisibleLogs | app/routes/main.py:148-152 | an admin sees every log; anyone else exactly the logs naming them |
| Site.AccessLogsPage | app/routes/main.py:145-154 | the newest 100 logs of anyone for an admin, the newest 50 of their own for anyone else, newest first, drawn from the visible logs with nothing newer left out; the page writes nothing |
| Site.AccessLogsPageIsOwnForNonAdmins | app/routes/main.py:151-152 | every row a non-admin sees on the log page is a stored row naming them |
| Auth.Login | app/routes/auth.py:11-44 | a signed-in caller is sent away; otherwise login succeeds iff a user with that name exists and the password matches; success writes one row naming that user and failure writes nothing |
| Auth.Register | app/routes/auth.py:53-86 | a taken username is refused first, then a taken email, both writing nothing; otherwise exactly one non-admin account is appended with the form's values and flags, accepting exactly the given password; unique accounts stay unique |
| Auth.RegisterThenLogin | app/routes/auth.py:11-86 | an anonymous login with the credentials just registered signs in as the new account |
| Auth.WithPassword | app/routes/auth.py:97-100 | the password changes only when a non-empty new one is given, and the new hash then accepts exactly it; nothing else changes |
| Auth.ViewerIndex | app/routes/auth.py:88-90 | a position exists iff someone is signed in, and names the signed-in user's row |
| Auth.Profile | app/routes/auth.py:88-105 | bio and both flags are overwritten in the caller's row only, with the password handled as above; other tables are unchanged |
| Auth.RemoveUser | app/routes/auth.py:132-133 | the user table keeps every row whose id differs, with its multiplicity, and no row with the id |
| Auth.RemovePostsOf | app/routes/auth.py:120-125 | every post by the user, soft-deleted or not, is removed, and every other post is kept |
| Auth.RemoveLogsOf | app/routes/auth.py:127-130 | every log naming the user is removed, and every other log is kept |
| Auth.DeleteAccount | app/routes/auth.py:107-142 | a wrong password changes nothing; the right one removes the caller's account, all of the caller's posts and all logs naming the caller, and keeps every other row |
| Auth.DeletedAccountLeavesNoPosts | app/routes/auth.py:107-142 | after deletion the session is anonymous and even the full post dump contains no post of the deleted account |
| Admin.AdminGate | app/routes/admin.py:12-20 | anonymous callers are sent to login, signed-in non-admins are refused, and only an admin passes, as themself |
| Admin.UsersView | app/routes/admin.py:27-44 | an admin gets every account and one non-leak row naming the admin; anyone else gets a refusal and nothing is written |
| Admin.PostsView | app/routes/admin.py:46-63 | an admin gets every post row, soft-deleted ones included, and one non-leak row naming the admin |
| Admin.LogsView | app/routes/admin.py:65-73 | an admin gets all logs, newest first, and privacy_leaks equals the number of rows flagged as leaks; nothing is written |
| Admin.EditUserForm | app/routes/admin.py:75-78 | an admin gets the account with that id, or not found; nothing changes |
| Admin.AdminEdited | app/routes/admin.py:80-91 | username, email, bio, both flags and is_admin take the form values; id and creation time are kept; the password changes only when a new one is given |
| Admin.EditUser | app/routes/admin.py:75-95 | an unknown id is not found; a username or email held by another row is refused with nothing changed; otherwise only that row is rewritten; ids and unique accounts stay as they were |
| Admin.SelfDemotionLocksOut | app/routes/admin.py:80-86 | an admin who saves their own account without the admin box is refused by the admin gate on their next request |
| Admin.NonAdminsChangeNothing | app/routes/admin.py:12-20 | for a caller who is not an admin every admin route fails and leaves the store as it was |
| Scraper.Start | app/routes/scraper.py:33-70 | non-admins are refused, and a start while running is refused; both leave the flag, results and store unchanged; otherwise results are cleared, the flag raised and one row names the admin |
| Scraper.Stop | app/routes/scraper.py:77-103 | non-admins are refused, and a stop when not running is refused; otherwise the flag is lowered, the results kept, and one row names the admin |
| Scraper.StatusOf | app/routes/scraper.py:105-117 | only an admin gets the flag and the results; nothing changes |
| Scraper.StartTwiceFails | app/routes/scraper.py:42-43 | after a successful start, a second start by anyone fails and changes nothing |
| Scraper.Url | app/routes/scraper.py:139-287 | a scraping entry names an API endpoint; the error and finished entries carry none; a detail entry's url is the endpoint of the audit row written for that user |
| Scraper.LeakNote | app/routes/scraper.py:139-287 | a scraping entry carries a leak description; the error and finished entries carry none |
| Scraper.EntryToDict | app/routes/scraper.py:139-287 | an entry always has timestamp, action and status; url, privacy_leak and leak_type appear exactly for scraping entries; data_collected appears exactly when the entry has a summary |
| Scraper.DetailEntries | app/routes/scraper.py:229-266 | one completed detail entry per visited user, in the users' order |
| Common.NatToString | app/routes/scraper.py:234-254 | the decimal numeral of an id: only digits, no leading zero, and it reads back as the id |
| Common.NatToStringInjective | app/routes/api.py:105 | two ids give the same endpoint path only if they are equal |
| Scraper.DetailLog | app/routes/scraper.py:253-261 | the per-user row is an anonymous GET from the scraper's address, flagged as a leak with a tag outside the API vocabulary |
| Scraper.PrivateCount | app/routes/scraper.py:192 | the number of posts with is_public false |
| Scraper.DeletedCount | app/routes/scraper.py:221-224 | the number of posts with is_deleted true |
| Scraper.Failed | app/routes/scraper.py:270-276 | a fault keeps the step's in-progress entry, adds one error entry and moves to the finally block |
| Scraper.StepPosts | app/routes/scraper.py:166-192 | the posts step either fails into the finally block or moves to the deleted-posts step; tables are untouched |
| Scraper.StepDeleted | app/routes/scraper.py:196-224 | the deleted-posts step either fails into the finally block or starts the detail loop; tables are untouched |
| Scraper.StepDetail | app/routes/scraper.py:228-268 | the detail loop either finishes, fails, or moves to the next of at most the first three users |
| Scraper.Step | app/routes/scraper.py:119-288 | every step brings the run closer to its end, leaves users and posts untouched, keeps ids distinct and keeps the entries so far; the finally block lowers the flag and appends the finished entry |
| Scraper.Drive | app/routes/scraper.py:119-288 | the remaining steps always end with the flag lowered and the finished entry last |
| Scraper.Run | app/routes/scraper.py:119-288 | whatever happens, the run ends with running false and "Scraper finished" as the last entry, with users and posts untouched |
| Scraper.Interleave | app/routes/scraper.py:77-103 | the run with stop requests served between steps still reaches its end, with users and posts untouched, the flag lowered and the finished entry last |
| Scraper.StepAgree | app/routes/scraper.py:119-288 | a step reads neither the flag nor the log table |
| Scraper.DriveAgree | app/routes/scraper.py:119-288 | the rest of the run does not depend on the flag or the log table |
| Scraper.StopDoesNotShortenRun | app/routes/scraper.py:126-268 | with any schedule of stop requests the run produces the same steps and ends with the same flag and results as without them |
| Scraper.StepAppends | app/routes/scraper.py:134-276 | a scraping step adds an error entry only as its last entry and only when moving to the finally block |
| Scraper.DriveErrorsOnlyAtEnd | app/routes/scraper.py:134-287 | no error entry appears before the last two entries of the rest of the run |
| Scraper.RunErrorsOnlyAtEnd | app/routes/scraper.py:270-287 | an error entry, if any, is the one right before the finished entry |
| Scraper.DetailLoop | app/routes/scraper.py:228-268 | when the visited users exist, the loop adds one completed entry and one leak row per visited user, in order, then the finished entry |
| Scraper.BulkSteps | app/routes/scraper.py:138-226 | when every post has an author, the first three steps complete and the run reaches the detail loop with their three entries |
| Scraper.BulkEntries | app/routes/scraper.py:161-224 | the posts entry reports the live posts and the private ones among them; the deleted entry reports the soft-deleted rows |
| Scraper.PostsStepClean | app/routes/scraper.py:166-192 | without orphan posts the posts step records the live count and the private count and moves on |
| Scraper.PostsStepOrphan | app/routes/scraper.py:177-192 | a live post without an author row makes the posts step fail with the interpreter's error text |
| Scraper.DeletedStepClean | app/routes/scraper.py:196-224 | without orphan posts the deleted step records the soft-deleted count and moves on |
| Scraper.RunWithoutOrphans | app/routes/scraper.py:119-288 | when every post has an author: the three bulk entries, one detail entry per user among the first three, then the finished entry; the log table gains exactly one scraper leak row per visited user, in order |
| Scraper.RunWithDeletedOrphan | app/routes/scraper.py:196-224 | when every live post has an author but a soft-deleted one has none: the users and posts entries, the deleted step fails with one error entry, then the finished entry; the store is unchanged |
| Scraper.RunWithOrphanPost | app/routes/scraper.py:177-192 | a live post without an author stops the run after the users step with one error entry and the finished entry, and the store is unchanged |
| DemoData.AdminAccount | app/models/demo_data.py:14-23 | the admin account: an admin with email hidden and bio shown |
| DemoData.Alice | app/models/demo_data.py:26-34 | alice: not an admin, email and bio shown |
| DemoData.Bob | app/models/demo_data.py:36-44 | bob: not an admin, email hidden, bio shown |
| DemoData.Charlie | app/models/demo_data.py:46-54 | charlie: not an admin, email and bio hidden |
| DemoData.SeedUsers | app/models/demo_data.py:14-54 | the four accounts in insertion order with their flags |
| DemoData.SeedPost | app/models/demo_data.py:58-110 | a fixture post keeps its title, content, owner and flags |
| DemoData.HelloWorld | app/models/demo_data.py:58-63 | alice's public live post |
| DemoData.PrivateThoughts | app/models/demo_data.py:65-70 | alice's private live post |
| DemoData.PrivacyMatters | app/models/demo_data.py:73-78 | bob's public live post |
| DemoData.SecretProject | app/models/demo_data.py:80-85 | bob's private live post |
| DemoData.LimitedSharing | app/models/demo_data.py:88-93 | charlie's public live post |
| DemoData.PersonalNotes | app/models/demo_data.py:95-100 | charlie's private live post |
| DemoData.MarkedDeleted | app/models/demo_data.py:103-110 | alice's public post, already soft-deleted |
| DemoData.SeedPosts | app/models/demo_data.py:58-110 | the seven posts with owners 2, 2, 3, 3, 4, 4, 2 and their flags |
| DemoData.InsertUsers | app/models/demo_data.py:23-54 | the accounts are appended in order with consecutive ids continuing the table, stamped now; on an empty table they get ids 1, 2, 3, ... |
| DemoData.InsertPosts | app/models/demo_data.py:58-113 | the posts are appended in order with consecutive ids continuing the table, both timestamps now |
| DemoData.InsertUsersOneByOne | app/models/demo_data.py:23-54 | adding the accounts in one commit equals adding them one at a time |
| DemoData.InsertPostsOneByOne | app/models/demo_data.py:58-113 | adding the posts in one commit equals adding them one at a time |
| DemoData.Seed | app/models/demo_data.py:5-113 | a no-op once any user exists; on an empty user table the four fixture accounts get ids 1 to 4, the seven fixture posts follow the existing posts with their owners and flags, the log table is untouched, and ids stay distinct |
| DemoData.SeedFacts | app/models/demo_data.py:5-113 | for any fixture lists with the fixture's flags, seeding an empty user table keeps those flags and the existing posts, and keeps ids distinct |
| DemoData.StampedFromOne | app/models/demo_data.py:23-54 | accounts inserted into an empty table are numbered 1, 2, 3, ... |
| DemoData.SeedFrom | app/models/demo_data.py:5-113 | seeding is a no-op when any user exists; on an empty user table the accounts get ids 1 to n in order and the posts follow the existing posts; the log table is untouched |
| DemoData.InsertUsersKeepsValid | app/models/demo_data.py:23-54 | inserting the accounts keeps every id distinct |
| DemoData.InsertPostsKeepsValid | app/models/demo_data.py:58-113 | inserting the posts keeps every id distinct |
| DemoData.SeedKeepsValid | app/models/demo_data.py:5-113 | seeding keeps every id distinct |
| DemoData.FirstAccounts | app/models/demo_data.py:14-54 | on an empty user table the accounts are numbered 1, 2, 3, ... in insertion order |
| DemoData.SequentialFind | app/models/demo_data.py:61 | in a table numbered from 1, the account with id i is row i - 1 |
| DemoData.SeededAccounts | app/models/demo_data.py:14-54 | on an empty store the seed creates admin (id 1, admin, email hidden), alice (2, both shown), bob (3, email hidden) and charlie (4, both hidden) |
| DemoData.SeedAuthors | app/models/demo_data.py:58-110 | the hard-coded owner ids 2, 3 and 4 resolve to alice, bob and charlie, because ids follow insertion order |
| DemoData.FixtureOwnerPosts | app/models/demo_data.py:58-100 | in the fixture each of the owners 2, 3 and 4 has exactly one public and one private live post |
| DemoData.SeedOwnerPosts | app/models/demo_data.py:58-100 | after seeding, each of alice, bob and charlie owns exactly one public and one private live post among the new rows |
| DemoData.FixtureOneDeleted | app/models/demo_data.py:103-110 | exactly the last fixture post is soft-deleted |
| DemoData.SeedOneDeleted | app/models/demo_data.py:103-110 | exactly one seeded post is soft-deleted; it is public and belongs to alice |
| DemoData.SeedShowsEmailLeak | app/models/demo_data.py:46-54 | charlie's public view hides email and bio, yet the user listing of the API returns charlie's email |

## Left out

- Password hashing is a foreign library call. A credential is modelled as a value that accepts exactly the password it was made from.
- Flask's request, session, redirect, `flash`, `render_template` and `jsonify` machinery is framework plumbing. Handlers return the records handed to the template or JSON encoder, and failures carry a `Failure` tag instead of a redirect.
- The `next` redirect after login only changes the redirect target.
- `json.dumps` payloads are modelled as the dictionary itself. Timestamps are abstract instants (`nat`), not ISO-8601 or `strftime` strings.
- `print` statements have no effect on state.
- Form fields are taken as given strings. A field missing from the form (`form.get` returning `None`) is not modelled.
- The logout route (`app/routes/auth.py:46-51`) ends the session with `logout_user()`. The session is an input of every handler (`Request.viewer`), so logging out is a later request whose viewer is `None`; the route itself is not a member.
- The scraper index page (`app/routes/scraper.py:19-31`) refuses non-admins with the same check as `Scraper.StatusOf` and renders the flag and results that `Scraper.StatusOf` returns; it is not a separate member.
- The account-deleted page (`app/routes/auth.py:144-146`) and the admin index (`app/routes/admin.py:22-25`) only render templates. The GET renders of the edit, create, profile, login and register forms are left out for the same reason. The admin edit form is kept as `Admin.EditUserForm`.
- DemoData.InsertUsers: every seeded account gets the single instant `now`. The source's `created_at` default calls `utcnow` once per row, so the accounts' creation times are strictly increasing there and equal here.
- DemoData.InsertPosts: every seeded post gets `now` for both `created_at` and `updated_at`. The source's defaults call `utcnow` per row and per column, so the seeded posts' creation order, and the newest-first order of the index and profile pages over them, is not modelled.
- Threads, `time.sleep`, `run_scraper_with_app_context` and the unsynchronised globals are concurrency concerns. `Scraper.Start` does not launch the run; the run is `Scraper.Run`, and stop requests between its steps are `Scraper.Interleave`.
- Scraper.Run: every entry and log row of one run carries the same instant `now`, because the individual clock reads are not modelled.
- Scraper.Step: each scraping step appends its entry already completed (or its in-progress entry followed by the error entry). The instant at which a concurrent status read could see an entry still "In progress" is not modelled.
- Scraper.Run: the dictionaries the run builds and then discards (`user_data` fields beyond id and username, `post_data`, `user_detail`) have no effect and are not modelled. Only their counts and the users snapshot are kept.
- Scraper.Run: faults other than the two missing-row attribute errors (database failures) are not modelled.
- SQLAlchemy persistence, `db.create_all` and the cascade declaration are not modelled. Their effects are written out directly: the account delete removes the posts and logs itself, and the unique columns appear only as `Admin.EditUser`'s `UniqueViolation`.
- `app/__init__.py` (configuration and blueprint wiring), `server.py` (a static file server) and `script.js` (page animation) are not part of this model.
