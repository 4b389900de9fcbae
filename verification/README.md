# xsworn forum server, modelled in Dafny

This project models the request handlers of the xsworn forum backend
(`server.js`). The backend is an Express application over a SQLite database.
Once Express, the session middleware and SQLite are stripped away, each handler
is a deterministic transition on four tables:

- `users`: id, username (UNIQUE), password, pfp, terminated
- `posts`: id, user_id, title, body, score
- `comments`: id, post_id, user_id, body
- `votes`: id, user_id, post_id, value

The store (`Tables.Store`) holds each table as a sequence of rows in rowid
order, together with the AUTOINCREMENT counter that gives out the table's next
id. Every handler is a pure function `(store, session, request fields) -> Reply`.
A `Reply` holds the HTTP status, a summary of the JSON body, the store after
the request and the client's session after the request. The session
(`req.session.user`) is an explicit `Option<SessionUser>`.

Modules:

- `Tables` (tables.dfy): the rows, the store, and the generic "first matching
  row" and "rows a WHERE clause keeps" operations.
- `Ledger` (ledger.dfy): the vote upsert on a (user, post) pair, and the SQL
  `SUM` aggregate with its `|| 0`. It also holds the cached-score recompute and
  the reference sum `SumVotes` that the aggregate is proved equal to.
- `Http` (http.dfy): status codes, the session user, the response bodies.
- `Accounts` (accounts.dfy): signup, login, `/api/me`, moderator termination.
- `Content` (content.dfy): create post, vote, add comment.
- `Views` (views.dfy): post feed, comments of a post, user profile.
- `Server` (server.js as a whole, server.dfy): the route table `Step`, one
  client's run of requests `Run`, and `Serve`, requests from any number of
  clients interleaved in any order, each carrying the session its client holds.
  It also holds the lemmas about all handlers together: the database
  invariants, sticky termination and session soundness.

Main results:

- The vote ledger keeps one row per (user, post). A vote overwrites the pair's
  row in place or appends exactly one row. Repeating a vote changes nothing.
  When the post's cached score matched its ledger, changing a vote from `v`
  to `w` moves the score by `w - v`.
- The structural invariants (`Server.Shape`: ids ascending and issued by their
  counters, unique usernames, one vote row per pair) hold after any requests
  from any clients. So on every reachable database the feed is newest-first,
  comments are oldest-first, and a terminated name is refused with 403.
- Every post's cached `score` equals the sum of its ledger rows. This is a
  store invariant (`Server.Valid`) kept by every request, except a vote on a
  post id that has not been issued yet (see "Behaviour of the code as written").
- Signup refuses a terminated username with 403 before it checks whether the
  name is taken (400). Login checks termination before the password.
- Termination is sticky. After a successful termination, whatever requests any
  clients send next, in any interleaving, signup with that username still
  answers the 403 terminated response, and no row is inserted.
- The feed is newest-first and contains exactly the posts whose author row
  exists. A post's comments come oldest-first. A terminated account's profile
  is the tombstone.

## Model

| member | source | states |
|---|---|---|
| `Tables.FindFirst` | server.js:61 | `db.get` returns the first row that matches, and nothing before it matches. It gives none exactly when no row matches. |
| `Tables.Filter` | server.js:187-188 | A `WHERE`-style selection keeps exactly the rows that satisfy the condition, and no others, each no more often than it occurs. |
| `Tables.FilterAscending` | server.js:187-188 | Deleting rows keeps the rest of the table in ascending id order, with ids below the counter. |
| `Tables.AppendIssued` | server.js:25 | Inserting a row with the AUTOINCREMENT id and then bumping the counter keeps ids ascending and issued. |
| `Ledger.SqlSum` | server.js:144 | `SUM(value) ... WHERE post_id = ?` is NULL exactly when the post has no ledger rows. |
| `Ledger.AggregateIsSum` | server.js:144-145 | The score written, `row.score \|\| 0`, equals the sum of the post's ledger values, and is 0 when there are no rows. |
| `Ledger.SumSnoc` | server.js:140 | Inserting a ledger row changes a post's sum by exactly that row's contribution. |
| `Ledger.SumUpdate` | server.js:138 | Overwriting one row's value changes each post's sum by the change in that row's contribution. |
| `Ledger.SumIgnoresOtherPosts` | server.js:144 | A post with no ledger rows sums to 0. |
| `Ledger.UpsertRecordsStance` | server.js:135-141 | After the vote write (`Ledger.Upsert`), the pair has a row holding the new value. The ledger grows by one row exactly when the pair had no row, and by none when it had one. |
| `Ledger.FindVoteAfterUpdate` | server.js:135-138 | Updating a value in place leaves the (user, post) lookup pointing at the same row. |
| `Ledger.UpsertKeepsOneVotePerPair` | server.js:135-141 | The vote write never creates a second row for a (user, post) pair. |
| `Ledger.Recompute` | server.js:144-145 | The recompute touches only `posts`, and keeps its length. That the written score is the ledger sum is `Ledger.RecomputeCachesSum`. |
| `Ledger.RecomputeCachesSum` | server.js:144-145 | After the recompute (the SUM, then `Ledger.SetScore` for `UPDATE posts SET score = ? WHERE id = ?`), the voted post's score is its ledger sum. Every other post and every other table is unchanged. |
| `Ledger.UpsertKeepsOtherSums` | server.js:135-141 | The vote write on one post leaves every other post's ledger sum unchanged. |
| `Ledger.UpsertKeepsIdsIssued` | server.js:138-140 | The vote write keeps the ledger's ids ascending and issued by its counter. |
| `Accounts.LookupsAgree` | server.js:61-66 | A username is registered exactly when the lookup finds a row. With unique usernames, some terminated row has the name exactly when the row the lookup finds is terminated. |
| `Accounts.Signup` | server.js:58-77 | Succeeds exactly when the username is unregistered, and then appends one user with `terminated = 0` and changes nothing else. A 403 implies a terminated account with that name. A 400 "Username taken" implies the name exists. Refusals change nothing. |
| `Accounts.SignupRefusals` | server.js:61-68 | With unique usernames, a terminated name always gets 403 (before the "taken" check), and an active name gets 400. |
| `Accounts.Login` | server.js:80-97 | Never changes the store. An unknown name gets 401 "User not found". A 403 implies the account is terminated. Success implies an active account with that password. It then sets the session to `{id, username, isMod = (username == "mod")}`. Failures keep the old session. |
| `Accounts.LoginOutcomes` | server.js:83-95 | With unique usernames, a terminated account gets 403 whatever the password (termination is checked before the password). An active account with the wrong password gets 401 "Wrong password". The right password succeeds. |
| `Accounts.Me` | server.js:101-104 | Returns the session user, or null, and changes neither store nor session. |
| `Accounts.Terminate` | server.js:175-192 | A caller whose session username is not "mod" gets 403 and nothing changes. An unknown target gets 404 and nothing changes. A "mod" session with a registered target gets 200 `Success`, and a 200 happens only then. |
| `Accounts.TerminateSoftDeletes` | server.js:181-190 | A successful termination keeps the user row and flags it terminated (`Accounts.MarkTerminated`, server.js:185). It removes exactly that user's posts and comments, without duplicating any other row. Votes, counters and all other user fields are unchanged. |
| `Content.CreatePost` | server.js:107-117 | Without a session: 401 and no change. Otherwise it appends one post by the session user, with the next id and score 0, and nothing else changes. |
| `Content.AddComment` | server.js:152-162 | Without a session: 401 and no change. Otherwise it appends one comment by the session user on the given post id, which is not validated. |
| `Content.CastVote` | server.js:129-149 | Without a session: 401 and no change. Otherwise: 200. Users and comments are unchanged. Every other post is unchanged. Each post with the voted id gets its ledger sum as score. |
| `Content.VoteUpdatesOrInserts` | server.js:135-141 | An existing row for (user, post) is overwritten in place. Otherwise exactly one row with the next vote id is appended. An update keeps the row's id. One-row-per-pair is preserved. |
| `Content.VoteIdempotent` | server.js:135-147 | Casting the same vote twice gives the same reply and store as casting it once. |
| `Content.VoteChangeShiftsScore` | server.js:138-145 | Changing an existing vote from `v` to `w` moves a consistent post's score by exactly `w - v`. |
| `Content.VoteChangeAfterCast` | server.js:135-145 | Casting `v` and then changing it to `w` moves the post's score by exactly `w - v`, in every store. |
| `Content.FirstVoteAddsValue` | server.js:140-145 | A user's first vote on a consistent post moves its score by exactly the value cast. |
| `Views.ListPosts` | server.js:120-126 | Never changes anything. Every feed row is a stored post whose author exists, joined with that author's username and pfp. Every such post appears. |
| `Views.JoinPostsComplete` | server.js:121-122 | The inner join keeps every post whose author row exists. |
| `Views.FeedNewestFirst` | server.js:121-123 | In a store in rowid order, feed ids strictly descend. |
| `Views.ListComments` | server.js:165-172 | Returns exactly the comments with that post id whose author exists, joined with the author's username and pfp. |
| `Views.JoinCommentsComplete` | server.js:167-169 | The join keeps every comment on the post whose author row exists. |
| `Views.ThreadOldestFirst` | server.js:167-169 | In a store in rowid order, a post's comment ids strictly ascend. |
| `Views.UserProfile` | server.js:195-213 | An unknown name gets 404 `{username: "User not found", posts: []}`. A terminated account gets the tombstone `{username: "Account Deleted", pfp: "", posts: []}`. Otherwise it returns the name, the pfp and exactly that user's posts. |
| `Server.Step` | server.js:58-213 | Every route answers 200, 400, 401, 403 or 404. Only a successful login changes the client's session, and then to a session for the username it was given. |
| `Server.RunCalls` | server.js:58-213 | A client's run makes one call per request, in order, the first with the session it started with. |
| `Server.RunIsServe` | server.js:58-213 | A single client's run ends in the same database as the interleaving of its calls, so every result about `Serve` covers one-client runs. |
| `Server.SignupKeepsShape` | server.js:61-75 | Signup keeps the structural invariants, in particular unique usernames. |
| `Server.CreatePostKeepsShape` | server.js:111-112 | Creating a post keeps the posts table ascending and issued. |
| `Server.AddCommentKeepsShape` | server.js:156-157 | Adding a comment keeps the comments table ascending and issued. |
| `Server.CastVoteKeepsShape` | server.js:133-145 | A vote on any post id, issued or not, keeps one row per pair and every table ascending and issued. |
| `Server.TerminateKeepsShape` | server.js:185-188 | Termination keeps ids and usernames, and the remaining posts and comments stay ascending. |
| `Server.StepKeepsShape` | server.js:58-213 | Every request, from any client, keeps the structural invariants. |
| `Server.ServeKeepsShape` | server.js:58-213 | Requests from any clients in any order keep the structural invariants. |
| `Server.ServedViewsOrdered` | server.js:121-123 | On every database reachable from an empty one, feed ids strictly descend and a post's comment ids strictly ascend. |
| `Server.ServedRefusalsByTermination` | server.js:62-66 | On every reachable database, a terminated username gets 403 from signup and from login, whatever the password. |
| `Server.SignupKeepsValid` | server.js:61-75 | Signup keeps the store invariants, in particular unique usernames. |
| `Server.CreatePostKeepsValid` | server.js:111-112 | A new post starts at score 0, which matches its empty ledger when every ledger row names an issued id. |
| `Server.AddCommentKeepsValid` | server.js:156-157 | Adding a comment keeps the store invariants. |
| `Server.CastVoteKeepsScores` | server.js:135-145 | After any vote, every post's cached score still equals its ledger sum, provided it did before. |
| `Server.UpsertKeepsLedgerValid` | server.js:135-141 | A vote write on an issued post id keeps one row per pair, ids issued, and every row naming an issued post id. |
| `Server.CastVoteKeepsValid` | server.js:135-145 | A vote on an issued post id keeps one-row-per-pair, and every post's score equal to its ledger sum. |
| `Server.TerminateKeepsValid` | server.js:185-188 | Termination keeps the store invariants. Votes stay, so every remaining post's sum is unchanged. |
| `Server.ReadsKeepStore` | server.js:80-213 | Login, `/api/me`, the feed, the comment list and the profile never change the database. |
| `Server.StepKeepsValid` | server.js:58-213 | Every admissible request keeps the store invariants. |
| `Server.ServeKeepsValid` | server.js:58-213 | Admissible requests from any clients, in any order, take a valid store to a valid store. |
| `Server.DanglingVoteDrift` | server.js:133-145 | A vote on the next post id is accepted. The post created next then has cached score 0 while its ledger sum is 1. |
| `Server.StepUsersEvolve` | server.js:58-192 | Every handler changes `users` only by appending rows under untaken usernames (signup) or by setting `terminated` (termination, server.js:185). Existing ids, usernames, passwords and pfps never change, and no flag is ever cleared. |
| `Server.StepKeepsTermination` | server.js:62-66 | No handler lifts a termination, or makes the username resolve to another account. |
| `Server.ServeKeepsTermination` | server.js:185 | Through any requests from any clients, a terminated username keeps resolving to the same, still terminated, account. |
| `Server.TerminationIsSticky` | server.js:62-66 | After a successful termination and any later requests from any clients, signing up with that username returns the 403 terminated response and inserts nothing. |
| `Server.TerminatedAuthorLeavesFeed` | server.js:187 | Right after a successful termination, no feed row is by the terminated account. |
| `Server.TerminatedProfileIsTombstone` | server.js:201-206 | After a successful termination and any later requests from any clients, the account's profile is a 200 with the tombstone, for every viewer. |
| `Server.StepKeepsSessionSound` | server.js:95 | Each request keeps the requesting client's session sound: it names an existing account, and `isMod` is set exactly for "mod". |
| `Server.StepKeepsOtherSessionSound` | server.js:58-192 | A request from any client keeps every other client's sound session sound, because no handler deletes a user row or changes its id or username. |
| `Server.ServeKeepsSessionSound` | server.js:58-213 | Through any requests from any clients, a sound session stays sound. |
| `Server.TerminatedSessionStillPosts` | server.js:107-117 | After the moderator terminates an account, the session its user already held still names the account, the account stays terminated, and creating a post with that session still succeeds. |
| `Server.RunKeepsSessionSound` | server.js:80-97 | Starting sound, the session a client ends up with names an existing account (terminated or not). It is the session it started with, or one opened by a login request of the run for that username. |
| `Server.VoteScenario` | server.js:129-149 | Scripted example: post, B +1 gives 1, B -1 gives -1, C +1 gives 0. The ledger ends with one row for B and one for C. |

## Behaviour of the code as written

- The vote handler does not check that the post exists. A vote on a deleted
  post id is harmless: AUTOINCREMENT never reissues the id, and the score
  `UPDATE` matches no row. A vote on an id not yet issued is different. Its
  ledger row is later counted for the post that receives that id, but the new
  post starts with cached score 0. `Server.DanglingVoteDrift` exhibits this.
  So "score equals ledger sum" holds only for stores where every vote named an
  issued id (`Server.Admissible`).
- Only login (server.js:86) and signup (server.js:62) refuse a terminated
  account; the profile (server.js:201) shows it as a tombstone. A session
  opened before the termination stays valid, and with it the user can still
  post, vote and comment: those handlers check only that a session exists.
  `Server.TerminatedSessionStillPosts` states this across two clients (the
  moderator's and the terminated user's), using `Server.ServeKeepsSessionSound`:
  a session names an existing account, not an active one.
- This schema has no `parent_id` on comments and no comment votes. The vote
  handler does not check `value` (server.js:133), so any integer is recorded.
  Moderation is gated on the session username "mod" (server.js:177), not on a
  stored role.

## Left out

- Express, body-parser, express-session, static files and server start-up
  (server.js:1-18, 216): framework plumbing. The session is an explicit argument.
- SQLite I/O, schema creation and the 500 "DB error" branches (server.js:21-55,
  73, 114, 159): every write is assumed to succeed.
- Callback ordering in the vote handler. The UPDATE/INSERT is not awaited
  before the SUM. The model uses the intended order (write, then recompute) and
  does not capture races or lost updates.
- Concurrency in general. Each request is modelled as finishing all its writes
  before the next request starts. The source does not guarantee this.
  Termination replies (server.js:190) before its UPDATE and DELETEs
  (server.js:185-188) have completed. Signup's SELECT-then-INSERT
  (server.js:61-70) can race with a concurrent signup of the same name, whose
  INSERT then fails UNIQUE and returns 500.
- Request fields that are missing, null or of an unexpected JSON type are not
  modelled. This covers a NULL username (which UNIQUE would allow twice), a
  non-numeric vote `value`, and SQLite's type affinity between a string and an
  integer `post_id`. Usernames, passwords, titles and bodies are strings. Ids
  and vote values are integers.
- Profile posts: `SELECT * FROM posts WHERE user_id = ?` has no `ORDER BY`. The
  model returns them in rowid order and its contract states only which posts
  appear.
- public/app.js: browser rendering and `fetch` calls only.
- Ledger.AggregateIsSum: assumes every vote value, and every partial sum of a
  post's ledger rows in rowid order, stays within plus or minus 2^53. SQLite's
  `SUM` over INTEGER values is 64-bit and raises "integer overflow" if it
  overflows at any point of the computation, even when the total is small
  (rows 2^62, 2^62, -2^62, -2^62). `row` is then undefined, and `row.score`
  (server.js:145) throws inside the callback. node-sqlite3 returns the 64-bit
  result as a JavaScript double, so above 2^53 the written score is rounded.
  `JSON.parse` already rounds a `value` above 2^53 before SQLite sees it. The
  model's integers are unbounded, and the sum is exact.
- Content.CastVote: same integer-width assumption as `Ledger.AggregateIsSum`.
  The unchecked vote `value` (server.js:133) can reach those bounds.
- Server.StepKeepsValid: holds only for admissible requests (no vote on an
  unissued post id), because the code accepts such votes and they break the
  score cache; see `Server.DanglingVoteDrift`. The structural part,
  `Server.StepKeepsShape`, holds for every request.
- Server.ServeKeepsValid: same restriction, for every request of the sequence.
- Content.VoteChangeShiftsScore: assumes the post's cached score matched its
  ledger before the vote; without that the new score is still the ledger sum
  (`Content.CastVote`) but the change is not `w - v`.
- Content.FirstVoteAddsValue: same assumption as `Content.VoteChangeShiftsScore`.
- Accounts.SignupRefusals: assumes unique usernames, which the schema's
  `UNIQUE` constraint guarantees and `Server.Valid` carries.
