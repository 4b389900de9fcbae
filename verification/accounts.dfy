/** The account lifecycle: signup, login, the current-user query and the
    moderator's soft termination of an account.
 */
module Accounts {
  import opened Tables
  import opened Http

  /** The one username whose session may moderate. */
  const ModUsername := "mod"

  /** The row `SELECT * FROM users WHERE username = ?` returns. */
  function FindUser(users: seq<User>, username: string): Option<nat> {
    FindFirst(users, (u: User) => u.username == username)
  }

  /** The schema's `username TEXT UNIQUE`. */
  ghost predicate UniqueUsernames(users: seq<User>) {
    forall i, j :: 0 <= i < j < |users| ==> users[i].username != users[j].username
  }

  /** Some account with this username exists. */
  ghost predicate Registered(users: seq<User>, username: string) {
    exists i :: 0 <= i < |users| && users[i].username == username
  }

  /** Some account with this username exists and is terminated. */
  ghost predicate TerminatedName(users: seq<User>, username: string) {
    exists i :: 0 <= i < |users| && users[i].username == username && users[i].terminated
  }

  /** The account a username resolves to has been terminated. */
  ghost predicate IsTerminated(s: Store, username: string) {
    var found := FindUser(s.users, username);
    found.Some? && s.users[found.value].terminated
  }

  /** The two ways of asking about a username agree: being registered is the lookup
      finding a row, and with unique usernames, some terminated row carrying the name is
      the row the lookup finds being terminated. */
  lemma LookupsAgree(s: Store, username: string)
    ensures Registered(s.users, username) <==> FindUser(s.users, username).Some?
    ensures IsTerminated(s, username) ==> TerminatedName(s.users, username)
    ensures UniqueUsernames(s.users) ==> (TerminatedName(s.users, username) <==> IsTerminated(s, username))
  {
    var found := FindUser(s.users, username);
    if found.Some? {
      var i := found.value;
      assert s.users[i].username == username;
      if UniqueUsernames(s.users) {
        assert forall j :: 0 <= j < |s.users| && s.users[j].username == username ==> j == i;
      }
    }
  }

  /** POST /api/signup. A terminated username is refused with 403 before the "taken"
      check; otherwise an existing username is refused with 400; otherwise one user row
      is inserted with `terminated = 0`. The session is never touched. */
  function Signup(s: Store, session: Option<SessionUser>, username: string, password: string, pfp: string): (r: Reply)
    ensures r.session == session
    ensures r.status == StatusOk <==> !Registered(s.users, username)
    ensures r.status == StatusForbidden ==>
              TerminatedName(s.users, username) && r.body.Terminated? && r.store == s
    ensures r.status == StatusBadRequest ==>
              Registered(s.users, username) && r.body == Error("Username taken") && r.store == s
    ensures r.status in {StatusOk, StatusBadRequest, StatusForbidden}
    ensures r.status == StatusOk ==>
              && r.body == Success
              && r.store.users == s.users + [User(s.nextUserId, username, password, pfp, false)]
              && r.store.nextUserId == s.nextUserId + 1
              && r.store.posts == s.posts && r.store.comments == s.comments && r.store.votes == s.votes
              && r.store.nextPostId == s.nextPostId && r.store.nextCommentId == s.nextCommentId
              && r.store.nextVoteId == s.nextVoteId
  {
    match FindUser(s.users, username)
    case Some(i) =>
      if s.users[i].terminated then
        Reply(StatusForbidden, Terminated("Your account was terminated and cannot be recreated."), s, session)
      else
        Reply(StatusBadRequest, Error("Username taken"), s, session)
    case None =>
      var row := User(s.nextUserId, username, password, pfp, false);
      Reply(StatusOk, Success, s.(users := s.users + [row], nextUserId := s.nextUserId + 1), session)
  }

  /** With usernames unique, the refusal reason is decided by the account's flag alone:
      terminated gives 403, active gives 400. */
  lemma SignupRefusals(s: Store, session: Option<SessionUser>, username: string, password: string, pfp: string)
    requires UniqueUsernames(s.users)
    ensures TerminatedName(s.users, username) ==>
              Signup(s, session, username, password, pfp).status == StatusForbidden
    ensures Registered(s.users, username) && !TerminatedName(s.users, username) ==>
              Signup(s, session, username, password, pfp).status == StatusBadRequest
  {
    var found := FindUser(s.users, username);
    if found.Some? {
      var i := found.value;
      assert forall j :: 0 <= j < |s.users| && s.users[j].username == username ==> j == i;
    }
  }

  /** POST /api/login. Checks, in order: the username is known (else 401), the account is
      not terminated (else 403, whatever the password), the password matches (else 401).
      Only a successful login replaces the session, with `isMod` set for "mod". */
  function Login(s: Store, session: Option<SessionUser>, username: string, password: string): (r: Reply)
    ensures r.store == s
    ensures r.status in {StatusOk, StatusUnauthorized, StatusForbidden}
    ensures r.status != StatusOk ==> r.session == session
    ensures !Registered(s.users, username) ==> r.status == StatusUnauthorized && r.body == Error("User not found")
    ensures r.status == StatusForbidden ==> TerminatedName(s.users, username) && r.body.Terminated?
    ensures r.status == StatusOk ==>
              exists i :: 0 <= i < |s.users| && s.users[i].username == username
                && !s.users[i].terminated && s.users[i].password == password
                && r.session == Some(SessionUser(s.users[i].id, username, username == ModUsername))
                && r.body == CurrentUser(r.session)
  {
    match FindUser(s.users, username)
    case None => Reply(StatusUnauthorized, Error("User not found"), s, session)
    case Some(i) =>
      var user := s.users[i];
      if user.terminated then
        Reply(StatusForbidden, Terminated("Your account has been terminated."), s, session)
      else if user.password != password then
        Reply(StatusUnauthorized, Error("Wrong password"), s, session)
      else
        var who := Some(SessionUser(user.id, user.username, user.username == ModUsername));
        Reply(StatusOk, CurrentUser(who), s, who)
  }

  /** With usernames unique: a terminated account is refused with 403 for every password,
      an active account with the wrong password gets 401, and the right password logs in. */
  lemma LoginOutcomes(s: Store, session: Option<SessionUser>, username: string, password: string)
    requires UniqueUsernames(s.users)
    ensures TerminatedName(s.users, username) ==> Login(s, session, username, password).status == StatusForbidden
    ensures (exists i :: 0 <= i < |s.users| && s.users[i].username == username && !s.users[i].terminated
                         && s.users[i].password != password)
            ==> Login(s, session, username, password) == Reply(StatusUnauthorized, Error("Wrong password"), s, session)
    ensures (exists i :: 0 <= i < |s.users| && s.users[i].username == username && !s.users[i].terminated
                         && s.users[i].password == password)
            ==> Login(s, session, username, password).status == StatusOk
  {
    var found := FindUser(s.users, username);
    if found.Some? {
      var i := found.value;
      assert forall j :: 0 <= j < |s.users| && s.users[j].username == username ==> j == i;
    }
  }

  /** GET /api/me: the session's user, or null, with nothing changed. */
  function Me(s: Store, session: Option<SessionUser>): (r: Reply)
    ensures r.status == StatusOk && r.store == s && r.session == session
    ensures r.body == CurrentUser(session)
  {
    Reply(StatusOk, CurrentUser(session), s, session)
  }

  /** `UPDATE users SET terminated = 1 WHERE id = ?`. */
  function MarkTerminated(users: seq<User>, id: int): (r: seq<User>)
    ensures |r| == |users|
    ensures forall k :: 0 <= k < |users| ==>
              r[k] == (if users[k].id == id then users[k].(terminated := true) else users[k])
  {
    seq(|users|, k requires 0 <= k < |users| =>
      if users[k].id == id then users[k].(terminated := true) else users[k])
  }

  /** POST /api/terminate/:username. Only a session whose username is "mod" may call it
      (else 403); an unknown username gives 404; otherwise the account is flagged and
      its posts and comments deleted (see `TerminateSoftDeletes`). */
  function Terminate(s: Store, session: Option<SessionUser>, username: string): (r: Reply)
    ensures r.session == session
    ensures r.status in {StatusOk, StatusForbidden, StatusNotFound}
    ensures (session.None? || session.value.username != ModUsername) ==>
              r.status == StatusForbidden && r.body == Error("Unauthorized") && r.store == s
    ensures session.Some? && session.value.username == ModUsername && !Registered(s.users, username) ==>
              r.status == StatusNotFound && r.body == Error("User not found") && r.store == s
    ensures session.Some? && session.value.username == ModUsername && Registered(s.users, username) ==>
              r.status == StatusOk && r.body == Success
    ensures r.status == StatusOk ==> r.body == Success && Registered(s.users, username)
  {
    if session.None? || session.value.username != ModUsername then
      Reply(StatusForbidden, Error("Unauthorized"), s, session)
    else
      match FindUser(s.users, username)
      case None => Reply(StatusNotFound, Error("User not found"), s, session)
      case Some(i) =>
        var id := s.users[i].id;
        Reply(StatusOk, Success, s.(users := MarkTerminated(s.users, id),
                                    posts := Filter(s.posts, (p: Post) => p.userId != id),
                                    comments := Filter(s.comments, (c: Comment) => c.userId != id)), session)
  }

  /** What terminating the account with id `id` does to the tables: its user rows are
      flagged (nothing else in them changes), exactly its posts and comments are gone,
      and the ledger and the id counters are untouched. */
  ghost predicate TerminationEffect(s: Store, t: Store, id: int) {
    && |t.users| == |s.users|
    && (forall k :: 0 <= k < |s.users| ==>
          t.users[k].id == s.users[k].id && t.users[k].username == s.users[k].username
          && t.users[k].password == s.users[k].password && t.users[k].pfp == s.users[k].pfp
          && t.users[k].terminated == (s.users[k].terminated || s.users[k].id == id))
    && multiset(t.posts) <= multiset(s.posts) && multiset(t.comments) <= multiset(s.comments)
    && (forall k :: 0 <= k < |t.posts| ==> t.posts[k] in s.posts && t.posts[k].userId != id)
    && (forall k :: 0 <= k < |s.posts| && s.posts[k].userId != id ==> s.posts[k] in t.posts)
    && (forall k :: 0 <= k < |t.comments| ==> t.comments[k] in s.comments && t.comments[k].userId != id)
    && (forall k :: 0 <= k < |s.comments| && s.comments[k].userId != id ==> s.comments[k] in t.comments)
    && t.votes == s.votes
    && t.nextUserId == s.nextUserId && t.nextPostId == s.nextPostId
    && t.nextCommentId == s.nextCommentId && t.nextVoteId == s.nextVoteId
  }

  /** A successful termination is a soft delete of the account `username` resolves to:
      the row stays, now terminated, so the name still resolves to a terminated account. */
  lemma TerminateSoftDeletes(s: Store, session: Option<SessionUser>, username: string)
    requires Terminate(s, session, username).status == StatusOk
    ensures var t := Terminate(s, session, username).store;
      && session.Some? && session.value.username == ModUsername
      && IsTerminated(t, username)
      && FindUser(t.users, username) == FindUser(s.users, username)
      && exists i :: 0 <= i < |s.users| && s.users[i].username == username
                       && TerminationEffect(s, t, s.users[i].id)
  {
    var i := FindUser(s.users, username).value;
    var t := Terminate(s, session, username).store;
    FindUserKeepsUsernames(s.users, t.users, username);
    assert TerminationEffect(s, t, s.users[i].id);
  }

  /** Appending rows after a match, and keeping the usernames of the rows up to it, keeps
      the lookup pointing at the same row. */
  lemma FindUserStable(before: seq<User>, after: seq<User>, username: string)
    requires FindUser(before, username).Some?
    requires |before| <= |after|
    requires forall k :: 0 <= k < |before| ==> after[k].username == before[k].username
    ensures FindUser(after, username) == FindUser(before, username)
  {
    var i := FindUser(before, username).value;
    assert after[i].username == username;
    assert forall j :: 0 <= j < i ==> after[j].username != username;
  }

  /** The lookup by username depends only on the usernames of the rows. */
  lemma FindUserKeepsUsernames(users: seq<User>, users': seq<User>, username: string)
    requires |users'| == |users|
    requires forall k :: 0 <= k < |users| ==> users'[k].username == users[k].username
    ensures FindUser(users', username) == FindUser(users, username)
  {
    assert forall k :: 0 <= k < |users| ==> (users'[k].username == username <==> users[k].username == username);
  }
}
