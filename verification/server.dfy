/** The server as a whole: a request is dispatched to its handler, and a client's
    run of requests threads the store and its session through the handlers.
    The lemmas here are about every handler at once: the database invariants
    they keep, the stickiness of termination, and the soundness of sessions.
 */
module Server {
  import opened Tables
  import opened Http
  import opened Ledger
  import opened Accounts
  import opened Content
  import opened Views

  /** One HTTP request, with the fields its handler reads from the body or the URL. */
  datatype Request =
    | SignupReq(username: string, password: string, pfp: string)
    | LoginReq(username: string, password: string)
    | MeReq
    | CreatePostReq(title: string, text: string)
    | ListPostsReq
    | VoteReq(postId: int, value: int)
    | AddCommentReq(postId: int, text: string)
    | ListCommentsReq(postId: int)
    | TerminateReq(username: string)
    | ProfileReq(username: string)

  /** The route table. Every handler answers 200, 400, 401, 403 or 404, and only a
      successful login changes the client's session, to the account it logged in as. */
  function Step(s: Store, session: Option<SessionUser>, req: Request): (r: Reply)
    ensures r.status in {StatusOk, StatusBadRequest, StatusUnauthorized, StatusForbidden, StatusNotFound}
    ensures r.session != session ==>
              && req.LoginReq? && r.status == StatusOk
              && r.session.Some? && r.session.value.username == req.username
  {
    match req
    case SignupReq(username, password, pfp) => Signup(s, session, username, password, pfp)
    case LoginReq(username, password) => Login(s, session, username, password)
    case MeReq => Me(s, session)
    case CreatePostReq(title, text) => CreatePost(s, session, title, text)
    case ListPostsReq => ListPosts(s, session)
    case VoteReq(postId, value) => CastVote(s, session, postId, value)
    case AddCommentReq(postId, text) => AddComment(s, session, postId, text)
    case ListCommentsReq(postId) => ListComments(s, session, postId)
    case TerminateReq(username) => Terminate(s, session, username)
    case ProfileReq(username) => UserProfile(s, session, username)
  }

  /** The requests that may write to the database. */
  predicate Writes(req: Request) {
    req.SignupReq? || req.CreatePostReq? || req.VoteReq? || req.AddCommentReq? || req.TerminateReq?
  }

  /** Login, `/api/me` and the read endpoints never change the database. */
  lemma ReadsKeepStore(s: Store, session: Option<SessionUser>, req: Request)
    requires !Writes(req)
    ensures Step(s, session, req).store == s
  {
    match req
    case LoginReq(username, password) =>
    case MeReq =>
    case ListPostsReq =>
    case ListCommentsReq(postId) =>
    case ProfileReq(username) =>
  }

  /** One client's requests, one after the other. */
  function Run(s: Store, session: Option<SessionUser>, reqs: seq<Request>): (Store, Option<SessionUser>)
    decreases |reqs|
  {
    if |reqs| == 0 then (s, session)
    else
      var r := Step(s, session, reqs[0]);
      Run(r.store, r.session, reqs[1..])
  }

  /** One request as the server receives it: the session its client holds, and the request. */
  datatype Call = Call(session: Option<SessionUser>, req: Request)

  /** The database after requests from any number of clients, interleaved in any order.
      Each call carries whatever session its client holds at that moment. */
  function Serve(s: Store, calls: seq<Call>): Store
    decreases |calls|
  {
    if |calls| == 0 then s
    else Serve(Step(s, calls[0].session, calls[0].req).store, calls[1..])
  }

  /** The calls one client's run makes, each with the session it holds when it makes it. */
  function RunCalls(s: Store, session: Option<SessionUser>, reqs: seq<Request>): (calls: seq<Call>)
    ensures |calls| == |reqs|
    ensures forall k :: 0 <= k < |reqs| ==> calls[k].req == reqs[k]
    ensures |reqs| > 0 ==> calls[0].session == session
    decreases |reqs|
  {
    if |reqs| == 0 then []
    else
      var r := Step(s, session, reqs[0]);
      [Call(session, reqs[0])] + RunCalls(r.store, r.session, reqs[1..])
  }

  /** A single client's run is one of the interleavings `Serve` covers. */
  lemma {:induction false} RunIsServe(s: Store, session: Option<SessionUser>, reqs: seq<Request>)
    ensures Serve(s, RunCalls(s, session, reqs)) == Run(s, session, reqs).0
    decreases |reqs|
  {
    if |reqs| > 0 {
      var r := Step(s, session, reqs[0]);
      var calls := RunCalls(s, session, reqs);
      assert calls[1..] == RunCalls(r.store, r.session, reqs[1..]);
      RunIsServe(r.store, r.session, reqs[1..]);
    }
  }

  // ------------------------------------------------------------------
  // Database invariants
  // ------------------------------------------------------------------

  /** Every ledger row names a post id that has already been handed out. */
  ghost predicate VotesOnIssuedPosts(s: Store) {
    forall j :: 0 <= j < |s.votes| ==> s.votes[j].postId < s.nextPostId
  }

  /** The structural invariants every request keeps: each table in rowid order with ids
      its counter issued, usernames unique, and one ledger row per (user, post). */
  ghost predicate Shape(s: Store) {
    && Issued(s.users, UserId, s.nextUserId)
    && Issued(s.posts, PostId, s.nextPostId)
    && Issued(s.comments, CommentId, s.nextCommentId)
    && Issued(s.votes, VoteId, s.nextVoteId)
    && UniqueUsernames(s.users)
    && OneVotePerPair(s.votes)
  }

  /** `Shape`, and the score cache: every post's cached score equal to its ledger sum, and
      no ledger row for a post id not yet issued. */
  ghost predicate Valid(s: Store) {
    && Shape(s)
    && ScoresMatchLedger(s)
    && VotesOnIssuedPosts(s)
  }

  /** A request the invariant survives: anything but a vote on a post id not yet issued. */
  predicate Admissible(s: Store, req: Request) {
    req.VoteReq? ==> req.postId < s.nextPostId
  }

  lemma EmptyValid()
    ensures Valid(Empty)
  {
  }

  lemma SignupKeepsShape(s: Store, session: Option<SessionUser>, username: string, password: string, pfp: string)
    requires Shape(s)
    ensures Shape(Signup(s, session, username, password, pfp).store)
  {
    var r := Signup(s, session, username, password, pfp);
    if r.status == StatusOk {
      var row := User(s.nextUserId, username, password, pfp, false);
      AppendIssued(s.users, UserId, s.nextUserId, row);
      var users := r.store.users;
      forall i, j | 0 <= i < j < |users| ensures users[i].username != users[j].username {
        assert users[i] == s.users[i];
        if j < |s.users| {
          assert users[j] == s.users[j];
        }
      }
    }
  }

  lemma SignupKeepsValid(s: Store, session: Option<SessionUser>, username: string, password: string, pfp: string)
    requires Valid(s)
    ensures Valid(Signup(s, session, username, password, pfp).store)
  {
    SignupKeepsShape(s, session, username, password, pfp);
  }

  lemma CreatePostKeepsShape(s: Store, session: Option<SessionUser>, title: string, body: string)
    requires Shape(s)
    ensures Shape(CreatePost(s, session, title, body).store)
  {
    if session.Some? {
      var row := Post(s.nextPostId, session.value.id, title, body, 0);
      AppendIssued(s.posts, PostId, s.nextPostId, row);
    }
  }

  lemma CreatePostKeepsValid(s: Store, session: Option<SessionUser>, title: string, body: string)
    requires Valid(s)
    ensures Valid(CreatePost(s, session, title, body).store)
  {
    CreatePostKeepsShape(s, session, title, body);
    if session.Some? {
      var t := CreatePost(s, session, title, body).store;
      SumIgnoresOtherPosts(s.votes, s.nextPostId);
      forall k | 0 <= k < |t.posts| ensures t.posts[k].score == SumVotes(t.votes, t.posts[k].id) {
        if k < |s.posts| {
          assert t.posts[k] == s.posts[k];
        }
      }
    }
  }

  lemma AddCommentKeepsShape(s: Store, session: Option<SessionUser>, postId: int, body: string)
    requires Shape(s)
    ensures Shape(AddComment(s, session, postId, body).store)
  {
    if session.Some? {
      var row := Comment(s.nextCommentId, postId, session.value.id, body);
      AppendIssued(s.comments, CommentId, s.nextCommentId, row);
    }
  }

  lemma AddCommentKeepsValid(s: Store, session: Option<SessionUser>, postId: int, body: string)
    requires Valid(s)
    ensures Valid(AddComment(s, session, postId, body).store)
  {
    AddCommentKeepsShape(s, session, postId, body);
  }

  /** A vote on any post id, issued or not, keeps the structural invariants. */
  lemma CastVoteKeepsShape(s: Store, session: Option<SessionUser>, postId: int, value: int)
    requires Shape(s)
    ensures Shape(CastVote(s, session, postId, value).store)
  {
    if session.Some? {
      var t := CastVote(s, session, postId, value).store;
      var written := Upsert(s, session.value.id, postId, value);
      UpsertKeepsOneVotePerPair(s, session.value.id, postId, value);
      UpsertKeepsIdsIssued(s, session.value.id, postId, value);
      assert t == Recompute(written, postId);
      assert forall k :: 0 <= k < |s.posts| ==> t.posts[k].id == s.posts[k].id;
    }
  }

  /** A vote keeps every cached score equal to its ledger sum: the voted post's score is
      recomputed, and no other post's ledger sum is touched by the write. */
  lemma CastVoteKeepsScores(s: Store, session: Option<SessionUser>, postId: int, value: int)
    requires ScoresMatchLedger(s)
    ensures ScoresMatchLedger(CastVote(s, session, postId, value).store)
  {
    if session.Some? {
      var t := CastVote(s, session, postId, value).store;
      UpsertKeepsOtherSums(s, session.value.id, postId, value);
      assert t.votes == Upsert(s, session.value.id, postId, value).votes;
      forall k | 0 <= k < |t.posts| ensures t.posts[k].score == SumVotes(t.votes, t.posts[k].id) {
        if s.posts[k].id != postId {
          assert SumVotes(t.votes, s.posts[k].id) == SumVotes(s.votes, s.posts[k].id);
        }
      }
    }
  }

  /** The vote write on an issued post id keeps the ledger's own invariants. */
  lemma UpsertKeepsLedgerValid(s: Store, userId: int, postId: int, value: int)
    requires Issued(s.votes, VoteId, s.nextVoteId) && OneVotePerPair(s.votes) && VotesOnIssuedPosts(s)
    requires postId < s.nextPostId
    ensures var w := Upsert(s, userId, postId, value);
      Issued(w.votes, VoteId, w.nextVoteId) && OneVotePerPair(w.votes) && VotesOnIssuedPosts(w)
  {
    UpsertKeepsOneVotePerPair(s, userId, postId, value);
    UpsertKeepsIdsIssued(s, userId, postId, value);
  }

  /** A vote on an issued post id keeps every invariant. */
  lemma CastVoteKeepsValid(s: Store, session: Option<SessionUser>, postId: int, value: int)
    requires Valid(s)
    requires postId < s.nextPostId
    ensures Valid(CastVote(s, session, postId, value).store)
  {
    CastVoteKeepsScores(s, session, postId, value);
    CastVoteKeepsShape(s, session, postId, value);
    if session.Some? {
      var t := CastVote(s, session, postId, value).store;
      var written := Upsert(s, session.value.id, postId, value);
      UpsertKeepsLedgerValid(s, session.value.id, postId, value);
      assert t == Recompute(written, postId);
    }
  }

  lemma TerminateKeepsShape(s: Store, session: Option<SessionUser>, username: string)
    requires Shape(s)
    ensures Shape(Terminate(s, session, username).store)
  {
    var r := Terminate(s, session, username);
    if r.status == StatusOk {
      var t := r.store;
      var i := FindUser(s.users, username).value;
      var id := s.users[i].id;
      FilterAscending(s.posts, (p: Post) => p.userId != id, PostId, s.nextPostId);
      FilterAscending(s.comments, (c: Comment) => c.userId != id, CommentId, s.nextCommentId);
      assert forall k :: 0 <= k < |s.users| ==> t.users[k].id == s.users[k].id && t.users[k].username == s.users[k].username;
    }
  }

  lemma TerminateKeepsValid(s: Store, session: Option<SessionUser>, username: string)
    requires Valid(s)
    ensures Valid(Terminate(s, session, username).store)
  {
    TerminateKeepsShape(s, session, username);
    var r := Terminate(s, session, username);
    if r.status == StatusOk {
      DeletingPostsKeepsScores(s, r.store);
    }
  }

  /** Deleting posts while keeping the ledger keeps every remaining score equal to its sum. */
  lemma DeletingPostsKeepsScores(s: Store, t: Store)
    requires ScoresMatchLedger(s) && t.votes == s.votes
    requires forall k :: 0 <= k < |t.posts| ==> t.posts[k] in s.posts
    ensures ScoresMatchLedger(t)
  {
    forall k | 0 <= k < |t.posts| ensures t.posts[k].score == SumVotes(t.votes, t.posts[k].id) {
      var j :| 0 <= j < |s.posts| && s.posts[j] == t.posts[k];
    }
  }

  /** Every admissible request keeps the database invariants. */
  lemma StepKeepsValid(s: Store, session: Option<SessionUser>, req: Request)
    requires Valid(s) && Admissible(s, req)
    ensures Valid(Step(s, session, req).store)
  {
    match req
    case SignupReq(username, password, pfp) => SignupKeepsValid(s, session, username, password, pfp);
    case CreatePostReq(title, text) => CreatePostKeepsValid(s, session, title, text);
    case VoteReq(postId, value) => CastVoteKeepsValid(s, session, postId, value);
    case AddCommentReq(postId, text) => AddCommentKeepsValid(s, session, postId, text);
    case TerminateReq(username) => TerminateKeepsValid(s, session, username);
    case _ => ReadsKeepStore(s, session, req);
  }

  /** Every request, from any client, keeps the structural invariants. */
  lemma StepKeepsShape(s: Store, session: Option<SessionUser>, req: Request)
    requires Shape(s)
    ensures Shape(Step(s, session, req).store)
  {
    match req
    case SignupReq(username, password, pfp) => SignupKeepsShape(s, session, username, password, pfp);
    case CreatePostReq(title, text) => CreatePostKeepsShape(s, session, title, text);
    case VoteReq(postId, value) => CastVoteKeepsShape(s, session, postId, value);
    case AddCommentReq(postId, text) => AddCommentKeepsShape(s, session, postId, text);
    case TerminateReq(username) => TerminateKeepsShape(s, session, username);
    case _ => ReadsKeepStore(s, session, req);
  }

  /** Whatever requests any clients send, in any order, the structural invariants hold. */
  lemma {:induction false} ServeKeepsShape(s: Store, calls: seq<Call>)
    requires Shape(s)
    ensures Shape(Serve(s, calls))
    decreases |calls|
  {
    if |calls| > 0 {
      StepKeepsShape(s, calls[0].session, calls[0].req);
      ServeKeepsShape(Step(s, calls[0].session, calls[0].req).store, calls[1..]);
    }
  }

  /** On every database the clients can reach from an empty one, the feed is newest first
      and each post's comments are oldest first. */
  lemma ServedViewsOrdered(calls: seq<Call>, viewer: Option<SessionUser>, postId: int)
    ensures var t := Serve(Empty, calls);
      var feed := ListPosts(t, viewer).body.feed;
      var thread := ListComments(t, viewer, postId).body.thread;
      && (forall i, j :: 0 <= i < j < |feed| ==> feed[i].post.id > feed[j].post.id)
      && (forall i, j :: 0 <= i < j < |thread| ==> thread[i].comment.id < thread[j].comment.id)
  {
    EmptyValid();
    ServeKeepsShape(Empty, calls);
    FeedNewestFirst(Serve(Empty, calls), viewer);
    ThreadOldestFirst(Serve(Empty, calls), viewer, postId);
  }

  /** On every database the clients can reach from an empty one, a signup or login is
      refused for a terminated account with 403, before the "taken" or password check. */
  lemma ServedRefusalsByTermination(calls: seq<Call>, session: Option<SessionUser>, username: string, password: string, pfp: string)
    ensures var t := Serve(Empty, calls);
      TerminatedName(t.users, username) ==>
        && Signup(t, session, username, password, pfp).status == StatusForbidden
        && Login(t, session, username, password).status == StatusForbidden
  {
    EmptyValid();
    ServeKeepsShape(Empty, calls);
    SignupRefusals(Serve(Empty, calls), session, username, password, pfp);
    LoginOutcomes(Serve(Empty, calls), session, username, password);
  }

  /** Every call of the sequence is admissible in the store it meets. */
  ghost predicate AllAdmissible(s: Store, calls: seq<Call>)
    decreases |calls|
  {
    |calls| == 0 ||
      (Admissible(s, calls[0].req) && AllAdmissible(Step(s, calls[0].session, calls[0].req).store, calls[1..]))
  }

  /** From a valid store, admissible requests from any clients, in any order, end in a
      valid store: in particular every cached score equals its ledger sum. */
  lemma {:induction false} ServeKeepsValid(s: Store, calls: seq<Call>)
    requires Valid(s) && AllAdmissible(s, calls)
    ensures Valid(Serve(s, calls))
    decreases |calls|
  {
    if |calls| > 0 {
      StepKeepsValid(s, calls[0].session, calls[0].req);
      ServeKeepsValid(Step(s, calls[0].session, calls[0].req).store, calls[1..]);
    }
  }

  /** The invariant is not kept without admissibility: a vote on the id the next post will
      get is recorded, and the post created next starts at score 0 although its ledger
      sum is not 0. */
  lemma DanglingVoteDrift()
    ensures var voter := Some(SessionUser(1, "alice", false));
      var s := Empty.(users := [User(1, "alice", "pw", "", false)], nextUserId := 2);
      var voted := CastVote(s, voter, 1, 1);
      var posted := CreatePost(voted.store, voter, "Hello", "World");
      && Valid(s) && voted.status == StatusOk && posted.status == StatusOk
      && posted.store.posts[0].id == 1 && posted.store.posts[0].score == 0
      && SumVotes(posted.store.votes, 1) == 1
      && !ScoresMatchLedger(posted.store)
  {
    var voter := Some(SessionUser(1, "alice", false));
    var s := Empty.(users := [User(1, "alice", "pw", "", false)], nextUserId := 2);
    var voted := CastVote(s, voter, 1, 1);
    assert voted.store.votes == [Vote(1, 1, 1, 1)];
    var posted := CreatePost(voted.store, voter, "Hello", "World");
    assert posted.store.votes[1..] == [];
  }

  // ------------------------------------------------------------------
  // Termination is sticky
  // ------------------------------------------------------------------

  /** How a request may change `users`: existing rows keep their id, username, password
      and pfp and are never un-terminated, and rows are only appended, under usernames not yet taken. */
  ghost predicate UsersEvolve(before: seq<User>, after: seq<User>) {
    && |before| <= |after|
    && (forall k :: 0 <= k < |before| ==>
          after[k].id == before[k].id && after[k].username == before[k].username
          && after[k].password == before[k].password && after[k].pfp == before[k].pfp
          && (before[k].terminated ==> after[k].terminated))
    && (forall k :: |before| <= k < |after| ==> !Registered(before, after[k].username))
  }

  /** Every handler changes `users` only as `UsersEvolve` allows. */
  lemma StepUsersEvolve(s: Store, session: Option<SessionUser>, req: Request)
    ensures UsersEvolve(s.users, Step(s, session, req).store.users)
  {
    match req
    case SignupReq(username, password, pfp) =>
    case TerminateReq(username) =>
    case CreatePostReq(_, _) =>
    case VoteReq(_, _) =>
    case AddCommentReq(_, _) =>
    case _ => ReadsKeepStore(s, session, req);
  }

  /** No handler lifts a termination or re-points its username at another account. */
  lemma StepKeepsTermination(s: Store, session: Option<SessionUser>, req: Request, username: string)
    requires IsTerminated(s, username)
    ensures IsTerminated(Step(s, session, req).store, username)
    ensures FindUser(Step(s, session, req).store.users, username) == FindUser(s.users, username)
  {
    var after := Step(s, session, req).store.users;
    StepUsersEvolve(s, session, req);
    FindUserStable(s.users, after, username);
  }

  /** Whatever requests any clients send, a terminated username keeps resolving to the
      same, still terminated, account. */
  lemma {:induction false} ServeKeepsTermination(s: Store, calls: seq<Call>, username: string)
    requires IsTerminated(s, username)
    ensures IsTerminated(Serve(s, calls), username)
    ensures FindUser(Serve(s, calls).users, username) == FindUser(s.users, username)
    decreases |calls|
  {
    if |calls| > 0 {
      StepKeepsTermination(s, calls[0].session, calls[0].req, username);
      ServeKeepsTermination(Step(s, calls[0].session, calls[0].req).store, calls[1..], username);
    }
  }

  /** After a successful termination, whatever requests any clients send next (the
      terminated user's own surviving session included), signing up with that username is
      refused with the terminated response and inserts nothing. */
  lemma TerminationIsSticky(s: Store, moderator: Option<SessionUser>, username: string,
                            later: seq<Call>, client: Option<SessionUser>, password: string, pfp: string)
    requires Terminate(s, moderator, username).status == StatusOk
    ensures var t := Serve(Terminate(s, moderator, username).store, later);
      Signup(t, client, username, password, pfp)
        == Reply(StatusForbidden, Terminated("Your account was terminated and cannot be recreated."), t, client)
  {
    TerminateSoftDeletes(s, moderator, username);
    ServeKeepsTermination(Terminate(s, moderator, username).store, later, username);
  }

  /** A terminated author's posts are gone from the feed at once. */
  lemma TerminatedAuthorLeavesFeed(s: Store, moderator: Option<SessionUser>, username: string, viewer: Option<SessionUser>)
    requires Terminate(s, moderator, username).status == StatusOk
    ensures var t := Terminate(s, moderator, username).store;
      var feed := ListPosts(t, viewer).body.feed;
      exists i :: 0 <= i < |s.users| && s.users[i].username == username
        && forall k :: 0 <= k < |feed| ==> feed[k].post.userId != s.users[i].id
  {
    TerminateSoftDeletes(s, moderator, username);
  }

  /** Once terminated, an account's profile is the tombstone, whatever requests any
      clients send next and whoever views it. */
  lemma TerminatedProfileIsTombstone(s: Store, moderator: Option<SessionUser>, username: string,
                                     later: seq<Call>, viewer: Option<SessionUser>)
    requires Terminate(s, moderator, username).status == StatusOk
    ensures var t := Serve(Terminate(s, moderator, username).store, later);
      UserProfile(t, viewer, username) == Reply(StatusOk, Tombstone, t, viewer)
  {
    TerminateSoftDeletes(s, moderator, username);
    ServeKeepsTermination(Terminate(s, moderator, username).store, later, username);
  }

  // ------------------------------------------------------------------
  // Sessions
  // ------------------------------------------------------------------

  /** A session names an account that exists, and is a moderator's exactly when that
      account's username is "mod". */
  ghost predicate SessionSound(s: Store, session: Option<SessionUser>) {
    session.Some? ==>
      && session.value.isMod == (session.value.username == ModUsername)
      && exists i :: 0 <= i < |s.users| && s.users[i].id == session.value.id
                       && s.users[i].username == session.value.username
  }

  lemma StepKeepsSessionSound(s: Store, session: Option<SessionUser>, req: Request)
    requires SessionSound(s, session)
    ensures SessionSound(Step(s, session, req).store, Step(s, session, req).session)
  {
    var r := Step(s, session, req);
    StepUsersEvolve(s, session, req);
    if r.session == session && session.Some? {
      var i :| 0 <= i < |s.users| && s.users[i].id == session.value.id
               && s.users[i].username == session.value.username;
      assert r.store.users[i].id == s.users[i].id && r.store.users[i].username == s.users[i].username;
    }
  }

  /** A request from one client leaves every other client's sound session sound: no
      handler deletes a user row or changes its id or username, so a session opened
      before a termination still names its, now terminated, account. */
  lemma StepKeepsOtherSessionSound(s: Store, session: Option<SessionUser>, req: Request, other: Option<SessionUser>)
    requires SessionSound(s, other)
    ensures SessionSound(Step(s, session, req).store, other)
  {
    var after := Step(s, session, req).store.users;
    StepUsersEvolve(s, session, req);
    if other.Some? {
      var i :| 0 <= i < |s.users| && s.users[i].id == other.value.id
               && s.users[i].username == other.value.username;
      assert after[i].id == s.users[i].id && after[i].username == s.users[i].username;
    }
  }

  /** Whatever requests any clients send, a session that was sound stays sound. */
  lemma {:induction false} ServeKeepsSessionSound(s: Store, calls: seq<Call>, other: Option<SessionUser>)
    requires SessionSound(s, other)
    ensures SessionSound(Serve(s, calls), other)
    decreases |calls|
  {
    if |calls| > 0 {
      StepKeepsOtherSessionSound(s, calls[0].session, calls[0].req, other);
      ServeKeepsSessionSound(Step(s, calls[0].session, calls[0].req).store, calls[1..], other);
    }
  }

  /** The session the terminated user held before the moderator's request survives it and
      any later requests: it still names the account, the account stays terminated, and
      posting with it still succeeds, since posting checks only that a session exists. */
  lemma TerminatedSessionStillPosts(s: Store, moderator: Option<SessionUser>, username: string,
                                    victim: Option<SessionUser>, later: seq<Call>, title: string, body: string)
    requires Terminate(s, moderator, username).status == StatusOk
    requires victim.Some? && victim.value.username == username && SessionSound(s, victim)
    ensures var t := Serve(Terminate(s, moderator, username).store, later);
      && SessionSound(t, victim) && IsTerminated(t, username)
      && CreatePost(t, victim, title, body).status == StatusOk
  {
    var u := Terminate(s, moderator, username).store;
    TerminateSoftDeletes(s, moderator, username);
    StepKeepsOtherSessionSound(s, moderator, TerminateReq(username), victim);
    ServeKeepsSessionSound(u, later, victim);
    ServeKeepsTermination(u, later, username);
  }

  /** Starting from a sound session, a client's session stays sound through its run: it
      names an existing account (terminated or not, since termination does not end a
      session). It is either the session the client started with, or one a login request
      of the run opened for that username. */
  lemma {:induction false} RunKeepsSessionSound(s: Store, session: Option<SessionUser>, reqs: seq<Request>)
    requires SessionSound(s, session)
    ensures var (t, after) := Run(s, session, reqs);
      && SessionSound(t, after)
      && (after == session
          || (after.Some? && exists k :: 0 <= k < |reqs| && reqs[k].LoginReq? && reqs[k].username == after.value.username))
    decreases |reqs|
  {
    if |reqs| > 0 {
      var r := Step(s, session, reqs[0]);
      var after := Run(s, session, reqs).1;
      StepKeepsSessionSound(s, session, reqs[0]);
      RunKeepsSessionSound(r.store, r.session, reqs[1..]);
      if after != session {
        if after == r.session {
          assert reqs[0].LoginReq? && reqs[0].username == after.value.username;
        } else {
          var k :| 0 <= k < |reqs[1..]| && reqs[1..][k].LoginReq? && reqs[1..][k].username == after.value.username;
          assert reqs[k + 1] == reqs[1..][k];
        }
      }
    }
  }

  // ------------------------------------------------------------------
  // A scripted vote sequence
  // ------------------------------------------------------------------

  /** A posts "Hello"/"World" (score 0); B votes +1 (score 1); B changes to -1 (score -1);
      C votes +1 (score 0). The ledger ends with one row each for B and C. */
  lemma VoteScenario()
    ensures var a, b, c := Some(SessionUser(1, "a", false)), Some(SessionUser(2, "b", false)), Some(SessionUser(3, "c", false));
      var s0 := Empty.(users := [User(1, "a", "", "", false), User(2, "b", "", "", false), User(3, "c", "", "", false)],
                       nextUserId := 4);
      var s1 := CreatePost(s0, a, "Hello", "World").store;
      var s2 := CastVote(s1, b, 1, 1).store;
      var s3 := CastVote(s2, b, 1, -1).store;
      var s4 := CastVote(s3, c, 1, 1).store;
      && s1.posts[0].score == 0
      && s2.posts[0].score == 1
      && s3.posts[0].score == -1
      && s4.posts[0].score == 0
      && s4.votes == [Vote(1, 2, 1, -1), Vote(2, 3, 1, 1)]
  {
    var users := [User(1, "a", "", "", false), User(2, "b", "", "", false), User(3, "c", "", "", false)];
    ScenarioPost(users);
    ScenarioFirstVote(users);
    ScenarioChangedVote(users);
    ScenarioSecondVoter(users);
  }

  /** `VoteScenario`, step 1: A's post gets id 1 and score 0. */
  lemma ScenarioPost(users: seq<User>)
    ensures CreatePost(Empty.(users := users, nextUserId := 4), Some(SessionUser(1, "a", false)), "Hello", "World").store
         == Store(users, [Post(1, 1, "Hello", "World", 0)], [], [], 4, 2, 1, 1)
  {
  }

  /** `VoteScenario`, step 2: B's first vote +1 is appended and the score becomes 1. */
  lemma ScenarioFirstVote(users: seq<User>)
    ensures CastVote(Store(users, [Post(1, 1, "Hello", "World", 0)], [], [], 4, 2, 1, 1), Some(SessionUser(2, "b", false)), 1, 1).store
         == Store(users, [Post(1, 1, "Hello", "World", 1)], [], [Vote(1, 2, 1, 1)], 4, 2, 1, 2)
  {
    var s := Store(users, [Post(1, 1, "Hello", "World", 0)], [], [], 4, 2, 1, 1);
    FirstVoteAddsValue(s, SessionUser(2, "b", false), 1, 1, 0);
    VoteUpdatesOrInserts(s, SessionUser(2, "b", false), 1, 1);
  }

  /** `VoteScenario`, step 3: B's change to -1 overwrites the row and the score becomes -1. */
  lemma ScenarioChangedVote(users: seq<User>)
    ensures CastVote(Store(users, [Post(1, 1, "Hello", "World", 1)], [], [Vote(1, 2, 1, 1)], 4, 2, 1, 2), Some(SessionUser(2, "b", false)), 1, -1).store
         == Store(users, [Post(1, 1, "Hello", "World", -1)], [], [Vote(1, 2, 1, -1)], 4, 2, 1, 2)
  {
    var s := Store(users, [Post(1, 1, "Hello", "World", 1)], [], [Vote(1, 2, 1, 1)], 4, 2, 1, 2);
    assert SumVotes(s.votes, 1) == 1 by { assert s.votes[1..] == []; }
    assert FindVote(s.votes, 2, 1) == Some(0);
    VoteChangeShiftsScore(s, SessionUser(2, "b", false), 1, -1, 0);
    VoteUpdatesOrInserts(s, SessionUser(2, "b", false), 1, -1);
  }

  /** `VoteScenario`, step 4: C's first vote +1 is appended and the score returns to 0. */
  lemma ScenarioSecondVoter(users: seq<User>)
    ensures CastVote(Store(users, [Post(1, 1, "Hello", "World", -1)], [], [Vote(1, 2, 1, -1)], 4, 2, 1, 2), Some(SessionUser(3, "c", false)), 1, 1).store
         == Store(users, [Post(1, 1, "Hello", "World", 0)], [], [Vote(1, 2, 1, -1), Vote(2, 3, 1, 1)], 4, 2, 1, 3)
  {
    var s := Store(users, [Post(1, 1, "Hello", "World", -1)], [], [Vote(1, 2, 1, -1)], 4, 2, 1, 2);
    assert SumVotes(s.votes, 1) == -1 by { assert s.votes[1..] == []; }
    assert FindVote(s.votes, 3, 1).None?;
    FirstVoteAddsValue(s, SessionUser(3, "c", false), 1, 1, 0);
    VoteUpdatesOrInserts(s, SessionUser(3, "c", false), 1, 1);
  }
}
