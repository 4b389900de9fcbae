/** The write endpoints of a logged-in user: creating a post, voting on a post
    and commenting on a post. None of them validates the post id it is given.
 */
module Content {
  import opened Tables
  import opened Http
  import opened Ledger

  /** POST /api/posts: without a session 401 and nothing changes; otherwise one post by
      the session user is inserted with the next post id and score 0. */
  function CreatePost(s: Store, session: Option<SessionUser>, title: string, body: string): (r: Reply)
    ensures r.session == session
    ensures session.None? ==> r == NotLoggedIn(s, session)
    ensures session.Some? ==>
              && r.status == StatusOk && r.body == Success
              && r.store.posts == s.posts + [Post(s.nextPostId, session.value.id, title, body, 0)]
              && r.store.nextPostId == s.nextPostId + 1
              && r.store.users == s.users && r.store.comments == s.comments && r.store.votes == s.votes
              && r.store.nextUserId == s.nextUserId && r.store.nextCommentId == s.nextCommentId
              && r.store.nextVoteId == s.nextVoteId
  {
    match session
    case None => NotLoggedIn(s, session)
    case Some(user) =>
      var row := Post(s.nextPostId, user.id, title, body, 0);
      Reply(StatusOk, Success, s.(posts := s.posts + [row], nextPostId := s.nextPostId + 1), session)
  }

  /** POST /api/comments: without a session 401 and nothing changes; otherwise one comment
      by the session user on `postId` is inserted with the next comment id. */
  function AddComment(s: Store, session: Option<SessionUser>, postId: int, body: string): (r: Reply)
    ensures r.session == session
    ensures session.None? ==> r == NotLoggedIn(s, session)
    ensures session.Some? ==>
              && r.status == StatusOk && r.body == Success
              && r.store.comments == s.comments + [Comment(s.nextCommentId, postId, session.value.id, body)]
              && r.store.nextCommentId == s.nextCommentId + 1
              && r.store.users == s.users && r.store.posts == s.posts && r.store.votes == s.votes
              && r.store.nextUserId == s.nextUserId && r.store.nextPostId == s.nextPostId
              && r.store.nextVoteId == s.nextVoteId
  {
    match session
    case None => NotLoggedIn(s, session)
    case Some(user) =>
      var row := Comment(s.nextCommentId, postId, user.id, body);
      Reply(StatusOk, Success, s.(comments := s.comments + [row], nextCommentId := s.nextCommentId + 1), session)
  }

  /** POST /api/vote: without a session 401 and nothing changes; otherwise the ledger
      records the session user's stance on `postId`, then the post's cached score is
      recomputed from the ledger. Users, comments and the other posts are untouched. */
  function CastVote(s: Store, session: Option<SessionUser>, postId: int, value: int): (r: Reply)
    ensures r.session == session
    ensures session.None? ==> r == NotLoggedIn(s, session)
    ensures session.Some? ==>
              && r.status == StatusOk && r.body == Success
              && r.store.users == s.users && r.store.comments == s.comments
              && r.store.nextUserId == s.nextUserId && r.store.nextPostId == s.nextPostId
              && r.store.nextCommentId == s.nextCommentId
              && |r.store.posts| == |s.posts|
              && (forall k :: 0 <= k < |s.posts| && s.posts[k].id != postId ==> r.store.posts[k] == s.posts[k])
              && (forall k :: 0 <= k < |s.posts| && s.posts[k].id == postId ==>
                    r.store.posts[k] == s.posts[k].(score := SumVotes(r.store.votes, postId)))
  {
    match session
    case None => NotLoggedIn(s, session)
    case Some(user) =>
      var written := Upsert(s, user.id, postId, value);
      RecomputeCachesSum(written, postId);
      Reply(StatusOk, Success, Recompute(written, postId), session)
  }

  /** The ledger effect of a vote: the session user's row for the post is overwritten in
      place when there is one, otherwise exactly one row is appended; either way the pair
      ends up holding `value`, and a ledger with one row per pair keeps that property. */
  lemma VoteUpdatesOrInserts(s: Store, user: SessionUser, postId: int, value: int)
    ensures var votes := CastVote(s, Some(user), postId, value).store.votes;
      && FindVote(votes, user.id, postId).Some?
      && votes[FindVote(votes, user.id, postId).value].value == value
      && (FindVote(s.votes, user.id, postId).Some? ==>
            var i := FindVote(s.votes, user.id, postId).value;
            votes == s.votes[i := s.votes[i].(value := value)])
      && (FindVote(s.votes, user.id, postId).None? ==>
            votes == s.votes + [Vote(s.nextVoteId, user.id, postId, value)])
      && (OneVotePerPair(s.votes) ==> OneVotePerPair(votes))
  {
    UpsertRecordsStance(s, user.id, postId, value);
    if OneVotePerPair(s.votes) {
      UpsertKeepsOneVotePerPair(s, user.id, postId, value);
    }
  }

  /** Casting the same vote again changes nothing at all. */
  lemma VoteIdempotent(s: Store, session: Option<SessionUser>, postId: int, value: int)
    ensures var once := CastVote(s, session, postId, value);
            CastVote(once.store, session, postId, value) == once
  {
    if session.Some? {
      var user := session.value;
      var once := CastVote(s, session, postId, value);
      var twice := CastVote(once.store, session, postId, value);
      var written := Upsert(s, user.id, postId, value);
      UpsertRecordsStance(s, user.id, postId, value);
      var i := FindVote(written.votes, user.id, postId).value;
      assert written.votes[i := written.votes[i].(value := value)] == written.votes;
      assert twice.store.votes == once.store.votes;
      assert twice.store.posts == once.store.posts;
    }
  }

  /** Changing a stance from `v` to `w` moves the post's score by exactly `w - v`
      (when the cached score matched the ledger beforehand). */
  lemma VoteChangeShiftsScore(s: Store, user: SessionUser, postId: int, w: int, k: nat)
    requires k < |s.posts| && s.posts[k].id == postId
    requires s.posts[k].score == SumVotes(s.votes, postId)
    requires FindVote(s.votes, user.id, postId).Some?
    ensures var v := s.votes[FindVote(s.votes, user.id, postId).value].value;
            CastVote(s, Some(user), postId, w).store.posts[k].score == s.posts[k].score + w - v
  {
    var i := FindVote(s.votes, user.id, postId).value;
    SumUpdate(s.votes, i, w, postId);
  }

  /** Casting `v` and then changing it to `w` moves the post's score by exactly `w - v`,
      whatever the store held before: the first vote already caches the ledger sum. */
  lemma VoteChangeAfterCast(s: Store, user: SessionUser, postId: int, v: int, w: int, k: nat)
    requires k < |s.posts| && s.posts[k].id == postId
    ensures var once := CastVote(s, Some(user), postId, v).store;
      CastVote(once, Some(user), postId, w).store.posts[k].score == once.posts[k].score + w - v
  {
    var once := CastVote(s, Some(user), postId, v).store;
    VoteUpdatesOrInserts(s, user, postId, v);
    VoteChangeShiftsScore(once, user, postId, w, k);
  }

  /** A first vote by a user on a post moves its score by exactly the value cast. */
  lemma FirstVoteAddsValue(s: Store, user: SessionUser, postId: int, value: int, k: nat)
    requires k < |s.posts| && s.posts[k].id == postId
    requires s.posts[k].score == SumVotes(s.votes, postId)
    requires FindVote(s.votes, user.id, postId).None?
    ensures CastVote(s, Some(user), postId, value).store.posts[k].score == s.posts[k].score + value
  {
    SumSnoc(s.votes, Vote(s.nextVoteId, user.id, postId, value), postId);
  }
}
