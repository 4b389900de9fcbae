/** The vote ledger and the score aggregator: the upsert of one (user, post)
    row and the wholesale recompute of a post's cached score from the ledger.
 */
module Ledger {
  import opened Tables

  /** True of the ledger row that records `userId`'s stance on `postId`. */
  predicate IsKey(v: Vote, userId: int, postId: int) {
    v.userId == userId && v.postId == postId
  }

  /** The row `SELECT * FROM votes WHERE user_id = ? AND post_id = ?` returns. */
  function FindVote(votes: seq<Vote>, userId: int, postId: int): Option<nat> {
    FindFirst(votes, v => IsKey(v, userId, postId))
  }

  /** No two ledger rows share a (user, post) pair. */
  ghost predicate OneVotePerPair(votes: seq<Vote>) {
    forall i, j :: 0 <= i < j < |votes| ==> !IsKey(votes[j], votes[i].userId, votes[i].postId)
  }

  /** How much one ledger row contributes to `postId`'s score. */
  function Contribution(v: Vote, postId: int): int {
    if v.postId == postId then v.value else 0
  }

  /** Reference definition of a post's score: the sum of `value` over its ledger rows, 0 if none. */
  function SumVotes(votes: seq<Vote>, postId: int): int {
    if |votes| == 0 then 0 else Contribution(votes[0], postId) + SumVotes(votes[1..], postId)
  }

  /** `SELECT SUM(value) FROM votes WHERE post_id = ?`, folded over the rows in rowid
      order: SQL's SUM of no rows is NULL, modelled as `None`. */
  function SqlSum(votes: seq<Vote>, postId: int): (r: Option<int>)
    ensures r.None? <==> forall j :: 0 <= j < |votes| ==> votes[j].postId != postId
  {
    if |votes| == 0 then None
    else
      var acc := SqlSum(votes[..|votes| - 1], postId);
      var last := votes[|votes| - 1];
      if last.postId != postId then acc
      else match acc
        case None => Some(last.value)
        case Some(total) => Some(total + last.value)
  }

  /** JavaScript's `row.score || 0` on the aggregate: NULL becomes 0 (a sum of 0,
      also falsy, is replaced by the same 0). */
  function Coalesce(sum: Option<int>): int {
    match sum
    case None => 0
    case Some(total) => total
  }

  /** The score the handler writes is the ledger sum, and 0 exactly when no row exists
      or the rows cancel out. */
  lemma {:induction false} AggregateIsSum(votes: seq<Vote>, postId: int)
    ensures Coalesce(SqlSum(votes, postId)) == SumVotes(votes, postId)
    ensures SqlSum(votes, postId).Some? ==> SqlSum(votes, postId).value == SumVotes(votes, postId)
  {
    if |votes| > 0 {
      var init := votes[..|votes| - 1];
      AggregateIsSum(init, postId);
      SumSnoc(init, votes[|votes| - 1], postId);
      assert init + [votes[|votes| - 1]] == votes;
    }
  }

  /** Appending a ledger row adds exactly its contribution to every post's sum. */
  lemma {:induction false} SumSnoc(votes: seq<Vote>, v: Vote, postId: int)
    ensures SumVotes(votes + [v], postId) == SumVotes(votes, postId) + Contribution(v, postId)
  {
    if |votes| == 0 {
      assert [v][1..] == [];
    } else {
      SumSnoc(votes[1..], v, postId);
      assert (votes + [v])[1..] == votes[1..] + [v];
    }
  }

  /** Overwriting the value of ledger row `i` changes every post's sum by the change
      in that row's contribution. */
  lemma {:induction false} SumUpdate(votes: seq<Vote>, i: nat, value: int, postId: int)
    requires i < |votes|
    ensures SumVotes(votes[i := votes[i].(value := value)], postId)
         == SumVotes(votes, postId) - Contribution(votes[i], postId)
            + Contribution(votes[i].(value := value), postId)
  {
    var updated := votes[i := votes[i].(value := value)];
    if i == 0 {
      assert updated[1..] == votes[1..];
    } else {
      SumUpdate(votes[1..], i - 1, value, postId);
      assert updated[1..] == votes[1..][i - 1 := votes[i].(value := value)];
    }
  }

  /** Ledger rows of other posts do not count towards `postId`. */
  lemma {:induction false} SumIgnoresOtherPosts(votes: seq<Vote>, postId: int)
    requires forall j :: 0 <= j < |votes| ==> votes[j].postId != postId
    ensures SumVotes(votes, postId) == 0
  {
    if |votes| > 0 {
      SumIgnoresOtherPosts(votes[1..], postId);
    }
  }

  /** The ledger write of the vote handler: overwrite the existing (user, post) row
      in place, or insert one new row with the next vote id. */
  function Upsert(s: Store, userId: int, postId: int, value: int): (r: Store)
    ensures r.users == s.users && r.posts == s.posts && r.comments == s.comments
    ensures r.nextUserId == s.nextUserId && r.nextPostId == s.nextPostId
    ensures r.nextCommentId == s.nextCommentId
    ensures FindVote(s.votes, userId, postId).Some? ==>
              var i := FindVote(s.votes, userId, postId).value;
              r.votes == s.votes[i := s.votes[i].(value := value)] && r.nextVoteId == s.nextVoteId
    ensures FindVote(s.votes, userId, postId).None? ==>
              r.votes == s.votes + [Vote(s.nextVoteId, userId, postId, value)]
              && r.nextVoteId == s.nextVoteId + 1
  {
    match FindVote(s.votes, userId, postId)
    case Some(i) => s.(votes := s.votes[i := s.votes[i].(value := value)])
    case None =>
      s.(votes := s.votes + [Vote(s.nextVoteId, userId, postId, value)],
         nextVoteId := s.nextVoteId + 1)
  }

  /** After the upsert the pair has a row holding the new value, and the ledger grew by
      at most one row: exactly one when the pair had none, none when it had one. */
  lemma UpsertRecordsStance(s: Store, userId: int, postId: int, value: int)
    ensures var r := Upsert(s, userId, postId, value);
      && FindVote(r.votes, userId, postId).Some?
      && r.votes[FindVote(r.votes, userId, postId).value].value == value
      && (FindVote(s.votes, userId, postId).None? <==> |r.votes| == |s.votes| + 1)
      && (FindVote(s.votes, userId, postId).Some? <==> |r.votes| == |s.votes|)
  {
    var r := Upsert(s, userId, postId, value);
    match FindVote(s.votes, userId, postId)
    case Some(i) =>
      FindVoteAfterUpdate(s.votes, i, value, userId, postId);
    case None =>
      var n := |s.votes|;
      assert IsKey(r.votes[n], userId, postId);
      assert forall j :: 0 <= j < n ==> r.votes[j] == s.votes[j];
  }

  /** Overwriting a value keeps every (user, post) key, so the lookup finds the same row. */
  lemma FindVoteAfterUpdate(votes: seq<Vote>, i: nat, value: int, userId: int, postId: int)
    requires i < |votes|
    ensures FindVote(votes[i := votes[i].(value := value)], userId, postId) == FindVote(votes, userId, postId)
  {
    var updated := votes[i := votes[i].(value := value)];
    assert forall j :: 0 <= j < |votes| ==> (IsKey(updated[j], userId, postId) <==> IsKey(votes[j], userId, postId));
  }

  /** The upsert never creates a second row for a pair. */
  lemma UpsertKeepsOneVotePerPair(s: Store, userId: int, postId: int, value: int)
    requires OneVotePerPair(s.votes)
    ensures OneVotePerPair(Upsert(s, userId, postId, value).votes)
  {
  }

  /** The vote write on `postId` leaves every other post's ledger sum as it was. */
  lemma UpsertKeepsOtherSums(s: Store, userId: int, postId: int, value: int)
    ensures forall q :: q != postId ==>
              SumVotes(Upsert(s, userId, postId, value).votes, q) == SumVotes(s.votes, q)
  {
    var r := Upsert(s, userId, postId, value);
    match FindVote(s.votes, userId, postId)
    case Some(i) =>
      forall q | q != postId ensures SumVotes(r.votes, q) == SumVotes(s.votes, q) {
        SumUpdate(s.votes, i, value, q);
      }
    case None =>
      forall q | q != postId ensures SumVotes(r.votes, q) == SumVotes(s.votes, q) {
        SumSnoc(s.votes, Vote(s.nextVoteId, userId, postId, value), q);
      }
  }

  /** The vote write keeps the ledger in rowid order with ids its counter issued. */
  lemma UpsertKeepsIdsIssued(s: Store, userId: int, postId: int, value: int)
    requires Issued(s.votes, VoteId, s.nextVoteId)
    ensures var r := Upsert(s, userId, postId, value);
      Issued(r.votes, VoteId, r.nextVoteId)
  {
    var r := Upsert(s, userId, postId, value);
    match FindVote(s.votes, userId, postId)
    case Some(i) =>
      assert forall j :: 0 <= j < |s.votes| ==> r.votes[j].id == s.votes[j].id;
    case None =>
      AppendIssued(s.votes, VoteId, s.nextVoteId, Vote(s.nextVoteId, userId, postId, value));
  }

  /** `UPDATE posts SET score = ? WHERE id = ?`: every post with that id gets the new score. */
  function SetScore(posts: seq<Post>, postId: int, score: int): (r: seq<Post>)
    ensures |r| == |posts|
    ensures forall k :: 0 <= k < |posts| ==> r[k] == (if posts[k].id == postId then posts[k].(score := score) else posts[k])
  {
    seq(|posts|, k requires 0 <= k < |posts| =>
      if posts[k].id == postId then posts[k].(score := score) else posts[k])
  }

  /** The recompute step: read the aggregate of `postId`'s ledger rows and cache it on the post. */
  function Recompute(s: Store, postId: int): (r: Store)
    ensures r.users == s.users && r.comments == s.comments && r.votes == s.votes
    ensures r.nextUserId == s.nextUserId && r.nextPostId == s.nextPostId
    ensures r.nextCommentId == s.nextCommentId && r.nextVoteId == s.nextVoteId
    ensures |r.posts| == |s.posts|
  {
    s.(posts := SetScore(s.posts, postId, Coalesce(SqlSum(s.votes, postId))))
  }

  /** Every post carries the sum of its ledger rows. */
  ghost predicate ScoresMatchLedger(s: Store) {
    forall k :: 0 <= k < |s.posts| ==> s.posts[k].score == SumVotes(s.votes, s.posts[k].id)
  }

  /** After the recompute, `postId`'s cached score is its ledger sum, and every other
      post and every other table is as before. */
  lemma RecomputeCachesSum(s: Store, postId: int)
    ensures var r := Recompute(s, postId);
      && r.users == s.users && r.comments == s.comments && r.votes == s.votes
      && |r.posts| == |s.posts|
      && (forall k :: 0 <= k < |s.posts| ==>
            r.posts[k].id == s.posts[k].id && r.posts[k].userId == s.posts[k].userId
            && r.posts[k].title == s.posts[k].title && r.posts[k].body == s.posts[k].body)
      && (forall k :: 0 <= k < |s.posts| && s.posts[k].id == postId ==>
            r.posts[k].score == SumVotes(s.votes, postId))
      && (forall k :: 0 <= k < |s.posts| && s.posts[k].id != postId ==> r.posts[k] == s.posts[k])
  {
    AggregateIsSum(s.votes, postId);
  }
}
