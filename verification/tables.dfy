/** The four SQLite tables of the forum server (users, posts, comments, votes),
    as an immutable store. Each table is a sequence of rows kept in rowid
    order, and each has the AUTOINCREMENT counter that hands out its next id.
 */
module Tables {

  datatype Option<+T> = None | Some(value: T)

  /** A row of `users`; the INTEGER column `terminated` (default 0) is read as a flag. */
  datatype User = User(id: int, username: string, password: string, pfp: string, terminated: bool)

  /** A row of `posts`; `score` is the cached sum of the post's ledger rows. */
  datatype Post = Post(id: int, userId: int, title: string, body: string, score: int)

  /** A row of `comments`; this schema has no parent reference, so comments are flat. */
  datatype Comment = Comment(id: int, postId: int, userId: int, body: string)

  /** A row of the vote ledger. */
  datatype Vote = Vote(id: int, userId: int, postId: int, value: int)

  /** The database. `next*` is the id the next INSERT into that table receives. */
  datatype Store = Store(
    users: seq<User>,
    posts: seq<Post>,
    comments: seq<Comment>,
    votes: seq<Vote>,
    nextUserId: int,
    nextPostId: int,
    nextCommentId: int,
    nextVoteId: int)

  /** A freshly created database: all tables empty, every AUTOINCREMENT counter at 1. */
  const Empty := Store([], [], [], [], 1, 1, 1, 1)

  function UserId(u: User): int { u.id }
  function PostId(p: Post): int { p.id }
  function CommentId(c: Comment): int { c.id }
  function VoteId(v: Vote): int { v.id }

  /** Index of the first element satisfying `matches`, which is the row a
      `db.get` on a table in rowid order returns. */
  function FindFirst<T>(s: seq<T>, matches: T -> bool): (r: Option<nat>)
    ensures r.Some? ==> r.value < |s| && matches(s[r.value])
    ensures r.Some? ==> forall j :: 0 <= j < r.value ==> !matches(s[j])
    ensures r.None? <==> forall j :: 0 <= j < |s| ==> !matches(s[j])
  {
    if |s| == 0 then None
    else if matches(s[0]) then Some(0)
    else
      match FindFirst(s[1..], matches)
      case None => None
      case Some(k) => Some(k + 1)
  }

  /** The rows a `WHERE` clause selects, in rowid order: each kept row once, no other row. */
  function Filter<T>(s: seq<T>, keep: T -> bool): (r: seq<T>)
    ensures |r| <= |s|
    ensures multiset(r) <= multiset(s)
    ensures forall i :: 0 <= i < |r| ==> r[i] in s && keep(r[i])
    ensures forall i :: 0 <= i < |s| && keep(s[i]) ==> s[i] in r
  {
    if |s| == 0 then []
    else
      assert s == [s[0]] + s[1..];
      if keep(s[0]) then [s[0]] + Filter(s[1..], keep)
      else Filter(s[1..], keep)
  }

  /** `s` in the opposite order. */
  function Reverse<T>(s: seq<T>): (r: seq<T>)
    ensures |r| == |s|
    ensures forall i :: 0 <= i < |s| ==> r[i] == s[|s| - 1 - i]
  {
    if |s| == 0 then [] else [s[|s| - 1]] + Reverse(s[..|s| - 1])
  }

  /** Reversing loses no element. */
  lemma ReverseKeeps<T>(s: seq<T>)
    ensures forall i :: 0 <= i < |s| ==> s[i] in Reverse(s)
  {
    forall i | 0 <= i < |s| ensures s[i] in Reverse(s) {
      assert Reverse(s)[|s| - 1 - i] == s[i];
    }
  }

  /** Keys strictly increase along `s`: the table is in rowid order and no id repeats. */
  ghost predicate Ascending<T>(s: seq<T>, key: T -> int) {
    forall i, j :: 0 <= i < j < |s| ==> key(s[i]) < key(s[j])
  }

  /** Every key is below `bound`, the AUTOINCREMENT counter of the table. */
  ghost predicate Below<T>(s: seq<T>, key: T -> int, bound: int) {
    forall i :: 0 <= i < |s| ==> key(s[i]) < bound
  }

  /** A table whose ids ascend and were all issued by its counter. */
  ghost predicate Issued<T>(s: seq<T>, key: T -> int, next: int) {
    Ascending(s, key) && Below(s, key, next)
  }

  /** Deleting rows keeps the remaining ones in rowid order. */
  lemma {:induction false} FilterAscending<T>(s: seq<T>, keep: T -> bool, key: T -> int, next: int)
    requires Issued(s, key, next)
    ensures Issued(Filter(s, keep), key, next)
  {
    if |s| > 0 {
      var tail := s[1..];
      assert Issued(tail, key, next);
      FilterAscending(tail, keep, key, next);
      if keep(s[0]) {
        var rest := Filter(tail, keep);
        FilterAbove(tail, keep, key, key(s[0]));
        var r := [s[0]] + rest;
        assert forall j :: 0 < j < |r| ==> r[j] == rest[j - 1];
      }
    }
  }

  /** Deleting rows cannot produce an id smaller than every remaining one. */
  lemma FilterAbove<T>(s: seq<T>, keep: T -> bool, key: T -> int, low: int)
    requires forall i :: 0 <= i < |s| ==> low < key(s[i])
    ensures forall i :: 0 <= i < |Filter(s, keep)| ==> low < key(Filter(s, keep)[i])
  {
  }

  /** Inserting a row with the counter's id, then bumping the counter, keeps the table issued. */
  lemma AppendIssued<T>(s: seq<T>, key: T -> int, next: int, row: T)
    requires Issued(s, key, next)
    requires key(row) == next
    ensures Issued(s + [row], key, next + 1)
  {
    var r := s + [row];
    forall i, j | 0 <= i < j < |r| ensures key(r[i]) < key(r[j]) {
      if j < |s| {
        assert r[i] == s[i] && r[j] == s[j];
      } else {
        assert r[i] == s[i];
      }
    }
  }
}
