/**
 * In-memory meanings of the query `Comment.findAll({ where, order })` used to
 * list a post's comments: `where` is a filter over the table, `order` a sort
 * on `createdAt`, newest first.
 */
module Orm {
  import opened Wrappers
  import opened CommentModel

  /** Every row is stored under its own primary key. */
  ghost predicate KeyedById(t: map<int, Comment>)
  {
    forall k :: k in t ==> t[k].id == k
  }

  /** The `where` clause: this post, top level, active. */
  predicate IsListed(c: Comment, postId: int)
  {
    c.postId == postId && c.parentCommentId == None && c.status == Active
  }

  /** No two entries share a primary key. */
  ghost predicate DistinctIds(s: seq<Comment>)
  {
    forall i, j :: 0 <= i < j < |s| ==> s[i].id != s[j].id
  }

  /** `order: [["createdAt", "DESC"]]`: creation times never increase. */
  ghost predicate NewestFirst(s: seq<Comment>)
  {
    forall i, j :: 0 <= i < j < |s| ==> s[i].createdAt >= s[j].createdAt
  }

  /** The rows with a key below `n` that satisfy the `where` clause, by key. */
  function Select(t: map<int, Comment>, postId: int, n: nat): (r: seq<Comment>)
    decreases n
  {
    if n == 0 then []
    else Select(t, postId, n - 1) + (if n - 1 in t && IsListed(t[n - 1], postId) then [t[n - 1]] else [])
  }

  /**
   * `Select` returns the rows below `n` that match, every one of them, each
   * once.
   */
  lemma {:induction false} SelectExact(t: map<int, Comment>, postId: int, n: nat)
    requires KeyedById(t)
    ensures forall c :: c in Select(t, postId, n) ==>
      IsListed(c, postId) && 0 <= c.id < n && c.id in t && t[c.id] == c
    ensures forall k :: 0 <= k < n && k in t && IsListed(t[k], postId) ==> t[k] in Select(t, postId, n)
    ensures DistinctIds(Select(t, postId, n))
  {
    if n > 0 {
      SelectExact(t, postId, n - 1);
    }
  }

  /** Places `x` before the first entry that is strictly older than it. */
  function Insert(x: Comment, r: seq<Comment>): (s: seq<Comment>)
    decreases |r|
  {
    if r == [] || x.createdAt >= r[0].createdAt then [x] + r
    else [r[0]] + Insert(x, r[1..])
  }

  /** Inserting adds `x` and keeps every other entry. */
  lemma {:induction false} InsertPermutes(x: Comment, r: seq<Comment>)
    ensures multiset(Insert(x, r)) == multiset(r) + multiset{x}
  {
    if !(r == [] || x.createdAt >= r[0].createdAt) {
      InsertPermutes(x, r[1..]);
      assert r == [r[0]] + r[1..];
    }
  }

  /** The members of `Insert(x, r)` are `x` and the members of `r`. */
  lemma InsertMembers(x: Comment, r: seq<Comment>)
    ensures forall c :: c in Insert(x, r) <==> c == x || c in r
  {
    InsertPermutes(x, r);
    SameMembers(Insert(x, r), [x] + r);
  }

  /** Inserting into a newest-first sequence keeps it newest first. */
  lemma {:induction false} InsertSorted(x: Comment, r: seq<Comment>)
    requires NewestFirst(r)
    ensures NewestFirst(Insert(x, r))
  {
    if r == [] || x.createdAt >= r[0].createdAt {
      var s := [x] + r;
      forall i, j | 0 <= i < j < |s|
        ensures s[i].createdAt >= s[j].createdAt
      {
        if i == 0 {
          assert s[j] == r[j - 1];
        }
      }
    } else {
      var t := Insert(x, r[1..]);
      InsertSorted(x, r[1..]);
      InsertMembers(x, r[1..]);
      var s := [r[0]] + t;
      forall i, j | 0 <= i < j < |s|
        ensures s[i].createdAt >= s[j].createdAt
      {
        if i == 0 {
          assert s[j] in t;
          if s[j] != x {
            var m :| 0 <= m < |r[1..]| && r[1..][m] == s[j];
            assert r[m + 1] == s[j];
          }
        } else {
          assert s[i] == t[i - 1] && s[j] == t[j - 1];
        }
      }
    }
  }

  /** Inserting an entry with a new key keeps keys distinct. */
  lemma {:induction false} InsertDistinct(x: Comment, r: seq<Comment>)
    requires DistinctIds(r)
    requires forall c :: c in r ==> c.id != x.id
    ensures DistinctIds(Insert(x, r))
  {
    if r == [] || x.createdAt >= r[0].createdAt {
      var s := [x] + r;
      forall i, j | 0 <= i < j < |s|
        ensures s[i].id != s[j].id
      {
        assert s[j] == r[j - 1];
        if i > 0 {
          assert s[i] == r[i - 1];
        }
      }
    } else {
      var t := Insert(x, r[1..]);
      InsertDistinct(x, r[1..]);
      InsertMembers(x, r[1..]);
      var s := [r[0]] + t;
      forall i, j | 0 <= i < j < |s|
        ensures s[i].id != s[j].id
      {
        if i == 0 {
          assert s[j] in t;
          if s[j] != x {
            var m :| 0 <= m < |r[1..]| && r[1..][m] == s[j];
            assert r[m + 1] == s[j];
          }
        } else {
          assert s[i] == t[i - 1] && s[j] == t[j - 1];
        }
      }
    }
  }

  /** The ordering step of the query: an insertion sort, newest first. */
  function SortNewestFirst(s: seq<Comment>): (r: seq<Comment>)
    decreases |s|
  {
    if s == [] then [] else Insert(s[0], SortNewestFirst(s[1..]))
  }

  /** Sequences with the same multiset have the same members. */
  lemma SameMembers(a: seq<Comment>, b: seq<Comment>)
    requires multiset(a) == multiset(b)
    ensures forall c :: c in a <==> c in b
  {
    forall c
      ensures c in a <==> c in b
    {
      assert c in a <==> c in multiset(a);
      assert c in b <==> c in multiset(b);
    }
  }

  /** Sorting yields a permutation of its input. */
  lemma {:induction false} SortPermutes(s: seq<Comment>)
    ensures multiset(SortNewestFirst(s)) == multiset(s)
  {
    if s != [] {
      var rest := SortNewestFirst(s[1..]);
      SortPermutes(s[1..]);
      InsertPermutes(s[0], rest);
      calc {
        multiset(SortNewestFirst(s));
        multiset(Insert(s[0], rest));
        multiset(rest) + multiset{s[0]};
        multiset(s[1..]) + multiset{s[0]};
        { assert s == [s[0]] + s[1..]; }
        multiset(s);
      }
    }
  }

  /** Sorting yields a newest-first sequence. */
  lemma {:induction false} SortSorted(s: seq<Comment>)
    ensures NewestFirst(SortNewestFirst(s))
  {
    if s != [] {
      SortSorted(s[1..]);
      InsertSorted(s[0], SortNewestFirst(s[1..]));
    }
  }

  /** Sorting keeps keys distinct. */
  lemma {:induction false} SortDistinct(s: seq<Comment>)
    requires DistinctIds(s)
    ensures DistinctIds(SortNewestFirst(s))
  {
    if s != [] {
      var rest := SortNewestFirst(s[1..]);
      assert DistinctIds(s[1..]) by {
        forall i, j | 0 <= i < j < |s[1..]|
          ensures s[1..][i].id != s[1..][j].id
        {
          assert s[1..][i] == s[i + 1] && s[1..][j] == s[j + 1];
        }
      }
      SortDistinct(s[1..]);
      SortPermutes(s[1..]);
      SameMembers(rest, s[1..]);
      forall c | c in rest
        ensures c.id != s[0].id
      {
        var m :| 0 <= m < |s[1..]| && s[1..][m] == c;
        assert s[m + 1] == c;
      }
      InsertDistinct(s[0], rest);
    }
  }
}
