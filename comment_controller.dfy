/**
 * The comment controller: list, create, update and delete comments over a
 * table of comments and a set of existing posts, each request ending in a
 * `{ success, data | message }` envelope with an HTTP status.
 */
module CommentController {
  import opened Wrappers
  import opened CommentModel
  import opened Orm

  /** The caller's role, as authentication attaches it to the request. */
  datatype Role = User | Admin

  /** The authenticated caller (`req.user`). */
  datatype Actor = Actor(id: int, role: Role)

  /**
   * The one authorization rule shared by update and delete: the caller
   * wrote the comment, or is an admin.
   */
  function MayModify(actor: Actor, c: Comment): (ok: bool)
    ensures actor.role == Admin ==> ok
    ensures c.authorId == actor.id ==> ok
    ensures actor.role != Admin && c.authorId != actor.id ==> !ok
  {
    c.authorId == actor.id || actor.role == Admin
  }

  /** What the envelope carries besides `success`. */
  datatype Body = Message(text: string) | Single(comment: Comment) | Listing(comments: seq<Comment>)

  /** An HTTP status with its JSON envelope. */
  datatype Response = Response(status: int, success: bool, body: Body)

  const PostNotFound := "Post not found"
  const CommentNotFound := "Comment not found"
  const NotAuthorizedUpdate := "Not authorized to update this comment"
  const NotAuthorizedDelete := "Not authorized to delete this comment"
  const DeletedMessage := "Comment deleted successfully"

  /**
   * The comment table and the posts it may refer to. Keys are handed out by
   * an auto-increment counter starting at 1 and are never reused.
   */
  class CommentStore {
    var comments: map<int, Comment>
    var posts: set<int>
    var nextId: nat

    /** Every row sits under its own key, and every key is below the counter. */
    ghost predicate Valid()
      reads this
    {
      1 <= nextId &&
      KeyedById(comments) &&
      forall k :: k in comments ==> 1 <= k < nextId
    }

    /** An empty comment table over the given posts. */
    constructor (posts: set<int>)
      ensures Valid()
      ensures comments == map[] && this.posts == posts && nextId == 1
    {
      comments := map[];
      this.posts := posts;
      nextId := 1;
    }

    /**
     * GET /posts/:postId/comments: the post's top-level active comments,
     * newest first, every one of them and each once. It only reads.
     */
    function GetComments(postId: int): (r: Response)
      reads this
      requires Valid()
      ensures r.status == 200 && r.success && r.body.Listing?
      ensures forall c :: c in r.body.comments ==>
        IsListed(c, postId) && c.id in comments && comments[c.id] == c
      ensures forall k :: k in comments && IsListed(comments[k], postId) ==> comments[k] in r.body.comments
      ensures NewestFirst(r.body.comments)
      ensures DistinctIds(r.body.comments)
    {
      var found := Select(comments, postId, nextId);
      SelectExact(comments, postId, nextId);
      SortPermutes(found);
      SameMembers(SortNewestFirst(found), found);
      SortSorted(found);
      SortDistinct(found);
      var sorted := SortNewestFirst(found);
      Response(200, true, Listing(sorted))
    }

    /**
     * POST /posts/:postId/comments by `actor` at time `now`: 404 when the
     * post does not exist; otherwise one new row under a fresh key, carrying
     * the route's post and the caller as author whatever the body claims.
     */
    method CreateComment(actor: Actor, postId: int, body: Patch, now: int) returns (r: Response)
      requires Valid()
      modifies this
      ensures Valid()
      ensures posts == old(posts)
      ensures postId !in posts ==>
        r == Response(404, false, Message(PostNotFound)) &&
        comments == old(comments) && nextId == old(nextId)
      ensures postId in posts ==>
        old(nextId) !in old(comments) &&
        nextId == old(nextId) + 1 &&
        comments == old(comments)[old(nextId) := NewComment(old(nextId), now, body, postId, actor.id)] &&
        r == Response(201, true, Single(comments[old(nextId)])) &&
        r.body.comment.postId == postId && r.body.comment.authorId == actor.id
    {
      if postId !in posts {
        return Response(404, false, Message(PostNotFound));
      }
      var id := nextId;
      var c := NewComment(id, now, body, postId, actor.id);
      comments := comments[id := c];
      nextId := nextId + 1;
      r := Response(201, true, Single(c));
    }

    /**
     * PUT /comments/:id by `actor`: 404 when the key is absent, 401 when the
     * caller may not modify the row, otherwise the body merged into that row
     * and returned. Other rows never change.
     */
    method UpdateComment(actor: Actor, id: int, body: Patch) returns (r: Response)
      requires Valid()
      modifies this
      ensures Valid()
      ensures posts == old(posts) && nextId == old(nextId)
      ensures id !in old(comments) ==>
        r == Response(404, false, Message(CommentNotFound)) && comments == old(comments)
      ensures id in old(comments) && !MayModify(actor, old(comments)[id]) ==>
        r == Response(401, false, Message(NotAuthorizedUpdate)) && comments == old(comments)
      ensures id in old(comments) && MayModify(actor, old(comments)[id]) ==>
        comments == old(comments)[id := Apply(old(comments)[id], body)] &&
        r == Response(200, true, Single(comments[id]))
      ensures forall k :: k in old(comments) && k != id ==> k in comments && comments[k] == old(comments)[k]
      ensures comments.Keys == old(comments).Keys
    {
      if id !in comments {
        return Response(404, false, Message(CommentNotFound));
      }
      var c := comments[id];
      if !MayModify(actor, c) {
        return Response(401, false, Message(NotAuthorizedUpdate));
      }
      var updated := Apply(c, body);
      comments := comments[id := updated];
      r := Response(200, true, Single(updated));
    }

    /**
     * DELETE /comments/:id by `actor`: 404 when the key is absent, 401 when
     * the caller may not modify the row, otherwise exactly that key removed.
     */
    method DeleteComment(actor: Actor, id: int) returns (r: Response)
      requires Valid()
      modifies this
      ensures Valid()
      ensures posts == old(posts) && nextId == old(nextId)
      ensures id !in old(comments) ==>
        r == Response(404, false, Message(CommentNotFound)) && comments == old(comments)
      ensures id in old(comments) && !MayModify(actor, old(comments)[id]) ==>
        r == Response(401, false, Message(NotAuthorizedDelete)) && comments == old(comments)
      ensures id in old(comments) && MayModify(actor, old(comments)[id]) ==>
        comments == old(comments) - {id} &&
        r == Response(200, true, Message(DeletedMessage))
      ensures forall k :: k in old(comments) && k != id ==> k in comments && comments[k] == old(comments)[k]
    {
      if id !in comments {
        return Response(404, false, Message(CommentNotFound));
      }
      var c := comments[id];
      if !MayModify(actor, c) {
        return Response(401, false, Message(NotAuthorizedDelete));
      }
      comments := comments - {id};
      r := Response(200, true, Message(DeletedMessage));
    }
  }

  /** Posting to a post that does not exist is refused and inserts nothing. */
  method MissingPostScenario(author: Actor)
  {
    var store := new CommentStore({1});
    var r := store.CreateComment(author, 999999, EmptyPatch, 5);
    assert r.status == 404 && !r.success && r.body == Message(PostNotFound);
    assert store.comments == map[];
  }

  /**
   * A comment whose body claims another author is stored under the caller;
   * only that author or an admin may then change or remove it.
   */
  method OwnershipScenario()
  {
    var alice := Actor(7, User);
    var mallory := Actor(8, User);
    var admin := Actor(1, Admin);
    var store := new CommentStore({1});
    var claim := EmptyPatch.(authorId := Some(8), content := Some("hi"));
    var r := store.CreateComment(alice, 1, claim, 10);
    assert r.status == 201 && store.comments[1].authorId == 7;
    var listed := store.GetComments(1).body.comments;
    assert store.comments[1] in listed;
    assert forall c :: c in listed ==> c == store.comments[1];
    r := store.UpdateComment(mallory, 1, EmptyPatch.(content := Some("spam")));
    assert r.status == 401 && store.comments[1].content == "hi";
    r := store.DeleteComment(mallory, 1);
    assert r.status == 401 && 1 in store.comments;
    r := store.DeleteComment(admin, 1);
    assert r == Response(200, true, Message(DeletedMessage)) && store.comments == map[];
    r := store.DeleteComment(admin, 1);
    assert r.status == 404;
  }

  /**
   * The update body is merged unfiltered, so the owner can hand a comment to
   * another user, who then owns it under the authorization rule.
   */
  method AuthorReassignmentScenario()
  {
    var alice := Actor(7, User);
    var bob := Actor(9, User);
    var store := new CommentStore({1});
    var r := store.CreateComment(alice, 1, EmptyPatch, 10);
    r := store.UpdateComment(alice, 1, EmptyPatch.(authorId := Some(9)));
    assert r.status == 200 && store.comments[1].authorId == 9;
    r := store.UpdateComment(alice, 1, EmptyPatch.(content := Some("mine")));
    assert r.status == 401;
    r := store.DeleteComment(bob, 1);
    assert r.status == 200 && 1 !in store.comments;
  }
}
