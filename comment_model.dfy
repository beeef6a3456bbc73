/**
 * The Comment record as the controller sees it, and the request body that
 * `Comment.create` and `comment.update` receive.
 */
module CommentModel {
  import opened Wrappers

  /** Visibility of a comment; only `Active` ones are listed. */
  datatype Status = Active | Deleted | Reported

  /**
   * One row of the comment table. `parentCommentId` is `None` for a
   * top-level comment; `createdAt` is a plain integer timestamp.
   */
  datatype Comment = Comment(
    id: int,
    postId: int,
    authorId: int,
    parentCommentId: Option<int>,
    content: string,
    status: Status,
    likes: int,
    createdAt: int)

  /**
   * A request body: every key the client may send, each one absent or
   * present. `parentCommentId` is doubly optional because a body can set it
   * to `null` (`Some(None)`) or leave it alone (`None`).
   */
  datatype Patch = Patch(
    postId: Option<int>,
    authorId: Option<int>,
    parentCommentId: Option<Option<int>>,
    content: Option<string>,
    status: Option<Status>,
    likes: Option<int>)

  /** A body that sends no keys at all. */
  const EmptyPatch := Patch(None, None, None, None, None, None)

  /**
   * The field-wise merge performed by `comment.update(body)`: every key the
   * body carries replaces the field, every other field keeps its value. The
   * primary key and the creation time are not body keys.
   */
  function Apply(c: Comment, p: Patch): (r: Comment)
    ensures r.id == c.id && r.createdAt == c.createdAt
    ensures r.postId == (if p.postId.Some? then p.postId.value else c.postId)
    ensures r.authorId == (if p.authorId.Some? then p.authorId.value else c.authorId)
    ensures r.parentCommentId == (if p.parentCommentId.Some? then p.parentCommentId.value else c.parentCommentId)
    ensures r.content == (if p.content.Some? then p.content.value else c.content)
    ensures r.status == (if p.status.Some? then p.status.value else c.status)
    ensures r.likes == (if p.likes.Some? then p.likes.value else c.likes)
  {
    c.(postId := p.postId.GetOr(c.postId),
       authorId := p.authorId.GetOr(c.authorId),
       parentCommentId := p.parentCommentId.GetOr(c.parentCommentId),
       content := p.content.GetOr(c.content),
       status := p.status.GetOr(c.status),
       likes := p.likes.GetOr(c.likes))
  }

  /** Merging an empty body changes nothing. */
  lemma ApplyEmpty(c: Comment)
    ensures Apply(c, EmptyPatch) == c
  {
  }

  /** Applying the same body twice has the effect of applying it once. */
  lemma ApplyIdempotent(c: Comment, p: Patch)
    ensures Apply(Apply(c, p), p) == Apply(c, p)
  {
  }

  /**
   * The object literal `{ ...body, postId, authorId }`: the body with the
   * route's post and the caller's identity written over whatever it held.
   */
  function WithIdentity(body: Patch, postId: int, authorId: int): (p: Patch)
    ensures p.postId == Some(postId) && p.authorId == Some(authorId)
    ensures p.(postId := body.postId, authorId := body.authorId) == body
  {
    body.(postId := Some(postId), authorId := Some(authorId))
  }

  /**
   * The row a fresh insert starts from: the column defaults of the Comment
   * table (top level, active, no likes, empty text), at `id` and time `now`.
   */
  function Blank(id: int, now: int): (c: Comment)
  {
    Comment(id, 0, 0, None, "", Active, 0, now)
  }

  /**
   * The row `Comment.create({ ...body, postId, authorId })` inserts at `id`.
   * The route's `postId` and the caller's `authorId` win over the body.
   */
  function NewComment(id: int, now: int, body: Patch, postId: int, authorId: int): (c: Comment)
    ensures c.id == id && c.createdAt == now
    ensures c.postId == postId && c.authorId == authorId
    ensures c.parentCommentId == body.parentCommentId.GetOr(None)
    ensures c.content == body.content.GetOr("")
    ensures c.status == body.status.GetOr(Active)
    ensures c.likes == body.likes.GetOr(0)
  {
    Apply(Blank(id, now), WithIdentity(body, postId, authorId))
  }

  /**
   * Identity injection is ignored: two bodies that differ only in the
   * `postId` and `authorId` they claim produce the same row.
   */
  lemma NewCommentIgnoresClaimedIdentity(id: int, now: int, b1: Patch, b2: Patch, postId: int, authorId: int)
    requires b1.(postId := None, authorId := None) == b2.(postId := None, authorId := None)
    ensures NewComment(id, now, b1, postId, authorId) == NewComment(id, now, b2, postId, authorId)
  {
  }
}
