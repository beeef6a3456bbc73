# Comment controller of a blog backend, modelled in Dafny

This project models the comment controller of a blog's REST backend
(`backend/controllers/comment.js`). The controller keeps a table of comments,
each tied to a post and an author. It offers four operations:

- list the top-level, active comments of a post, newest first;
- create a comment on an existing post;
- update a comment;
- delete a comment.

Update and delete are allowed only when the caller wrote the comment or is an
admin. Every request ends in a fixed HTTP status and a `{ success, data |
message }` envelope: 200 or 201 on success, 404 "not found", 401 "not
authorized".

Files:

- `wrappers.dfy`: `Option`, which stands for nullable columns and for keys a
  request body may leave out.
- `comment_model.dfy`: the `Comment` row, the request body `Patch`, and the
  in-memory meaning of the ORM's writes. `Apply` is the field-wise merge done
  by `comment.update(body)`. `NewComment` is the row that
  `Comment.create({ ...body, postId, authorId })` inserts.
- `orm.dfy`: the in-memory meaning of `Comment.findAll({ where, order })`.
  `Select` is the `where` filter over the keyed table. `SortNewestFirst` is
  the `createdAt DESC` ordering. Lemmas prove what the two return.
- `comment_controller.dfy`: the caller (`Actor`), the shared authorization
  rule `MayModify`, the response envelope, and the class `CommentStore`. The
  class holds the comment table as a `map<int, Comment>`, the set of existing
  post ids, and the auto-increment counter for new keys. Each controller
  action is a member of it. `findByPk` is a map lookup, `create` an insert
  at the counter's key, `update` a merge into one entry, `destroy` removal of
  the key. Three client methods (`MissingPostScenario`, `OwnershipScenario`,
  `AuthorReassignmentScenario`) use only the contracts to check concrete
  request sequences.

`MayModify(actor, c)` is `c.authorId == actor.id || actor.role == Admin`. It
is defined once and used by both guarded actions; the source writes the same
test out twice (comment.js:90 and comment.js:137).

The inputs that come from outside the controller are parameters:

- the authenticated caller (`req.user`);
- the route's ids;
- the body;
- the current time (`now`, a plain integer) used as `createdAt`.

## Model

| member | source | states |
|---|---|---|
| `CommentController.CommentStore.GetComments` | backend/controllers/comment.js:8-29 | Status 200 with `success`, listing only comments of the requested post that are top level and active, each the row stored under its own key. Every stored comment meeting the three conditions is listed. The list is newest first, holds no key twice, and the store is unchanged (a function that only reads). |
| `CommentController.CommentStore.CreateComment` | backend/controllers/comment.js:41-65 | Unknown post: 404 "Post not found", nothing inserted. Otherwise, exactly one new row under a key that was not in use, and the counter advances. The row carries the route's `postId` and the caller's id as `authorId` whatever the body says. The response is 201 with that row. The post set never changes. |
| `CommentController.CommentStore.UpdateComment` | backend/controllers/comment.js:78-113 | Absent key: 404 "Comment not found", table unchanged. Caller neither author nor admin: 401 "Not authorized to update this comment", table unchanged. Otherwise the body is merged into exactly that row and the merged row is returned with 200. Every other row and the key set are unchanged. |
| `CommentController.CommentStore.DeleteComment` | backend/controllers/comment.js:125-149 | Absent key: 404, table unchanged. Caller neither author nor admin: 401 "Not authorized to delete this comment", table unchanged. Otherwise exactly that key is removed and the response is 200 "Comment deleted successfully". Every other entry remains. |
| `CommentController.MayModify` | backend/controllers/comment.js:89-90 | The owner-or-admin rule, also written out at comment.js:136-137: an admin is always allowed, the comment's author is always allowed, anyone else never. Update and delete answer 401 exactly when it fails on an existing comment. |
| `Orm.SelectExact` | backend/controllers/comment.js:10-15 | For a table whose rows sit under their own keys, the filter returns only rows that match the post, have no parent and are active, each at its own key. It returns every matching row below the bound, and no key twice. |
| `Orm.SortPermutes` | backend/controllers/comment.js:23 | Ordering by `createdAt` descending returns a permutation of its input: the same multiset, hence the same members. |
| `Orm.SortSorted` | backend/controllers/comment.js:23 | The ordered result is newest first: creation times never increase along it. |
| `Orm.SortDistinct` | backend/controllers/comment.js:23 | Ordering a list with distinct keys keeps them distinct. |
| `Orm.InsertPermutes` | backend/controllers/comment.js:23 | One step of the ordering adds exactly the new comment: the multiset grows by it and by nothing else. |
| `Orm.InsertMembers` | backend/controllers/comment.js:23 | After one step of the ordering, the members are the new comment and the old members. |
| `Orm.InsertSorted` | backend/controllers/comment.js:23 | One step of the ordering keeps a newest-first list newest first. |
| `Orm.InsertDistinct` | backend/controllers/comment.js:23 | One step of the ordering keeps keys distinct when the new comment's key is new. |
| `CommentModel.Apply` | backend/controllers/comment.js:97 | `comment.update(body)` as a field-wise merge. Each key the body carries, `authorId` and `postId` among them, replaces its field. Fields the body omits keep their values. Key and creation time never change. |
| `CommentModel.ApplyEmpty` | backend/controllers/comment.js:97 | An update with an empty body leaves the comment as it was. |
| `CommentModel.ApplyIdempotent` | backend/controllers/comment.js:97 | Repeating the same update has the effect of doing it once. |
| `CommentModel.WithIdentity` | backend/controllers/comment.js:51-55 | The spread `{ ...body, postId, authorId }` carries the route's post and the caller's id, and differs from the body in those two keys only. |
| `CommentModel.NewComment` | backend/controllers/comment.js:51-55 | The inserted row has the fresh key, the route's post, the caller as author and `now` as creation time. The other fields come from the body or, if absent, from the column defaults. |
| `CommentModel.NewCommentIgnoresClaimedIdentity` | backend/controllers/comment.js:51-55 | Two bodies that differ only in the `postId` and `authorId` they claim yield the same inserted row, so a claimed author cannot be injected. |

## Left out

- The author projection (`User.findByPk` / `include` with `id`, `name`,
  `avatar`, comment.js:16-22, 58-65, 100-108): a join into the user table,
  which is not part of this model. Responses carry the comment row alone.
- The `catch` branches (400 in list and update, 500 in create and delete):
  they depend on exceptions raised inside the ORM or the database, which
  cannot be seen.
- The like/unlike endpoint (comment.js:159-160): only its header comment
  exists in the source.
- `frontend/src/pages/AdminDashboard.js`: UI state, rendering and HTTP
  calls, with no data logic to state.
- The report moderation flow: its controller is not part of this model.
- Routing, JSON, authentication middleware: `req.user`, `req.params` and
  `req.body` come in as typed parameters. Route ids are integers; a
  non-numeric id is not modelled.
- The Comment model file is not part of this model. Its column defaults for
  a create whose body omits them are assumed: no parent, active, no likes,
  empty text. Its validation, such as required content or the `status` enum
  rejecting other strings, raises errors that belong to the left-out catch
  branches. `Status` is therefore a three-value enum.
- Body keys `id`, `createdAt` and `updatedAt` are not modelled. On create
  the spread forwards them to the insert, so a body could choose its own key
  or creation time (and with a future `createdAt` sort to the top of the
  listing); the model ignores them and uses the store's counter and `now`
  instead (`CommentModel.NewComment` ensures `c.createdAt == now`). On
  update these keys are outside what `comment.update` changes on an existing
  row. `updatedAt` is not a field of the model.
- `CommentController.CommentStore.GetComments`: the order among comments
  with equal `createdAt` is left to the database by the source. The model's
  sort keeps key order among them, and the contract claims only the
  newest-first order.
- Foreign-key actions of the database on `destroy` (for example on replies
  via `parentCommentId`) are not modelled; the association definitions are
  not part of this model, and the model removes exactly the key.
- Concurrency between requests: each request runs to completion before the
  next.
- The code applies the update body unfiltered (comment.js:97), so an author
  or admin can rewrite `authorId` and `postId`. The model follows
  the code: `AuthorReassignmentScenario` shows a comment handed to another
  user, who can then delete it.
