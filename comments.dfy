/**
 * The `comment` table: threaded comments under a post, the listing that
 * joins each comment with its author, the admin-only delete, and the
 * cascade that removes a user's comments when the user is deleted.
 */
module Comments {
  import opened Wrappers
  import opened Sorting
  import opened Database
  import opened Schema

  /** A stored comment; `parentId` is the id of the comment it replies to. */
  datatype Comment = Comment(postId: nat, authorId: nat, parentId: Option<nat>, depth: nat, content: string, isAdmin: bool)

  /** A stored user, with the fields the comment listing shows. */
  datatype User = User(name: string, email: string, avatarUrl: Option<string>, website: Option<string>, role: Option<string>)

  /** The caller as the authenticated-mutation wrapper resolves it. */
  datatype SessionUser = SessionUser(id: nat, isAdmin: bool)

  const NotAuthenticatedMessage := "Not authenticated"
  const ParentNotFoundMessage := "Parent comment not found."
  const ParentElsewhereMessage := "Parent comment does not belong to this post."
  const NoAuthorMessage := "A comment without author"

  // ---------------------------------------------------------------------
  // Threading

  /**
   * Row `i` is well placed: a top-level comment has depth 0, and a reply's
   * parent is an earlier row of the same post, one level shallower.
   */
  predicate ThreadedAt(rows: seq<Row<Comment>>, i: nat)
    requires i < |rows|
  {
    var c := rows[i].doc;
    match c.parentId
    case None => c.depth == 0
    case Some(p) =>
      exists k :: 0 <= k < i && rows[k].id == p && rows[k].doc.postId == c.postId && c.depth == rows[k].doc.depth + 1
  }

  predicate WellThreaded(rows: seq<Row<Comment>>) {
    forall i :: 0 <= i < |rows| ==> ThreadedAt(rows, i)
  }

  /**
   * The comment `createComment` inserts, or the error it throws: the
   * caller must be signed in, the content at most 500 characters, and a
   * named parent must exist and belong to the same post. A reply is one
   * level deeper than its parent; the author and the admin flag are the
   * caller's.
   */
  function NewComment(rows: seq<Row<Comment>>, caller: Option<SessionUser>, postId: nat, parentId: Option<nat>, content: string)
    : (r: Result<Comment>)
    ensures caller.None? ==> r == Err(NotAuthenticatedMessage)
    ensures caller.Some? && |content| > 500 ==> r == Err(CommentTooLongMessage)
    ensures caller.Some? && |content| <= 500 && parentId.Some? && parentId.value !in Ids(rows) ==> r == Err(ParentNotFoundMessage)
    ensures (caller.Some? && |content| <= 500 && parentId.Some? && parentId.value in Ids(rows) &&
             Find(rows, parentId.value).value.postId != postId) ==> r == Err(ParentElsewhereMessage)
    ensures r.Ok? <==>
              caller.Some? && |content| <= 500 &&
              (parentId.Some? ==> parentId.value in Ids(rows) && Find(rows, parentId.value).value.postId == postId)
    ensures r.Ok? ==> r.value.postId == postId && r.value.parentId == parentId && r.value.content == content
    ensures r.Ok? ==> r.value.authorId == caller.value.id && r.value.isAdmin == caller.value.isAdmin
    ensures r.Ok? && parentId.None? ==> r.value.depth == 0
    ensures r.Ok? && parentId.Some? ==> Row(parentId.value, Find(rows, parentId.value).value) in rows
    ensures r.Ok? && parentId.Some? ==> r.value.depth == Find(rows, parentId.value).value.depth + 1
  {
    if caller.None? then Err(NotAuthenticatedMessage)
    else if CheckCommentContent(content).Err? then Err(CommentTooLongMessage)
    else
      match parentId
      case None => Ok(Comment(postId, caller.value.id, None, 0, content, caller.value.isAdmin))
      case Some(p) =>
        match Find(rows, p)
        case None => Err(ParentNotFoundMessage)
        case Some(parent) =>
          if parent.postId != postId then Err(ParentElsewhereMessage)
          else Ok(Comment(postId, caller.value.id, parentId, parent.depth + 1, content, caller.value.isAdmin))
  }

  /** Appending a comment `createComment` accepts keeps the table well threaded. */
  lemma NewCommentThreaded(rows: seq<Row<Comment>>, caller: Option<SessionUser>, postId: nat, parentId: Option<nat>,
                           content: string, id: nat)
    requires WellThreaded(rows)
    requires NewComment(rows, caller, postId, parentId, content).Ok?
    ensures WellThreaded(rows + [Row(id, NewComment(rows, caller, postId, parentId, content).value)])
  {
    var c := NewComment(rows, caller, postId, parentId, content).value;
    var rows' := rows + [Row(id, c)];
    forall i | 0 <= i < |rows'| ensures ThreadedAt(rows', i) {
      if i < |rows| {
        assert rows'[i] == rows[i];
        assert ThreadedAt(rows, i);
        if rows[i].doc.parentId.Some? {
          var k :| 0 <= k < i && rows[k].id == rows[i].doc.parentId.value && rows[k].doc.postId == rows[i].doc.postId &&
                   rows[i].doc.depth == rows[k].doc.depth + 1;
          assert rows'[k] == rows[k];
        }
      } else if parentId.Some? {
        var parent := Find(rows, parentId.value).value;
        var k :| 0 <= k < |rows| && rows[k] == Row(parentId.value, parent);
        assert rows'[k] == rows[k];
      }
    }
  }

  /**
   * `createComment`: the checks of `NewComment` in the order the handler
   * makes them, then the insert. A refused comment changes nothing; an
   * accepted one is appended under a fresh id, and the table stays well
   * threaded.
   */
  method CreateComment(db: Table<Comment>, caller: Option<SessionUser>, postId: nat, parentId: Option<nat>, content: string)
    returns (result: Result<nat>)
    requires db.Valid()
    modifies db
    ensures db.Valid()
    ensures result.Err? <==> NewComment(old(db.rows), caller, postId, parentId, content).Err?
    ensures result.Err? ==> result.message == NewComment(old(db.rows), caller, postId, parentId, content).message
    ensures result.Err? ==> db.rows == old(db.rows) && db.nextId == old(db.nextId)
    ensures result.Ok? ==> result.value !in Ids(old(db.rows))
    ensures result.Ok? ==>
              db.rows == old(db.rows) + [Row(result.value, NewComment(old(db.rows), caller, postId, parentId, content).value)]
    ensures WellThreaded(old(db.rows)) ==> WellThreaded(db.rows)
  {
    if caller.None? {
      return Err(NotAuthenticatedMessage);
    }
    var checked := CheckCommentContent(content);
    if checked.Err? {
      return Err(checked.message);
    }
    var parent := if parentId.Some? then Find(db.rows, parentId.value) else None;
    if parentId.Some? && parent.None? {
      return Err(ParentNotFoundMessage);
    }
    if parent.Some? && parent.value.postId != postId {
      return Err(ParentElsewhereMessage);
    }
    var depth := if parent.Some? then parent.value.depth + 1 else 0;
    ghost var before := db.rows;
    if WellThreaded(before) {
      NewCommentThreaded(before, caller, postId, parentId, content, db.nextId);
    }
    var id := db.Insert(Comment(postId, caller.value.id, parentId, depth, content, caller.value.isAdmin));
    result := Ok(id);
  }

  // ---------------------------------------------------------------------
  // listByPost

  /** The author fields joined onto a listed comment. */
  datatype Author = Author(name: string, avatarUrl: Option<string>, website: Option<string>)

  datatype CommentView = CommentView(id: nat, comment: Comment, author: Author)

  function AuthorOf(u: User): Author {
    Author(u.name, u.avatarUrl, u.website)
  }

  function OnPost(postId: nat): Row<Comment> -> bool {
    (r: Row<Comment>) => r.doc.postId == postId
  }

  /** The `by_post` index range of a post, in creation order. */
  function OfPost(rows: seq<Row<Comment>>, postId: nat): seq<Row<Comment>> {
    Filter(rows, OnPost(postId))
  }

  /** Each comment with its author, or the error thrown at the first comment whose author is missing. */
  function WithAuthors(comments: seq<Row<Comment>>, users: seq<Row<User>>): (r: Result<seq<CommentView>>)
    ensures r.Ok? <==> forall i :: 0 <= i < |comments| ==> comments[i].doc.authorId in Ids(users)
    ensures r.Err? ==> r.message == NoAuthorMessage
    ensures r.Ok? ==> |r.value| == |comments|
    ensures r.Ok? ==> forall i :: 0 <= i < |comments| ==>
                        r.value[i].id == comments[i].id && r.value[i].comment == comments[i].doc
    ensures r.Ok? ==> forall i :: 0 <= i < |comments| ==>
                        r.value[i].author == AuthorOf(Find(users, comments[i].doc.authorId).value)
    decreases |comments|
  {
    if comments == [] then Ok([])
    else
      var c := comments[0];
      match Find(users, c.doc.authorId)
      case None => Err(NoAuthorMessage)
      case Some(u) =>
        match WithAuthors(comments[1..], users)
        case Err(m) => Err(m)
        case Ok(rest) => Ok([CommentView(c.id, c.doc, AuthorOf(u))] + rest)
  }

  /**
   * `listByPost`: the post's comments in creation order, each with its
   * author's name, avatar and website; a comment whose author is missing
   * makes the whole query fail.
   */
  function ListByPost(comments: seq<Row<Comment>>, users: seq<Row<User>>, postId: nat): (r: Result<seq<CommentView>>)
    ensures r.Ok? <==> forall c :: c in comments && c.doc.postId == postId ==> c.doc.authorId in Ids(users)
    ensures r.Err? ==> r.message == NoAuthorMessage
    ensures r.Ok? ==> forall v :: v in r.value ==> Row(v.id, v.comment) in comments && v.comment.postId == postId
    ensures r.Ok? ==> forall c :: c in comments && c.doc.postId == postId ==> CommentView(c.id, c.doc, AuthorOf(Find(users, c.doc.authorId).value)) in r.value
    ensures r.Ok? ==> |r.value| == |OfPost(comments, postId)|
    ensures r.Ok? ==> forall i :: 0 <= i < |r.value| ==>
                        Row(r.value[i].id, r.value[i].comment) == OfPost(comments, postId)[i] &&
                        r.value[i].author == AuthorOf(Find(users, r.value[i].comment.authorId).value)
  {
    ListByPostFacts(comments, users, postId);
    WithAuthors(OfPost(comments, postId), users)
  }

  lemma ListByPostFacts(comments: seq<Row<Comment>>, users: seq<Row<User>>, postId: nat)
    ensures var r := WithAuthors(OfPost(comments, postId), users);
      (r.Ok? <==> forall c :: c in comments && c.doc.postId == postId ==> c.doc.authorId in Ids(users)) &&
      (r.Ok? ==> forall v :: v in r.value ==> Row(v.id, v.comment) in comments && v.comment.postId == postId) &&
      (r.Ok? ==> forall c :: c in comments && c.doc.postId == postId ==>
                   CommentView(c.id, c.doc, AuthorOf(Find(users, c.doc.authorId).value)) in r.value)
  {
    var mine := OfPost(comments, postId);
    var r := WithAuthors(mine, users);
    forall c | c in comments && c.doc.postId == postId ensures c in mine {
      var k :| 0 <= k < |comments| && comments[k] == c;
    }
    if r.Ok? {
      forall v | v in r.value ensures Row(v.id, v.comment) in comments && v.comment.postId == postId {
        var k :| 0 <= k < |r.value| && r.value[k] == v;
        assert mine[k] in comments;
      }
      forall c | c in comments && c.doc.postId == postId
        ensures CommentView(c.id, c.doc, AuthorOf(Find(users, c.doc.authorId).value)) in r.value
      {
        var k :| 0 <= k < |mine| && mine[k] == c;
        assert r.value[k] == CommentView(c.id, c.doc, AuthorOf(Find(users, c.doc.authorId).value));
      }
    }
  }

  // ---------------------------------------------------------------------
  // deleteComment

  /** How `deleteComment` ends: the row deleted, or the reason it throws. */
  datatype DeleteOutcome = Deleted | Unauthenticated | NotAdmin | NoSuchComment

  /**
   * `deleteComment`: only a signed-in admin may delete, and deleting an id
   * that is not stored throws; only a successful delete changes the table.
   */
  method DeleteComment(db: Table<Comment>, caller: Option<SessionUser>, id: nat) returns (outcome: DeleteOutcome)
    requires db.Valid()
    modifies db
    ensures db.Valid() && db.nextId == old(db.nextId)
    ensures caller.None? ==> outcome == Unauthenticated
    ensures caller.Some? && !caller.value.isAdmin ==> outcome == NotAdmin
    ensures outcome == Deleted <==> caller.Some? && caller.value.isAdmin && id in Ids(old(db.rows))
    ensures outcome == Deleted ==> db.rows == Removed(old(db.rows), id) && Ids(db.rows) == Ids(old(db.rows)) - {id}
    ensures outcome != Deleted ==> db.rows == old(db.rows)
  {
    if caller.None? {
      return Unauthenticated;
    }
    if !caller.value.isAdmin {
      return NotAdmin;
    }
    var before := db.rows;
    var ok := db.Delete(id);
    if ok {
      outcome := Deleted;
    } else {
      db.Rollback(before);
      outcome := NoSuchComment;
    }
  }

  // ---------------------------------------------------------------------
  // The user `onDelete` trigger

  function ByOther(userId: nat): Row<Comment> -> bool {
    (r: Row<Comment>) => r.doc.authorId != userId
  }

  /** After `i` turns of the trigger's loop: the user's comments among the first `i` are gone. */
  ghost predicate DeletedUpTo(rows: seq<Row<Comment>>, authored: seq<Row<Comment>>, i: nat, userId: nat)
    requires i <= |authored|
  {
    rows == Filter(authored[..i], ByOther(userId)) + authored[i..]
  }

  /** A unique id occurs nowhere else in the table. */
  lemma IdOnlyAt(authored: seq<Row<Comment>>, i: nat, kept: seq<Row<Comment>>)
    requires UniqueIds(authored) && i < |authored|
    requires forall r :: r in kept ==> r in authored[..i]
    ensures authored[i].id !in Ids(kept) && authored[i].id !in Ids(authored[i + 1..])
  {
    forall r | r in kept ensures r.id != authored[i].id {
      var k :| 0 <= k < i && authored[..i][k] == r;
    }
    forall r | r in authored[i + 1..] ensures r.id != authored[i].id {
      var k :| 0 <= k < |authored| - i - 1 && authored[i + 1..][k] == r;
      assert authored[i + 1 + k] == r;
    }
  }

  /** One more turn: the next row drops out exactly when the user wrote it. */
  lemma DeleteTurn(rows: seq<Row<Comment>>, authored: seq<Row<Comment>>, i: nat, userId: nat)
    requires UniqueIds(authored) && i < |authored| && DeletedUpTo(rows, authored, i, userId)
    ensures authored[i].doc.authorId == userId ==>
              authored[i].id !in Ids(Filter(authored[..i], ByOther(userId))) &&
              authored[i].id !in Ids(authored[i + 1..]) &&
              rows == Filter(authored[..i], ByOther(userId)) + [authored[i]] + authored[i + 1..] &&
              DeletedUpTo(Filter(authored[..i], ByOther(userId)) + authored[i + 1..], authored, i + 1, userId)
    ensures authored[i].doc.authorId != userId ==> DeletedUpTo(rows, authored, i + 1, userId)
  {
    if authored[i].doc.authorId == userId {
      DeleteTurnAuthored(rows, authored, i, userId);
    } else {
      DeleteTurnOther(rows, authored, i, userId);
    }
  }

  /** The prefix filter grows by the next row when it is kept, and not otherwise. */
  lemma FilterPrefixStep(authored: seq<Row<Comment>>, i: nat, userId: nat)
    requires i < |authored|
    ensures Filter(authored[..i + 1], ByOther(userId)) ==
              Filter(authored[..i], ByOther(userId)) + (if authored[i].doc.authorId != userId then [authored[i]] else [])
  {
    assert authored[..i + 1] == authored[..i] + [authored[i]];
    FilterConcat(authored[..i], [authored[i]], ByOther(userId));
    FilterOne(authored[i], ByOther(userId));
  }

  lemma DeleteTurnOther(rows: seq<Row<Comment>>, authored: seq<Row<Comment>>, i: nat, userId: nat)
    requires i < |authored| && DeletedUpTo(rows, authored, i, userId)
    requires authored[i].doc.authorId != userId
    ensures DeletedUpTo(rows, authored, i + 1, userId)
  {
    var kept := Filter(authored[..i], ByOther(userId));
    FilterPrefixStep(authored, i, userId);
    assert authored[i..] == [authored[i]] + authored[i + 1..];
    assert kept + ([authored[i]] + authored[i + 1..]) == (kept + [authored[i]]) + authored[i + 1..];
  }

  lemma DeleteTurnAuthored(rows: seq<Row<Comment>>, authored: seq<Row<Comment>>, i: nat, userId: nat)
    requires UniqueIds(authored) && i < |authored| && DeletedUpTo(rows, authored, i, userId)
    requires authored[i].doc.authorId == userId
    ensures authored[i].id !in Ids(Filter(authored[..i], ByOther(userId)))
    ensures authored[i].id !in Ids(authored[i + 1..])
    ensures rows == Filter(authored[..i], ByOther(userId)) + [authored[i]] + authored[i + 1..]
    ensures DeletedUpTo(Filter(authored[..i], ByOther(userId)) + authored[i + 1..], authored, i + 1, userId)
  {
    var kept := Filter(authored[..i], ByOther(userId));
    var row, rest := authored[i], authored[i + 1..];
    IdOnlyAt(authored, i, kept);
    assert rows == kept + [row] + rest by {
      assert authored[i..] == [row] + rest;
      assert kept + ([row] + rest) == kept + [row] + rest;
    }
    assert DeletedUpTo(kept + rest, authored, i + 1, userId) by {
      FilterPrefixStep(authored, i, userId);
      assert kept + [] == kept;
    }
  }

  /**
   * Deleting a user first deletes every comment the user wrote, then the
   * user; a user that is not stored changes nothing. The other comments
   * stay, in their order.
   */
  method DeleteUser(users: Table<User>, comments: Table<Comment>, userId: nat)
    requires users.Valid() && comments.Valid()
    modifies users, comments
    ensures users.Valid() && comments.Valid()
    ensures userId !in Ids(old(users.rows)) ==> users.rows == old(users.rows) && comments.rows == old(comments.rows)
    ensures userId in Ids(old(users.rows)) ==> users.rows == Removed(old(users.rows), userId)
    ensures userId in Ids(old(users.rows)) ==> comments.rows == Filter(old(comments.rows), ByOther(userId))
  {
    if Find(users.rows, userId).None? {
      return;
    }
    var authored := comments.rows;
    assert authored[..0] == [] && authored[0..] == authored;
    for i := 0 to |authored|
      invariant comments.Valid() && users.Valid() && users.rows == old(users.rows)
      invariant DeletedUpTo(comments.rows, authored, i, userId)
    {
      DeleteIfAuthored(comments, authored, i, userId);
    }
    DeletedAll(comments.rows, authored, userId);
    ghost var final := comments.rows;
    var ok := users.Delete(userId);
    assert comments.rows == final;
  }

  /** One turn of the trigger's loop: the next comment is deleted when the user wrote it. */
  method DeleteIfAuthored(comments: Table<Comment>, authored: seq<Row<Comment>>, i: nat, userId: nat)
    requires comments.Valid() && UniqueIds(authored) && i < |authored|
    requires DeletedUpTo(comments.rows, authored, i, userId)
    modifies comments
    ensures comments.Valid() && DeletedUpTo(comments.rows, authored, i + 1, userId)
  {
    DeleteTurn(comments.rows, authored, i, userId);
    if authored[i].doc.authorId == userId {
      RemovedOnly(Filter(authored[..i], ByOther(userId)), authored[i], authored[i + 1..]);
      var ok := comments.Delete(authored[i].id);
    }
  }

  /** After the last turn the comments are the filtered table. */
  lemma DeletedAll(rows: seq<Row<Comment>>, authored: seq<Row<Comment>>, userId: nat)
    requires DeletedUpTo(rows, authored, |authored|, userId)
    ensures rows == Filter(authored, ByOther(userId))
  {
    assert authored[..|authored|] == authored && authored[|authored|..] == [];
    assert rows == Filter(authored, ByOther(userId)) + [];
  }
}
