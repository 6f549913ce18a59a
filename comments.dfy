/**
 * The comment routes: adding a comment to a movie, listing a movie's comments
 * oldest first with their authors, and deleting a comment as its author or as
 * an admin.
 */
module Comments {
  import opened Wrappers
  import opened Text
  import opened Schema
  import opened Store
  import opened Http
  import opened Ordering
  import opened AuthMiddleware

  const NotAuthorizedMessage: string := "Not authorized"
  const CommentFieldsMessage: string := "Movie ID and comment body are required"
  const MovieNotFoundMessage: string := "Movie not found"
  const CommentNotFoundMessage: string := "Comment not found"
  const NotOwnerMessage: string := "Not authorized to delete this comment"
  const CommentDeletedMessage: string := "Comment deleted"
  const ServerErrorMessage: string := "Server error"

  /** The `movieId` body field: missing or empty, text that is not an object id, or an id. */
  datatype IdField = NoId | BadId | IdOf(id: nat)

  /** The author as `populate('user', 'name email')` shows it. */
  datatype CommentAuthor = CommentAuthor(id: UserId, name: string, email: string)

  /** A comment with its `user` populated; an author no longer stored populates to `null`. */
  datatype CommentView = CommentView(
    id: CommentId, user: Option<CommentAuthor>, movie: MovieId, body: string,
    createdAt: Timestamp, updatedAt: Option<Timestamp>)

  function PopulateComment(c: Comment, users: seq<User>): (v: CommentView)
    ensures v.id == c.id && v.movie == c.movie && v.body == c.body && v.createdAt == c.createdAt
    ensures v.user.Some? <==> FindById(users, UserKey, c.user).Some?
    ensures v.user.Some? ==> v.user.value.id == c.user
  {
    var author := match FindById(users, UserKey, c.user)
      case None => None
      case Some(u) => Some(CommentAuthor(u.id, u.name, u.email));
    CommentView(c.id, author, c.movie, c.body, c.createdAt, c.updatedAt)
  }

  // ---------------------------------------------------------------- POST /comments

  /** `POST /comments` after `authenticate`. */
  method AddComment(db: Database, caller: Option<ReqUser>, movieId: IdField, body: Option<string>, now: Timestamp)
    returns (r: Reply<CommentView>)
    requires db.Valid()
    modifies db`comments, db`nextId
    ensures db.Valid()
    ensures r.status in {201, 400, 401, 404, 500}
    ensures r.status != 201 ==> r.data.None? && db.comments == old(db.comments) && db.nextId == old(db.nextId)
    ensures caller.None? ==> r == Failure(401, NotAuthorizedMessage, "")
    ensures caller.Some? && (movieId.NoId? || !Truthy(body)) ==> r == Failure(400, CommentFieldsMessage, "")
    ensures caller.Some? && movieId.BadId? && Truthy(body) ==> r == Failure(500, ServerErrorMessage, "")
    ensures caller.Some? && movieId.IdOf? && Truthy(body) ==>
      && (FindById(db.movies, MovieKey, movieId.id).None? ==> r == Failure(404, MovieNotFoundMessage, ""))
      && (FindById(db.movies, MovieKey, movieId.id).Some? ==>
            var c := Comment(old(db.nextId), caller.value.id, movieId.id, Trim(body.value), now, None);
            && (CommentValid(c) ==> r == Success(201, PopulateComment(c, db.users)) && db.comments == old(db.comments) + [c])
            && (!CommentValid(c) ==> r == Failure(500, ServerErrorMessage, "")))
  {
    if caller.None? {
      return Failure(401, NotAuthorizedMessage, "");
    }
    if movieId.NoId? || !Truthy(body) {
      return Failure(400, CommentFieldsMessage, "");
    }
    if movieId.BadId? {
      return Failure(500, ServerErrorMessage, "");
    }
    if FindById(db.movies, MovieKey, movieId.id).None? {
      return Failure(404, MovieNotFoundMessage, "");
    }
    var created := db.CreateComment(caller.value.id, movieId.id, body.value, now);
    match created {
      case Written(c) => r := Success(201, PopulateComment(c, db.users));
      case _ => r := Failure(500, ServerErrorMessage, "");
    }
  }

  // ---------------------------------------------------------------- GET /comments/movie/:movieId

  /** `Comment.find({movie})`: the comments on one movie, in stored order. */
  function OnMovie(comments: seq<Comment>, movie: MovieId): (r: seq<Comment>)
    ensures forall c :: c in r <==> c in comments && c.movie == movie
    ensures |r| <= |comments|
  {
    if comments == [] then []
    else if comments[0].movie == movie then [comments[0]] + OnMovie(comments[1..], movie)
    else OnMovie(comments[1..], movie)
  }

  function PopulateAll(comments: seq<Comment>, users: seq<User>): (r: seq<CommentView>)
    ensures |r| == |comments|
    ensures forall i :: 0 <= i < |comments| ==> r[i] == PopulateComment(comments[i], users)
  {
    if comments == [] then [] else [PopulateComment(comments[0], users)] + PopulateAll(comments[1..], users)
  }

  /** `.sort({createdAt: 1})`. */
  predicate OlderFirst(a: CommentView, b: CommentView)
  {
    a.createdAt <= b.createdAt
  }

  function CommentsOf(comments: seq<Comment>, users: seq<User>, movie: MovieId): seq<CommentView>
  {
    Sort(PopulateAll(OnMovie(comments, movie), users), OlderFirst)
  }

  /** The list: the movie's comments and no others, each populated, oldest first. */
  lemma CommentsOfSpec(comments: seq<Comment>, users: seq<User>, movie: MovieId)
    ensures var r := CommentsOf(comments, users, movie);
      && multiset(r) == multiset(PopulateAll(OnMovie(comments, movie), users))
      && Sorted(r, OlderFirst)
      && (forall v :: v in r ==> v.movie == movie)
      && (forall c :: c in comments && c.movie == movie ==> PopulateComment(c, users) in r)
  {
    var on := OnMovie(comments, movie);
    var views := PopulateAll(on, users);
    var r := CommentsOf(comments, users, movie);
    assert Total(OlderFirst);
    SortSorted(views, OlderFirst);
    forall v | v in r
      ensures v.movie == movie
    {
      assert v in multiset(views);
      var i :| 0 <= i < |views| && views[i] == v;
      assert on[i] in on;
    }
    forall c | c in comments && c.movie == movie
      ensures PopulateComment(c, users) in r
    {
      var i :| 0 <= i < |on| && on[i] == c;
      assert views[i] in multiset(r);
    }
  }

  /** `GET /comments/movie/:movieId`: a malformed id fails the cast and is a 500. */
  function ListCommentsReply(comments: seq<Comment>, users: seq<User>, movie: Option<MovieId>): (r: Reply<seq<CommentView>>)
    ensures movie.None? ==> r == Failure(500, ServerErrorMessage, "")
    ensures movie.Some? ==> r.status == 200 && r.data == Some(CommentsOf(comments, users, movie.value))
  {
    match movie
    case None => Failure(500, ServerErrorMessage, "")
    case Some(id) => Success(200, CommentsOf(comments, users, id))
  }

  // ---------------------------------------------------------------- DELETE /comments/:id

  /** Who may delete a comment: its author, or an admin. */
  predicate MayDelete(c: Comment, caller: ReqUser)
  {
    c.user == caller.id || caller.role == RoleAdmin
  }

  /** `DELETE /comments/:id` after `authenticate`. */
  method DeleteComment(db: Database, caller: ReqUser, id: Option<CommentId>) returns (r: Reply<()>)
    requires db.Valid()
    modifies db`comments
    ensures db.Valid()
    ensures r.status != 200 ==> db.comments == old(db.comments)
    ensures id.None? ==> r == Failure(500, ServerErrorMessage, "")
    ensures id.Some? && FindById(old(db.comments), CommentKey, id.value).None? ==> r == Failure(404, CommentNotFoundMessage, "")
    ensures id.Some? && FindById(old(db.comments), CommentKey, id.value).Some? ==>
      var c := FindById(old(db.comments), CommentKey, id.value).value;
      && (!MayDelete(c, caller) ==> r == Failure(403, NotOwnerMessage, ""))
      && (MayDelete(c, caller) ==>
            && r == Reply(200, CommentDeletedMessage, "", "", None)
            && forall x :: x in db.comments <==> x in old(db.comments) && x.id != id.value)
  {
    if id.None? {
      return Failure(500, ServerErrorMessage, "");
    }
    match FindById(db.comments, CommentKey, id.value) {
      case None =>
        r := Failure(404, CommentNotFoundMessage, "");
      case Some(c) =>
        if !MayDelete(c, caller) {
          return Failure(403, NotOwnerMessage, "");
        }
        RemoveByIdSpec(db.comments, CommentKey, id.value);
        db.FindByIdAndDeleteComment(id.value);
        r := Reply(200, CommentDeletedMessage, "", "", None);
    }
  }

  /** Once a comment is deleted it is gone from its movie's list, and every other comment of the movie stays. */
  lemma ListAfterDelete(comments: seq<Comment>, users: seq<User>, id: CommentId, movie: MovieId)
    requires KeysUnique(comments, CommentKey)
    ensures forall v :: v in CommentsOf(RemoveById(comments, CommentKey, id), users, movie) ==> v.id != id
    ensures forall c :: c in comments && c.movie == movie && c.id != id ==>
      PopulateComment(c, users) in CommentsOf(RemoveById(comments, CommentKey, id), users, movie)
  {
    var rest := RemoveById(comments, CommentKey, id);
    RemoveByIdSpec(comments, CommentKey, id);
    CommentsOfSpec(rest, users, movie);
    var r := CommentsOf(rest, users, movie);
    var views := PopulateAll(OnMovie(rest, movie), users);
    forall v | v in r
      ensures v.id != id
    {
      assert v in multiset(views);
      var i :| 0 <= i < |views| && views[i] == v;
      assert OnMovie(rest, movie)[i] in rest;
    }
  }
}
