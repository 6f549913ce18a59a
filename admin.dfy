/**
 * The admin routes: deleting a movie together with the votes and comments its
 * filters select, and the top-movies reply (its pipeline is in `Scoring`). The
 * cascade filters name a field; the documents only have the fields the schema
 * declares, so a filter on any other field selects nothing.
 */
module Admin {
  import opened Wrappers
  import opened Schema
  import opened Store
  import opened Http
  import opened Votes
  import opened Scoring

  const MovieNotFoundMessage: string := "Movie not found"
  const MovieDeletedMessage: string := "Movie deleted"
  const ServerErrorMessage: string := "Server error"

  /** The field the cascade filters name: `{movie_id: id}`. */
  const CascadePathAsWritten: string := "movie_id"
  /** The field votes and comments store their movie in. */
  const CascadePath: string := "movie"

  function CommentField(c: Comment, path: string): Option<Value>
  {
    if path == "_id" then Some(ObjectId(c.id))
    else if path == "user" then Some(ObjectId(c.user))
    else if path == "movie" then Some(ObjectId(c.movie))
    else if path == "body" then Some(Str(c.body))
    else if path == "createdAt" then Some(Number(c.createdAt))
    else None
  }

  /** The ids of the votes `Vote.deleteMany({[path]: id})` selects. */
  function VotesMatching(votes: seq<Vote>, path: string, id: MovieId): (r: set<VoteId>)
    ensures forall v :: v in votes && VoteField(v, path) == Some(ObjectId(id)) ==> v.id in r
    ensures forall i :: i in r ==> exists v :: v in votes && v.id == i && VoteField(v, path) == Some(ObjectId(id))
  {
    set v | v in votes && VoteField(v, path) == Some(ObjectId(id)) :: v.id
  }

  /** The ids of the comments `Comment.deleteMany({[path]: id})` selects. */
  function CommentsMatching(comments: seq<Comment>, path: string, id: MovieId): (r: set<CommentId>)
    ensures forall c :: c in comments && CommentField(c, path) == Some(ObjectId(id)) ==> c.id in r
    ensures forall i :: i in r ==> exists c :: c in comments && c.id == i && CommentField(c, path) == Some(ObjectId(id))
  {
    set c | c in comments && CommentField(c, path) == Some(ObjectId(id)) :: c.id
  }

  /**
   * `DELETE /admin/movies/:id` after `authenticate` and `authorizeAdmin`, with the
   * cascade filters on the field `path`: comments first, then votes, then the movie.
   */
  method DeleteMovie(db: Database, id: Option<MovieId>, path: string) returns (r: Reply<()>)
    requires db.Valid()
    modifies db`movies, db`votes, db`comments
    ensures db.Valid()
    ensures r.status != 200 ==>
      db.movies == old(db.movies) && db.votes == old(db.votes) && db.comments == old(db.comments)
    ensures id.None? ==> r == Failure(500, ServerErrorMessage, "SERVER_ERROR")
    ensures id.Some? && FindById(old(db.movies), MovieKey, id.value).None? ==>
      r == Failure(404, MovieNotFoundMessage, "NOT_FOUND")
    ensures id.Some? && FindById(old(db.movies), MovieKey, id.value).Some? ==>
      && r == Reply(200, MovieDeletedMessage, "", "", None)
      && (forall m :: m in db.movies <==> m in old(db.movies) && m.id != id.value)
      && db.comments == Keep(old(db.comments), CommentKey, CommentsMatching(old(db.comments), path, id.value))
      && db.votes == Keep(old(db.votes), VoteKey, VotesMatching(old(db.votes), path, id.value))
  {
    if id.None? {
      return Failure(500, ServerErrorMessage, "SERVER_ERROR");
    }
    var movieId := id.value;
    if FindById(db.movies, MovieKey, movieId).None? {
      return Failure(404, MovieNotFoundMessage, "NOT_FOUND");
    }
    db.DeleteManyComments(CommentsMatching(db.comments, path, movieId));
    db.DeleteManyVotes(VotesMatching(db.votes, path, movieId));
    RemoveByIdSpec(db.movies, MovieKey, movieId);
    db.FindByIdAndDeleteMovie(movieId);
    r := Reply(200, MovieDeletedMessage, "", "", None);
  }

  /** With the field as written the cascade selects nothing: every vote and comment of the movie stays behind. */
  lemma CascadeAsWrittenKeepsAll(votes: seq<Vote>, comments: seq<Comment>, id: MovieId)
    ensures VotesMatching(votes, CascadePathAsWritten, id) == {}
    ensures CommentsMatching(comments, CascadePathAsWritten, id) == {}
    ensures Keep(votes, VoteKey, VotesMatching(votes, CascadePathAsWritten, id)) == votes
    ensures Keep(comments, CommentKey, CommentsMatching(comments, CascadePathAsWritten, id)) == comments
  {
    KeepNothing(votes, VoteKey);
    KeepNothing(comments, CommentKey);
  }

  lemma {:induction false} KeepNothing<T(!new)>(s: seq<T>, key: T -> nat)
    ensures Keep(s, key, {}) == s
  {
    if s != [] {
      KeepNothing(s[1..], key);
      assert s == [s[0]] + s[1..];
    }
  }

  /** On the schema's field the cascade removes exactly the movie's votes and comments. */
  lemma CascadeBySchemaPath(votes: seq<Vote>, comments: seq<Comment>, id: MovieId)
    requires KeysUnique(votes, VoteKey) && KeysUnique(comments, CommentKey)
    ensures forall v :: v in Keep(votes, VoteKey, VotesMatching(votes, CascadePath, id)) <==> v in votes && v.movie != id
    ensures forall c :: c in Keep(comments, CommentKey, CommentsMatching(comments, CascadePath, id)) <==> c in comments && c.movie != id
  {
    var vdrop := VotesMatching(votes, CascadePath, id);
    forall v | v in votes && v.movie != id
      ensures v.id !in vdrop
    {
      if v.id in vdrop {
        var w :| w in votes && w.id == v.id && VoteField(w, CascadePath) == Some(ObjectId(id));
        SameKeySame(votes, VoteKey, v, w);
      }
    }
    var cdrop := CommentsMatching(comments, CascadePath, id);
    forall c | c in comments && c.movie != id
      ensures c.id !in cdrop
    {
      if c.id in cdrop {
        var d :| d in comments && d.id == c.id && CommentField(d, CascadePath) == Some(ObjectId(id));
        SameKeySame(comments, CommentKey, c, d);
      }
    }
  }

  /** Reads over movies none of which has the id: the detail view answers 404 and no list shows it. */
  lemma AbsentMovieUnread(movies: seq<Movie>, votes: seq<Vote>, users: seq<User>, id: MovieId)
    requires KeysUnique(movies, MovieKey) && KeysUnique(users, UserKey)
    requires forall m :: m in movies ==> m.id != id
    ensures DetailReply(movies, votes, users, Some(id)).status == 404
    ensures forall e :: e in ListView(movies, votes, users) ==> e.id != id
    ensures forall p: Paths, e :: e in TopMoviesPipeline(movies, votes, users, p) ==> e.id != id
  {
    DetailReplySpec(movies, votes, users, id);
    AbsentFromList(movies, votes, users, id);
    AbsentFromTop(movies, votes, users, id);
  }

  /** Whatever field names the top-movies pipeline joins on, it lists no id that no movie has. */
  lemma AbsentFromTop(movies: seq<Movie>, votes: seq<Vote>, users: seq<User>, id: MovieId)
    requires forall m :: m in movies ==> m.id != id
    ensures forall p: Paths, e :: e in TopMoviesPipeline(movies, votes, users, p) ==> e.id != id
  {
    forall p: Paths, e | e in TopMoviesPipeline(movies, votes, users, p)
      ensures e.id != id
    {
      TopMoviesShape(movies, votes, users, p);
      var docs := TopDocs(movies, votes, users, p);
      assert e in docs;
      var k :| 0 <= k < |docs| && docs[k] == e;
      assert movies[k] in movies;
    }
  }

  lemma AbsentFromList(movies: seq<Movie>, votes: seq<Vote>, users: seq<User>, id: MovieId)
    requires KeysUnique(users, UserKey)
    requires forall m :: m in movies ==> m.id != id
    ensures forall e :: e in ListView(movies, votes, users) ==> e.id != id
  {
    ListViewSpec(movies, votes, users);
    var entries := ListEntries(movies, votes, users);
    forall e | e in ListView(movies, votes, users)
      ensures e.id != id
    {
      assert e in multiset(entries);
      var k :| 0 <= k < |entries| && entries[k] == e;
      assert movies[k] in movies;
    }
  }

  /** After the delete the movie is gone from every read: the detail view answers 404 and no list shows it. */
  lemma DeletedMovieUnlisted(movies: seq<Movie>, votes: seq<Vote>, users: seq<User>, id: MovieId)
    requires KeysUnique(movies, MovieKey) && KeysUnique(users, UserKey)
    ensures var rest := RemoveById(movies, MovieKey, id);
      && DetailReply(rest, votes, users, Some(id)).status == 404
      && (forall e :: e in ListView(rest, votes, users) ==> e.id != id)
      && (forall p: Paths, e :: e in TopMoviesPipeline(rest, votes, users, p) ==> e.id != id)
  {
    RemoveByIdSpec(movies, MovieKey, id);
    RemoveByIdUnique(movies, MovieKey, id);
    AbsentMovieUnread(RemoveById(movies, MovieKey, id), votes, users, id);
  }
}
