/**
 * The scoring aggregations behind `GET /movies`, `GET /movies/:id` and
 * `GET /admin/top-movies`: join each movie with its votes, count the votes of
 * type 1 and -1, join the author, project, sort. Joins and filters name their
 * fields as strings, as the pipelines do, so a pipeline that names a field the
 * schema does not declare reads it as missing.
 */
module Scoring {
  import opened Wrappers
  import opened Schema
  import opened Store
  import opened Votes
  import opened Http
  import opened Ordering

  // ---------------------------------------------------------------- documents as field maps

  /** A value a join or filter compares; `Null` is what a missing field reads as. */
  datatype Value = Null | ObjectId(id: nat) | Number(n: int) | Str(s: string)

  function VoteField(v: Vote, path: string): Option<Value>
  {
    if path == "_id" then Some(ObjectId(v.id))
    else if path == "user" then Some(ObjectId(v.user))
    else if path == "movie" then Some(ObjectId(v.movie))
    else if path == "voteType" then Some(Number(v.voteType))
    else if path == "createdAt" then Some(Number(v.createdAt))
    else None
  }

  function MovieField(m: Movie, path: string): Option<Value>
  {
    if path == "_id" then Some(ObjectId(m.id))
    else if path == "title" then Some(Str(m.title))
    else if path == "description" then Some(Str(m.description))
    else if path == "year" then Some(match m.year case None => Null case Some(y) => Number(y))
    else if path == "addedBy" then Some(ObjectId(m.addedBy))
    else if path == "createdAt" then Some(Number(m.createdAt))
    else None
  }

  function UserField(u: User, path: string): Option<Value>
  {
    if path == "_id" then Some(ObjectId(u.id))
    else if path == "name" then Some(Str(u.name))
    else if path == "email" then Some(Str(u.email))
    else if path == "password" then Some(Str(u.password))
    else if path == "role" then Some(Str(u.role))
    else if path == "createdAt" then Some(Number(u.createdAt))
    else None
  }

  /** `$lookup` compares a missing field as `null`. */
  function JoinKey(field: Option<Value>): Value
  {
    field.GetOr(Null)
  }

  /** `$lookup` from `votes`: the votes whose `foreign` field equals `local`. */
  function JoinVotes(votes: seq<Vote>, local: Value, foreign: string): (r: seq<Vote>)
    ensures |r| <= |votes|
    ensures forall v :: v in r <==> v in votes && JoinKey(VoteField(v, foreign)) == local
  {
    if votes == [] then []
    else (if JoinKey(VoteField(votes[0], foreign)) == local then [votes[0]] else []) + JoinVotes(votes[1..], local, foreign)
  }

  /** `$lookup` from `users`: the users whose `foreign` field equals `local`. */
  function JoinUsers(users: seq<User>, local: Value, foreign: string): (r: seq<User>)
    ensures |r| <= |users|
    ensures forall u :: u in r <==> u in users && JoinKey(UserField(u, foreign)) == local
  {
    if users == [] then []
    else (if JoinKey(UserField(users[0], foreign)) == local then [users[0]] else []) + JoinUsers(users[1..], local, foreign)
  }

  /** `$size` of `$filter` with `$eq: [field, t]`; a missing field never equals a number. */
  function CountWhere(joined: seq<Vote>, field: string, t: int): nat
  {
    if joined == [] then 0
    else (if VoteField(joined[0], field) == Some(Number(t)) then 1 else 0) + CountWhere(joined[1..], field, t)
  }

  /** The field names a scoring pipeline joins and filters on. */
  datatype Paths = Paths(voteMovie: string, voteType: string, movieAuthor: string)

  /** The names the schema declares, as the movie list and detail pipelines use them. */
  const SchemaPaths: Paths := Paths("movie", "voteType", "addedBy")

  /** The names the top-movies pipeline uses; none of them is a schema field. */
  const TopMoviesPaths: Paths := Paths("movie_id", "vote_type", "added_by")

  /** The `$addFields` stage: upvotes, downvotes, and their difference. */
  function ScoreOf(votes: seq<Vote>, m: Movie, p: Paths): (t: Tally)
    ensures t.score == t.upvotes - t.downvotes
  {
    var joined := JoinVotes(votes, JoinKey(MovieField(m, "_id")), p.voteMovie);
    var up := CountWhere(joined, p.voteType, Upvote);
    var down := CountWhere(joined, p.voteType, Downvote);
    Tally(up, down, up - down)
  }

  /** The users the author `$lookup` finds for a movie. */
  function AuthorsOf(users: seq<User>, m: Movie, p: Paths): seq<User>
  {
    JoinUsers(users, JoinKey(MovieField(m, p.movieAuthor)), "_id")
  }

  // ---------------------------------------------------------------- the joins, against the vote ledger

  lemma {:induction false} SchemaCountIsCountVotes(votes: seq<Vote>, movie: MovieId, t: int)
    ensures CountWhere(JoinVotes(votes, ObjectId(movie), "movie"), "voteType", t) == CountVotes(votes, movie, t)
  {
    if votes != [] {
      SchemaCountIsCountVotes(votes[1..], movie, t);
      var head := if JoinKey(VoteField(votes[0], "movie")) == ObjectId(movie) then [votes[0]] else [];
      var rest := JoinVotes(votes[1..], ObjectId(movie), "movie");
      CountWhereAppend(head, rest, "voteType", t);
    }
  }

  lemma {:induction false} CountWhereAppend(a: seq<Vote>, b: seq<Vote>, field: string, t: int)
    ensures CountWhere(a + b, field, t) == CountWhere(a, field, t) + CountWhere(b, field, t)
  {
    if a != [] {
      assert (a + b)[1..] == a[1..] + b;
      CountWhereAppend(a[1..], b, field, t);
    } else {
      assert a + b == b;
    }
  }

  /** With the schema's names, the pipeline's counts are the ledger's counts for the movie. */
  lemma SchemaScoreIsTally(votes: seq<Vote>, m: Movie)
    ensures ScoreOf(votes, m, SchemaPaths) == TallyOf(votes, m.id)
  {
    SchemaCountIsCountVotes(votes, m.id, Upvote);
    SchemaCountIsCountVotes(votes, m.id, Downvote);
  }

  /** A join on a field no vote has, against a present key, finds nothing. */
  lemma {:induction false} JoinOnMissingField(votes: seq<Vote>, id: nat, foreign: string)
    requires foreign !in {"_id", "user", "movie", "voteType", "createdAt"}
    ensures JoinVotes(votes, ObjectId(id), foreign) == []
  {
    if votes != [] {
      JoinOnMissingField(votes[1..], id, foreign);
    }
  }

  /** A join from a missing local field finds no user: every user has an `_id`. */
  lemma {:induction false} JoinFromMissingField(users: seq<User>)
    ensures JoinUsers(users, Null, "_id") == []
  {
    if users != [] {
      JoinFromMissingField(users[1..]);
    }
  }

  /** Under the unique `_id` index, the author join finds the author, or nobody. */
  lemma {:induction false} JoinById(users: seq<User>, id: UserId)
    requires KeysUnique(users, UserKey)
    ensures JoinUsers(users, ObjectId(id), "_id") ==
      match FindById(users, UserKey, id) case None => [] case Some(u) => [u]
  {
    if users != [] {
      assert KeysUnique(users[1..], UserKey) by {
        forall i, j | 0 <= i < j < |users[1..]|
          ensures UserKey(users[1..][i]) != UserKey(users[1..][j])
        {
          assert users[1..][i] == users[i + 1] && users[1..][j] == users[j + 1];
        }
      }
      JoinById(users[1..], id);
      if users[0].id == id {
        assert forall u :: u in users[1..] ==> u.id != id by {
          forall u | u in users[1..]
            ensures u.id != id
          {
            var k :| 0 <= k < |users[1..]| && users[1..][k] == u;
            assert users[k + 1] == u;
          }
        }
        assert FindById(users[1..], UserKey, id).None?;
      } else {
        assert FindById(users, UserKey, id) == FindById(users[1..], UserKey, id) by {
          assert forall u :: u in users && u.id == id ==> u in users[1..];
        }
      }
    }
  }

  // ---------------------------------------------------------------- GET /movies

  /** The author as the list shows it: every field but the password. */
  datatype ListAuthor = ListAuthor(id: UserId, name: string, email: string, role: string, createdAt: Timestamp)

  /** A movie as the list shows it: every stored field but `votes`, with the tally and the author when there is one. */
  datatype ListEntry = ListEntry(
    id: MovieId, title: string, description: string, images: seq<string>, genres: seq<string>,
    year: Option<int>, createdAt: Timestamp, tally: Tally, addedBy: Option<ListAuthor>)

  function ListAuthorOf(u: User): ListAuthor
  {
    ListAuthor(u.id, u.name, u.email, u.role, u.createdAt)
  }

  function ListEntryOf(m: Movie, t: Tally, author: Option<User>): ListEntry
  {
    var a := match author case None => None case Some(u) => Some(ListAuthorOf(u));
    ListEntry(m.id, m.title, m.description, m.images, m.genres, m.year, m.createdAt, t, a)
  }

  /** `$unwind` with `preserveNullAndEmptyArrays: true`: one entry per author, or one without an author. */
  function UnwindForList(m: Movie, t: Tally, authors: seq<User>): (r: seq<ListEntry>)
    ensures |r| == if authors == [] then 1 else |authors|
  {
    if authors == [] then [ListEntryOf(m, t, None)]
    else seq(|authors|, i requires 0 <= i < |authors| => ListEntryOf(m, t, Some(authors[i])))
  }

  /** Every stage before `$sort`, applied to each movie in turn. */
  function ListDocs(movies: seq<Movie>, votes: seq<Vote>, users: seq<User>): seq<ListEntry>
  {
    if movies == [] then []
    else
      var m := movies[0];
      UnwindForList(m, ScoreOf(votes, m, SchemaPaths), AuthorsOf(users, m, SchemaPaths))
        + ListDocs(movies[1..], votes, users)
  }

  /** `$sort: {score: -1, createdAt: -1}`. */
  predicate ListBefore(a: ListEntry, b: ListEntry)
  {
    a.tally.score > b.tally.score || (a.tally.score == b.tally.score && a.createdAt >= b.createdAt)
  }

  /** The `GET /movies` pipeline. */
  function ListView(movies: seq<Movie>, votes: seq<Vote>, users: seq<User>): seq<ListEntry>
  {
    Sort(ListDocs(movies, votes, users), ListBefore)
  }

  /** What the list says about one movie: the ledger's tally and the stored author, if any. */
  function ListEntryFor(m: Movie, votes: seq<Vote>, users: seq<User>): (e: ListEntry)
    ensures e.id == m.id && e.createdAt == m.createdAt && e.tally == TallyOf(votes, m.id)
    ensures e.addedBy.Some? <==> FindById(users, UserKey, m.addedBy).Some?
  {
    ListEntryOf(m, TallyOf(votes, m.id), FindById(users, UserKey, m.addedBy))
  }

  /** One entry per movie, in stored order. */
  function ListEntries(movies: seq<Movie>, votes: seq<Vote>, users: seq<User>): (r: seq<ListEntry>)
    ensures |r| == |movies|
    ensures forall i :: 0 <= i < |movies| ==> r[i] == ListEntryFor(movies[i], votes, users)
  {
    if movies == [] then [] else [ListEntryFor(movies[0], votes, users)] + ListEntries(movies[1..], votes, users)
  }

  /** Under the unique `_id` index every movie unwinds to exactly its own entry. */
  lemma {:induction false} ListDocsAreEntries(movies: seq<Movie>, votes: seq<Vote>, users: seq<User>)
    requires KeysUnique(users, UserKey)
    ensures ListDocs(movies, votes, users) == ListEntries(movies, votes, users)
  {
    if movies != [] {
      var m := movies[0];
      ListDocsAreEntries(movies[1..], votes, users);
      UnwindIsEntry(m, votes, users);
    }
  }

  lemma UnwindIsEntry(m: Movie, votes: seq<Vote>, users: seq<User>)
    requires KeysUnique(users, UserKey)
    ensures UnwindForList(m, ScoreOf(votes, m, SchemaPaths), AuthorsOf(users, m, SchemaPaths)) == [ListEntryFor(m, votes, users)]
  {
    SchemaScoreIsTally(votes, m);
    JoinById(users, m.addedBy);
    var authors := AuthorsOf(users, m, SchemaPaths);
    if authors != [] {
      var u := FindById(users, UserKey, m.addedBy).value;
      assert authors == [u];
      var r := UnwindForList(m, ScoreOf(votes, m, SchemaPaths), authors);
      assert |r| == 1 && r[0] == ListEntryOf(m, TallyOf(votes, m.id), Some(u));
    }
  }

  lemma ListBeforeIsOrdering()
    ensures Total(ListBefore) && Transitive(ListBefore)
  {
  }

  /**
   * The list holds exactly one entry per movie, authorless or not, carrying the
   * ledger's counts, and it is ordered by score, newest first among equal scores.
   */
  lemma ListViewSpec(movies: seq<Movie>, votes: seq<Vote>, users: seq<User>)
    requires KeysUnique(users, UserKey)
    ensures var r := ListView(movies, votes, users);
      && |r| == |movies|
      && multiset(r) == multiset(ListEntries(movies, votes, users))
      && Sorted(r, ListBefore)
  {
    ListDocsAreEntries(movies, votes, users);
    ListBeforeIsOrdering();
    SortSorted(ListDocs(movies, votes, users), ListBefore);
  }

  /** Every stored movie appears in the list with its counts. */
  lemma ListViewKeepsEveryMovie(movies: seq<Movie>, votes: seq<Vote>, users: seq<User>, m: Movie)
    requires KeysUnique(users, UserKey) && m in movies
    ensures ListEntryFor(m, votes, users) in ListView(movies, votes, users)
  {
    ListViewSpec(movies, votes, users);
    var i :| 0 <= i < |movies| && movies[i] == m;
    var entries := ListEntries(movies, votes, users);
    assert entries[i] == ListEntryFor(m, votes, users);
    assert ListEntryFor(m, votes, users) in multiset(entries);
  }

  function ListReply(movies: seq<Movie>, votes: seq<Vote>, users: seq<User>): (r: Reply<seq<ListEntry>>)
    ensures r.status == 200 && r.data == Some(ListView(movies, votes, users))
  {
    Success(200, ListView(movies, votes, users))
  }

  // ---------------------------------------------------------------- GET /movies/:id

  /** The author as the detail view shows it: password, email, role and createdAt projected away. */
  datatype DetailAuthor = DetailAuthor(id: UserId, name: string)

  datatype DetailEntry = DetailEntry(
    id: MovieId, title: string, description: string, images: seq<string>, genres: seq<string>,
    year: Option<int>, createdAt: Timestamp, tally: Tally, addedBy: DetailAuthor)

  function DetailEntryOf(m: Movie, t: Tally, u: User): DetailEntry
  {
    DetailEntry(m.id, m.title, m.description, m.images, m.genres, m.year, m.createdAt, t, DetailAuthor(u.id, u.name))
  }

  /** `$match` on `_id`, then every further stage; `$unwind` without preserving drops an authorless movie. */
  function DetailDocs(movies: seq<Movie>, votes: seq<Vote>, users: seq<User>, id: MovieId): seq<DetailEntry>
  {
    if movies == [] then []
    else
      var m := movies[0];
      var here := if m.id != id then [] else
        var authors := AuthorsOf(users, m, SchemaPaths);
        seq(|authors|, i requires 0 <= i < |authors| => DetailEntryOf(m, ScoreOf(votes, m, SchemaPaths), authors[i]));
      here + DetailDocs(movies[1..], votes, users, id)
  }

  /** `GET /movies/:id`: 500 for an id that is not an object id, 404 when the pipeline yields nothing, else its first document. */
  function DetailReply(movies: seq<Movie>, votes: seq<Vote>, users: seq<User>, id: Option<MovieId>): (r: Reply<DetailEntry>)
    ensures r.status in {200, 404, 500}
    ensures id.None? <==> r.status == 500
    ensures r.status == 404 ==> r.message == "Movie not found" && r.kind == "NOT_FOUND"
    ensures r.status == 200 ==> r.data.Some? && r.data.value.id == id.value
  {
    match id
    case None => Failure(500, "Server error", "SERVER_ERROR")
    case Some(i) =>
      var docs := DetailDocs(movies, votes, users, i);
      if docs == [] then Failure(404, "Movie not found", "NOT_FOUND")
      else
        DetailDocsId(movies, votes, users, i);
        assert docs[0] in docs;
        Success(200, docs[0])
  }

  lemma {:induction false} DetailDocsId(movies: seq<Movie>, votes: seq<Vote>, users: seq<User>, id: MovieId)
    ensures forall d :: d in DetailDocs(movies, votes, users, id) ==> d.id == id
  {
    if movies != [] {
      DetailDocsId(movies[1..], votes, users, id);
    }
  }

  /** Under the unique `_id` indexes the pipeline yields the one movie with its author, or nothing. */
  lemma {:induction false} DetailDocsFind(movies: seq<Movie>, votes: seq<Vote>, users: seq<User>, id: MovieId)
    requires KeysUnique(movies, MovieKey) && KeysUnique(users, UserKey)
    ensures DetailDocs(movies, votes, users, id) ==
      match FindById(movies, MovieKey, id)
      case None => []
      case Some(m) =>
        match FindById(users, UserKey, m.addedBy)
        case None => []
        case Some(u) => [DetailEntryOf(m, TallyOf(votes, m.id), u)]
  {
    if movies != [] {
      var m := movies[0];
      assert KeysUnique(movies[1..], MovieKey) by {
        forall i, j | 0 <= i < j < |movies[1..]|
          ensures MovieKey(movies[1..][i]) != MovieKey(movies[1..][j])
        {
          assert movies[1..][i] == movies[i + 1] && movies[1..][j] == movies[j + 1];
        }
      }
      DetailDocsFind(movies[1..], votes, users, id);
      if m.id == id {
        assert FindById(movies[1..], MovieKey, id).None? by {
          forall x | x in movies[1..]
            ensures x.id != id
          {
            var k :| 0 <= k < |movies[1..]| && movies[1..][k] == x;
            assert movies[k + 1] == x;
          }
        }
        JoinById(users, m.addedBy);
        SchemaScoreIsTally(votes, m);
      } else {
        assert FindById(movies, MovieKey, id) == FindById(movies[1..], MovieKey, id) by {
          assert forall x :: x in movies && x.id == id ==> x in movies[1..];
        }
      }
    }
  }

  /**
   * The detail view answers 404 both for an unknown id and for a movie whose
   * author no longer exists; otherwise 200 with the ledger's counts and the
   * author reduced to id and name.
   */
  lemma DetailReplySpec(movies: seq<Movie>, votes: seq<Vote>, users: seq<User>, id: MovieId)
    requires KeysUnique(movies, MovieKey) && KeysUnique(users, UserKey)
    ensures var r := DetailReply(movies, votes, users, Some(id));
      && (r.status == 404 <==>
           FindById(movies, MovieKey, id).None? || FindById(users, UserKey, FindById(movies, MovieKey, id).value.addedBy).None?)
      && (r.status == 200 ==>
           var m := FindById(movies, MovieKey, id).value;
           r.data == Some(DetailEntryOf(m, TallyOf(votes, id), FindById(users, UserKey, m.addedBy).value)))
  {
    DetailDocsFind(movies, votes, users, id);
  }

  // ---------------------------------------------------------------- GET /admin/top-movies

  /** The author as top-movies projects it: `_id`, `name` and `email`. */
  datatype TopAuthor = TopAuthor(id: UserId, name: string, email: string)

  datatype TopEntry = TopEntry(
    id: MovieId, title: string, description: string, images: seq<string>, genres: seq<string>,
    tally: Tally, addedBy: Option<TopAuthor>)

  const TopLimit: nat := 10

  /** `$addFields` with `addedBy: {$arrayElemAt: ['$addedBy', 0]}`, then the `$project` stage. */
  function TopDoc(m: Movie, votes: seq<Vote>, users: seq<User>, p: Paths): TopEntry
  {
    var authors := AuthorsOf(users, m, p);
    var a := if authors == [] then None else Some(TopAuthor(authors[0].id, authors[0].name, authors[0].email));
    TopEntry(m.id, m.title, m.description, m.images, m.genres, ScoreOf(votes, m, p), a)
  }

  function TopDocs(movies: seq<Movie>, votes: seq<Vote>, users: seq<User>, p: Paths): (r: seq<TopEntry>)
    ensures |r| == |movies|
    ensures forall i :: 0 <= i < |movies| ==> r[i] == TopDoc(movies[i], votes, users, p)
  {
    if movies == [] then [] else [TopDoc(movies[0], votes, users, p)] + TopDocs(movies[1..], votes, users, p)
  }

  /** `$sort: {score: -1}`. */
  predicate TopBefore(a: TopEntry, b: TopEntry)
  {
    a.tally.score >= b.tally.score
  }

  /** The top-movies pipeline with the given field names: score, sort, keep 10, project. */
  function TopMoviesPipeline(movies: seq<Movie>, votes: seq<Vote>, users: seq<User>, p: Paths): seq<TopEntry>
  {
    Limit(Sort(TopDocs(movies, votes, users, p), TopBefore), TopLimit)
  }

  /** The pipeline as written, joining on `movie_id`, `vote_type` and `added_by`. */
  function TopMoviesAsWritten(movies: seq<Movie>, votes: seq<Vote>, users: seq<User>): seq<TopEntry>
  {
    TopMoviesPipeline(movies, votes, users, TopMoviesPaths)
  }

  /** The pipeline joining on the schema's `movie`, `voteType` and `addedBy`. */
  function TopMovies(movies: seq<Movie>, votes: seq<Vote>, users: seq<User>): seq<TopEntry>
  {
    TopMoviesPipeline(movies, votes, users, SchemaPaths)
  }

  lemma TopBeforeIsOrdering()
    ensures Total(TopBefore) && Transitive(TopBefore)
  {
  }

  /**
   * Whatever the field names: at most ten entries, one per movie while there are
   * ten or fewer, sorted by score, and no movie left out scores above one kept.
   */
  lemma TopMoviesShape(movies: seq<Movie>, votes: seq<Vote>, users: seq<User>, p: Paths)
    ensures var r := TopMoviesPipeline(movies, votes, users, p);
      && |r| <= TopLimit
      && (|movies| <= TopLimit ==> |r| == |movies|)
      && Sorted(r, TopBefore)
      && (forall e :: e in r ==> e in TopDocs(movies, votes, users, p))
      && forall k :: 0 <= k < |movies| ==>
           TopDoc(movies[k], votes, users, p) in r
           || forall e :: e in r ==> e.tally.score >= TopDoc(movies[k], votes, users, p).tally.score
  {
    var docs := TopDocs(movies, votes, users, p);
    var sorted := Sort(docs, TopBefore);
    var r := Limit(sorted, TopLimit);
    TopBeforeIsOrdering();
    SortSorted(docs, TopBefore);
    assert Sorted(r, TopBefore) by {
      forall i | 0 <= i < |r| - 1
        ensures TopBefore(r[i], r[i + 1])
      {
        assert r[i] == sorted[i] && r[i + 1] == sorted[i + 1];
      }
    }
    forall e | e in r
      ensures e in docs
    {
      assert e in sorted;
      assert e in multiset(sorted);
    }
    forall k | 0 <= k < |movies|
      ensures TopDoc(movies[k], votes, users, p) in r
           || forall e :: e in r ==> e.tally.score >= TopDoc(movies[k], votes, users, p).tally.score
    {
      assert docs[k] == TopDoc(movies[k], votes, users, p);
      LimitKeepsBest(docs, TopBefore, TopLimit, docs[k]);
    }
  }

  /** As written, no vote joins and no author joins: every entry has zero counts and no `addedBy`. */
  lemma TopMoviesAsWrittenUnscored(movies: seq<Movie>, votes: seq<Vote>, users: seq<User>)
    ensures forall e :: e in TopMoviesAsWritten(movies, votes, users) ==>
      e.tally == Tally(0, 0, 0) && e.addedBy.None?
  {
    TopMoviesShape(movies, votes, users, TopMoviesPaths);
    var docs := TopDocs(movies, votes, users, TopMoviesPaths);
    forall e | e in TopMoviesAsWritten(movies, votes, users)
      ensures e.tally == Tally(0, 0, 0) && e.addedBy.None?
    {
      assert e in docs;
      var k :| 0 <= k < |docs| && docs[k] == e;
      TopDocUnscored(movies[k], votes, users);
    }
  }

  lemma TopDocUnscored(m: Movie, votes: seq<Vote>, users: seq<User>)
    ensures TopDoc(m, votes, users, TopMoviesPaths).tally == Tally(0, 0, 0)
    ensures TopDoc(m, votes, users, TopMoviesPaths).addedBy.None?
  {
    JoinOnMissingField(votes, m.id, "movie_id");
    JoinFromMissingField(users);
    assert MovieField(m, "added_by").None?;
  }

  /** What top-movies says about one movie: the ledger's tally and the stored author, if any. */
  function TopEntryFor(m: Movie, votes: seq<Vote>, users: seq<User>): (e: TopEntry)
    ensures e.id == m.id && e.tally == TallyOf(votes, m.id)
    ensures e.addedBy.Some? <==> FindById(users, UserKey, m.addedBy).Some?
  {
    var a := match FindById(users, UserKey, m.addedBy) case None => None case Some(u) => Some(TopAuthor(u.id, u.name, u.email));
    TopEntry(m.id, m.title, m.description, m.images, m.genres, TallyOf(votes, m.id), a)
  }

  /** With the schema's names, every entry is a movie's entry: the ledger's tally and the stored author. */
  lemma TopMoviesCounts(movies: seq<Movie>, votes: seq<Vote>, users: seq<User>)
    requires KeysUnique(users, UserKey)
    ensures forall e :: e in TopMovies(movies, votes, users) ==>
      exists k :: 0 <= k < |movies| && e == TopEntryFor(movies[k], votes, users)
  {
    TopMoviesShape(movies, votes, users, SchemaPaths);
    var docs := TopDocs(movies, votes, users, SchemaPaths);
    forall e | e in TopMovies(movies, votes, users)
      ensures exists k :: 0 <= k < |movies| && e == TopEntryFor(movies[k], votes, users)
    {
      assert e in docs;
      var k :| 0 <= k < |docs| && docs[k] == e;
      TopDocIsEntry(movies[k], votes, users);
    }
  }

  lemma TopDocIsEntry(m: Movie, votes: seq<Vote>, users: seq<User>)
    requires KeysUnique(users, UserKey)
    ensures TopDoc(m, votes, users, SchemaPaths) == TopEntryFor(m, votes, users)
  {
    SchemaScoreIsTally(votes, m);
    JoinById(users, m.addedBy);
  }

  /**
   * `GET /admin/top-movies` as written: 200 with the pipeline joining on
   * `movie_id`, `vote_type` and `added_by`, so at most ten entries, none of
   * them with a vote counted or an author attached.
   */
  function TopMoviesReply(movies: seq<Movie>, votes: seq<Vote>, users: seq<User>): (r: Reply<seq<TopEntry>>)
    ensures r.status == 200 && r.data == Some(TopMoviesAsWritten(movies, votes, users))
    ensures |r.data.value| <= TopLimit
    ensures forall e :: e in r.data.value ==> e.tally == Tally(0, 0, 0) && e.addedBy.None?
  {
    TopMoviesShape(movies, votes, users, TopMoviesPaths);
    TopMoviesAsWrittenUnscored(movies, votes, users);
    Success(200, TopMoviesAsWritten(movies, votes, users))
  }
}
