/**
 * `POST /movies`: the form fields of an authenticated request become a stored
 * movie. The reading pipelines of the same router (the list and the detail
 * view) are in `Scoring`; this module adds the ordering scenario of the list.
 */
module Movies {
  import opened Wrappers
  import opened Text
  import opened Schema
  import opened Store
  import opened Http
  import opened Upload
  import opened Votes
  import opened Ordering
  import opened Scoring
  import opened AuthMiddleware

  const FieldsRequiredMessage: string := "Title and description required"
  const ServerErrorMessage: string := "Server error"

  /**
   * A form field that is parsed before use (`JSON.parse` of `genres`, `parseInt` of
   * `year`): absent or empty, a value, or text the parser cannot read (`JSON.parse`
   * throws; `parseInt` gives `NaN`, which the `Number` cast then refuses).
   */
  datatype Parsed<T> = Absent | Unparsable | Parsed(value: T)

  /** The image list: the URL of the uploaded file, if there is one. */
  function ImagesFor(baseUrl: string, file: Option<string>): (r: seq<string>)
    ensures file.None? <==> r == []
    ensures file.Some? ==> r == [GetImageUrl(baseUrl, file.value)]
  {
    match file
    case None => []
    case Some(f) => [GetImageUrl(baseUrl, f)]
  }

  /** The movie document `new Movie({...})` builds, as its setters leave it. */
  function NewMovie(id: MovieId, title: string, description: string, genres: seq<string>, year: Option<int>,
                    file: Option<string>, baseUrl: string, caller: ReqUser, now: Timestamp): (m: Movie)
    ensures m.id == id && m.addedBy == caller.id && m.createdAt == now && m.year == year
    ensures m.title == Trim(title) && m.description == Trim(description)
    ensures m.images == TrimAll(ImagesFor(baseUrl, file)) && m.genres == TrimAll(genres)
  {
    NormalizeMovie(Movie(id, title, description, ImagesFor(baseUrl, file), genres, year, caller.id, now))
  }

  /** `POST /movies` after `authenticate` and the upload middleware have let the request through. */
  method AddMovie(db: Database, caller: ReqUser, title: Option<string>, description: Option<string>,
                  genres: Parsed<seq<string>>, year: Parsed<int>, file: Option<string>, baseUrl: string,
                  now: Timestamp) returns (r: Reply<Movie>)
    requires db.Valid()
    modifies db`movies, db`nextId
    ensures db.Valid()
    ensures r.status in {201, 400, 500}
    ensures r.status != 201 ==> r.data.None? && db.movies == old(db.movies) && db.nextId == old(db.nextId)
    ensures !Truthy(title) || !Truthy(description) ==> r == Failure(400, FieldsRequiredMessage, "")
    ensures Truthy(title) && Truthy(description) && (genres.Unparsable? || year.Unparsable?) ==>
      r == Failure(500, ServerErrorMessage, "")
    ensures Truthy(title) && Truthy(description) && !genres.Unparsable? && !year.Unparsable? ==>
      var m := NewMovie(old(db.nextId), title.value, description.value,
                        if genres.Parsed? then genres.value else [], if year.Parsed? then Some(year.value) else None,
                        file, baseUrl, caller, now);
      && (MovieValid(m, db.currentYear) ==> r == Success(201, m) && db.movies == old(db.movies) + [m])
      && (!MovieValid(m, db.currentYear) ==> r == Failure(500, ServerErrorMessage, ""))
  {
    if !Truthy(title) || !Truthy(description) {
      return Failure(400, FieldsRequiredMessage, "");
    }
    var images := ImagesFor(baseUrl, file);
    var parsedGenres: seq<string>;
    match genres {
      case Unparsable => return Failure(500, ServerErrorMessage, "");
      case Absent => parsedGenres := [];
      case Parsed(g) => parsedGenres := g;
    }
    var parsedYear: Option<int>;
    match year {
      case Unparsable => return Failure(500, ServerErrorMessage, "");
      case Absent => parsedYear := None;
      case Parsed(y) => parsedYear := Some(y);
    }
    var saved := db.CreateMovie(title.value, description.value, images, parsedGenres, parsedYear, caller.id, now);
    match saved {
      case Written(m) => r := Success(201, m);
      case _ => r := Failure(500, ServerErrorMessage, "");
    }
  }

  /**
   * A title of spaces passes the route's own check but not the schema, so the
   * request ends in a 500 rather than a 400.
   */
  lemma BlankTitleIsServerError(id: MovieId, title: string, description: string, genres: seq<string>,
                                year: Option<int>, file: Option<string>, baseUrl: string, caller: ReqUser,
                                now: Timestamp, currentYear: int)
    requires title != [] && forall k :: 0 <= k < |title| ==> IsSpace(title[k])
    ensures Truthy(Some(title))
    ensures !MovieValid(NewMovie(id, title, description, genres, year, file, baseUrl, caller, now), currentYear)
  {
    BlankTitleRejected(Movie(id, title, description, ImagesFor(baseUrl, file), genres, year, caller.id, now), currentYear);
  }

  /** A year the schema accepts is stored as given; one outside 1900 to five years ahead is refused. */
  lemma YearBounds(id: MovieId, title: string, description: string, genres: seq<string>, y: int,
                   file: Option<string>, baseUrl: string, caller: ReqUser, now: Timestamp, currentYear: int)
    ensures var m := NewMovie(id, title, description, genres, Some(y), file, baseUrl, caller, now);
      MovieValid(m, currentYear) ==> MinYear <= y <= currentYear + YearHorizon && m.year == Some(y)
    ensures (y < MinYear || y > currentYear + YearHorizon) ==>
      !MovieValid(NewMovie(id, title, description, genres, Some(y), file, baseUrl, caller, now), currentYear)
  {
  }

  /** Sorting three entries where the first is tied with, but older than, the second, and both outscore the third. */
  lemma SortTiedPair(e1: ListEntry, e2: ListEntry, e3: ListEntry)
    requires e1.tally.score == e2.tally.score && e2.tally.score > e3.tally.score
    requires e1.createdAt < e2.createdAt
    ensures Sort([e1, e2, e3], ListBefore) == [e2, e1, e3]
  {
    assert ListBefore(e2, e3) && !ListBefore(e1, e2) && ListBefore(e1, e3);
    SortThreeMiddle(e1, e2, e3, ListBefore);
  }

  /**
   * Three movies scored 3, 3 and 1, created one after the other: the list puts the
   * newer of the two tied movies first, then the older, then the lower score.
   */
  lemma ListOrderScenario(m1: Movie, m2: Movie, m3: Movie, votes: seq<Vote>, users: seq<User>)
    requires KeysUnique(users, UserKey)
    requires TallyOf(votes, m1.id).score == 3 && TallyOf(votes, m2.id).score == 3 && TallyOf(votes, m3.id).score == 1
    requires m1.createdAt < m2.createdAt < m3.createdAt
    ensures ListView([m1, m2, m3], votes, users)
      == [ListEntryFor(m2, votes, users), ListEntryFor(m1, votes, users), ListEntryFor(m3, votes, users)]
  {
    var movies := [m1, m2, m3];
    ListDocsAreEntries(movies, votes, users);
    var entries := ListEntries(movies, votes, users);
    assert entries == [ListEntryFor(m1, votes, users), ListEntryFor(m2, votes, users), ListEntryFor(m3, votes, users)];
    SortTiedPair(entries[0], entries[1], entries[2]);
  }

  /** Sorting three entries whose scores put the second first, the third next and the first last. */
  lemma SortByScore(e1: ListEntry, e2: ListEntry, e3: ListEntry)
    requires e2.tally.score > e3.tally.score > e1.tally.score
    ensures Sort([e1, e2, e3], ListBefore) == [e2, e3, e1]
  {
    assert ListBefore(e2, e3) && !ListBefore(e1, e2) && !ListBefore(e1, e3);
    SortThreeLast(e1, e2, e3, ListBefore);
  }

  /** Three upvotes counted one by one. */
  lemma CountThree(a: Vote, b: Vote, c: Vote, m: MovieId)
    requires a.voteType == Upvote && b.voteType == Upvote && c.voteType == Upvote
    ensures CountVotes([a, b, c], m, Downvote) == 0
    ensures CountVotes([a, b, c], m, Upvote)
      == (if a.movie == m then 1 else 0) + (if b.movie == m then 1 else 0) + (if c.movie == m then 1 else 0)
  {
    assert [a, b, c][1..] == [b, c] && [b, c][1..] == [c] && [c][1..] == [];
    assert CountVotes([c], m, Upvote) == if c.movie == m then 1 else 0;
    assert CountVotes([b, c], m, Upvote) == (if b.movie == m then 1 else 0) + CountVotes([c], m, Upvote);
    assert CountVotes([c], m, Downvote) == 0;
    assert CountVotes([b, c], m, Downvote) == 0;
  }

  /**
   * The seeded catalogue: Inception, The Matrix and Interstellar, stored in that
   * order, with two upvotes on The Matrix and one on Interstellar, list as
   * The Matrix, Interstellar, Inception, whenever they were created.
   */
  lemma SeedListOrder(inception: Movie, matrix: Movie, interstellar: Movie, john: UserId, jane: UserId,
                      v1: VoteId, v2: VoteId, v3: VoteId, now: Timestamp, users: seq<User>)
    requires KeysUnique(users, UserKey)
    requires inception.id != matrix.id && inception.id != interstellar.id && matrix.id != interstellar.id
    ensures var votes := [Vote(v1, john, matrix.id, Upvote, now), Vote(v2, jane, matrix.id, Upvote, now),
                          Vote(v3, john, interstellar.id, Upvote, now)];
      ListView([inception, matrix, interstellar], votes, users)
        == [ListEntryFor(matrix, votes, users), ListEntryFor(interstellar, votes, users), ListEntryFor(inception, votes, users)]
  {
    var votes := [Vote(v1, john, matrix.id, Upvote, now), Vote(v2, jane, matrix.id, Upvote, now),
                  Vote(v3, john, interstellar.id, Upvote, now)];
    var movies := [inception, matrix, interstellar];
    CountThree(votes[0], votes[1], votes[2], matrix.id);
    CountThree(votes[0], votes[1], votes[2], interstellar.id);
    CountThree(votes[0], votes[1], votes[2], inception.id);
    assert TallyOf(votes, matrix.id).score == 2;
    assert TallyOf(votes, interstellar.id).score == 1;
    assert TallyOf(votes, inception.id).score == 0;
    ListDocsAreEntries(movies, votes, users);
    var entries := ListEntries(movies, votes, users);
    assert entries == [ListEntryFor(inception, votes, users), ListEntryFor(matrix, votes, users), ListEntryFor(interstellar, votes, users)];
    SortByScore(entries[0], entries[1], entries[2]);
  }
}
