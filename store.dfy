/**
 * The document store behind the Mongoose models, as four in-memory
 * collections. `Database.Valid()` holds what the schemas guarantee of every
 * stored document: the field validators passed, object ids are fresh and
 * distinct, and the unique indexes (`email`; `{user, movie}` on votes) hold.
 * The methods are the model operations the routes call: `create`/`save`
 * (setters, then validators, then the pre-save hook, then the unique index),
 * `findById`, `deleteOne`, `findByIdAndDelete` and `deleteMany`.
 */
module Store {
  import opened Wrappers
  import opened Text
  import opened Schema

  // ---------------------------------------------------------------- keys and queries

  function UserKey(u: User): nat { u.id }
  function MovieKey(m: Movie): nat { m.id }
  function VoteKey(v: Vote): nat { v.id }
  function CommentKey(c: Comment): nat { c.id }

  ghost predicate KeysBelow<T>(s: seq<T>, key: T -> nat, bound: nat)
  {
    forall i :: 0 <= i < |s| ==> key(s[i]) < bound
  }

  ghost predicate KeysUnique<T>(s: seq<T>, key: T -> nat)
  {
    forall i, j :: 0 <= i < j < |s| ==> key(s[i]) != key(s[j])
  }

  /** The position of the first document whose `_id` is `id`. */
  function IndexOfKey<T>(s: seq<T>, key: T -> nat, id: nat): (r: Option<nat>)
    ensures r.Some? ==> r.value < |s| && key(s[r.value]) == id
    ensures r.Some? ==> forall k :: 0 <= k < r.value ==> key(s[k]) != id
    ensures r.None? ==> forall k :: 0 <= k < |s| ==> key(s[k]) != id
  {
    if s == [] then None
    else if key(s[0]) == id then Some(0)
    else match IndexOfKey(s[1..], key, id)
      case None => None
      case Some(k) => Some(k + 1)
  }

  /** `Model.findById(id)`. */
  function FindById<T>(s: seq<T>, key: T -> nat, id: nat): (r: Option<T>)
    ensures r.Some? <==> exists k :: 0 <= k < |s| && key(s[k]) == id
    ensures r.Some? ==> r.value in s && key(r.value) == id
  {
    match IndexOfKey(s, key, id)
    case None => None
    case Some(k) => Some(s[k])
  }

  /** `Model.findByIdAndDelete(id)`: drops the first document with that `_id`. */
  function RemoveById<T>(s: seq<T>, key: T -> nat, id: nat): (r: seq<T>)
    ensures IndexOfKey(s, key, id).None? ==> r == s
    ensures IndexOfKey(s, key, id).Some? ==>
      var k := IndexOfKey(s, key, id).value; r == s[..k] + s[k + 1..]
  {
    match IndexOfKey(s, key, id)
    case None => s
    case Some(k) => s[..k] + s[k + 1..]
  }

  /** `Model.deleteMany(filter)` where the filter selects the documents whose `_id` is in `drop`. */
  function Keep<T(!new)>(s: seq<T>, key: T -> nat, drop: set<nat>): (r: seq<T>)
    ensures |r| <= |s|
    ensures forall x :: x in r <==> x in s && key(x) !in drop
  {
    if s == [] then []
    else if key(s[0]) in drop then Keep(s[1..], key, drop)
    else [s[0]] + Keep(s[1..], key, drop)
  }

  /** `User.findOne({email})`; the query passes through the same trim/lowercase setters as the field. */
  function FindUserByEmail(users: seq<User>, email: string): (r: Option<User>)
    ensures r.Some? ==> r.value in users && r.value.email == email
    ensures r.None? ==> forall u :: u in users ==> u.email != email
  {
    if users == [] then None
    else if users[0].email == email then Some(users[0])
    else FindUserByEmail(users[1..], email)
  }

  predicate OnPair(v: Vote, user: UserId, movie: MovieId)
  {
    v.user == user && v.movie == movie
  }

  /** The position of the first vote of `user` on `movie`. */
  function IndexOfPair(votes: seq<Vote>, user: UserId, movie: MovieId): (r: Option<nat>)
    ensures r.Some? ==> r.value < |votes| && OnPair(votes[r.value], user, movie)
    ensures r.Some? ==> forall k :: 0 <= k < r.value ==> !OnPair(votes[k], user, movie)
    ensures r.None? ==> forall k :: 0 <= k < |votes| ==> !OnPair(votes[k], user, movie)
  {
    if votes == [] then None
    else if OnPair(votes[0], user, movie) then Some(0)
    else match IndexOfPair(votes[1..], user, movie)
      case None => None
      case Some(k) => Some(k + 1)
  }

  /** `Vote.deleteOne({movie, user})`: drops the first vote on the pair, if any. */
  function DeleteOneVote(votes: seq<Vote>, user: UserId, movie: MovieId): (r: seq<Vote>)
    ensures IndexOfPair(votes, user, movie).None? ==> r == votes
    ensures IndexOfPair(votes, user, movie).Some? ==>
      var k := IndexOfPair(votes, user, movie).value; r == votes[..k] + votes[k + 1..]
  {
    match IndexOfPair(votes, user, movie)
    case None => votes
    case Some(k) => votes[..k] + votes[k + 1..]
  }

  // ---------------------------------------------------------------- invariant helpers

  lemma AppendFresh<T>(s: seq<T>, key: T -> nat, bound: nat, x: T)
    requires KeysBelow(s, key, bound) && KeysUnique(s, key) && key(x) == bound
    ensures KeysBelow(s + [x], key, bound + 1) && KeysUnique(s + [x], key)
  {
  }

  lemma RemoveAtKeeps<T>(s: seq<T>, key: T -> nat, bound: nat, k: nat)
    requires k < |s| && KeysBelow(s, key, bound) && KeysUnique(s, key)
    ensures KeysBelow(s[..k] + s[k + 1..], key, bound) && KeysUnique(s[..k] + s[k + 1..], key)
    ensures forall x :: x in s[..k] + s[k + 1..] ==> key(x) != key(s[k])
  {
    var r := s[..k] + s[k + 1..];
    assert forall i :: 0 <= i < |r| ==> r[i] == if i < k then s[i] else s[i + 1];
  }

  /** Removing one vote keeps one vote per pair and every vote valid. */
  lemma RemoveAtVotesOk(votes: seq<Vote>, k: nat)
    requires k < |votes| && VotesOk(votes)
    ensures VotesOk(votes[..k] + votes[k + 1..])
  {
    var r := votes[..k] + votes[k + 1..];
    assert forall i :: 0 <= i < |r| ==> r[i] == if i < k then votes[i] else votes[i + 1];
  }

  lemma RemoveByIdUnique<T>(s: seq<T>, key: T -> nat, id: nat)
    requires KeysUnique(s, key)
    ensures KeysUnique(RemoveById(s, key, id), key)
  {
    match IndexOfKey(s, key, id)
    case None =>
    case Some(k) =>
      var r := s[..k] + s[k + 1..];
      assert forall i :: 0 <= i < |r| ==> r[i] == if i < k then s[i] else s[i + 1];
  }

  /** Under unique ids a document is determined by its id. */
  lemma SameKeySame<T>(s: seq<T>, key: T -> nat, x: T, y: T)
    requires KeysUnique(s, key) && x in s && y in s && key(x) == key(y)
    ensures x == y
  {
    var i :| 0 <= i < |s| && s[i] == x;
    var j :| 0 <= j < |s| && s[j] == y;
    assert !(i < j) && !(j < i);
  }

  /** Under unique ids, deleting by id removes the document with that id and nothing else. */
  lemma RemoveByIdSpec<T(!new)>(s: seq<T>, key: T -> nat, id: nat)
    requires KeysUnique(s, key)
    ensures forall x :: x in RemoveById(s, key, id) <==> x in s && key(x) != id
  {
    match IndexOfKey(s, key, id)
    case None =>
    case Some(k) =>
      var r := s[..k] + s[k + 1..];
      assert forall i :: 0 <= i < |r| ==> r[i] == if i < k then s[i] else s[i + 1];
      forall x | x in s && key(x) != id
        ensures x in r
      {
        var j :| 0 <= j < |s| && s[j] == x;
        if j < k {
          assert r[j] == x;
        } else {
          assert r[j - 1] == x;
        }
      }
  }

  lemma {:induction false} KeepKeeps<T(!new)>(s: seq<T>, key: T -> nat, bound: nat, drop: set<nat>)
    requires KeysBelow(s, key, bound) && KeysUnique(s, key)
    ensures KeysBelow(Keep(s, key, drop), key, bound) && KeysUnique(Keep(s, key, drop), key)
  {
    if s != [] {
      KeepKeeps(s[1..], key, bound, drop);
      var rest := Keep(s[1..], key, drop);
      if key(s[0]) !in drop {
        HeadKeyFresh(s, key);
        ConsKeeps(s[0], rest, key, bound);
      }
    }
  }

  /** Under unique keys no later document shares the first one's key. */
  lemma HeadKeyFresh<T>(s: seq<T>, key: T -> nat)
    requires s != [] && KeysUnique(s, key)
    ensures forall x :: x in s[1..] ==> key(x) != key(s[0])
  {
    forall x | x in s[1..]
      ensures key(x) != key(s[0])
    {
      var j :| 0 <= j < |s[1..]| && s[1..][j] == x;
      assert s[j + 1] == x;
    }
  }

  /** Putting a document with a fresh key below the bound in front keeps both key properties. */
  lemma ConsKeeps<T>(x: T, rest: seq<T>, key: T -> nat, bound: nat)
    requires KeysBelow(rest, key, bound) && KeysUnique(rest, key) && key(x) < bound
    requires forall y :: y in rest ==> key(y) != key(x)
    ensures KeysBelow([x] + rest, key, bound) && KeysUnique([x] + rest, key)
  {
    var s := [x] + rest;
    assert forall i :: 1 <= i < |s| ==> s[i] == rest[i - 1];
    forall i | 1 <= i < |s|
      ensures key(s[i]) != key(x)
    {
      assert s[i] in rest;
    }
  }

  lemma {:induction false} KeepPreservesPairs(votes: seq<Vote>, drop: set<nat>)
    requires UniqueVotePairs(votes)
    ensures UniqueVotePairs(Keep(votes, VoteKey, drop))
  {
    if votes != [] {
      KeepPreservesPairs(votes[1..], drop);
      var rest := Keep(votes[1..], VoteKey, drop);
      if votes[0].id !in drop {
        forall i | 0 <= i < |rest|
          ensures rest[i].user != votes[0].user || rest[i].movie != votes[0].movie
        {
          assert rest[i] in votes[1..];
          var j :| 0 <= j < |votes[1..]| && votes[1..][j] == rest[i];
          assert votes[j + 1] == rest[i];
        }
      }
    }
  }

  // ---------------------------------------------------------------- what every stored document satisfies

  ghost predicate StoredUser(u: User)
  {
    u.name != "" && u.email != "" && MatchesEmail(u.email) && (u.role == RoleUser || u.role == RoleAdmin)
  }

  ghost predicate UsersOk(users: seq<User>, bound: nat)
  {
    && KeysBelow(users, UserKey, bound) && KeysUnique(users, UserKey)
    && UniqueEmails(users)
    && forall u :: u in users ==> StoredUser(u)
  }

  ghost predicate MoviesOk(movies: seq<Movie>, bound: nat, currentYear: int)
  {
    && KeysBelow(movies, MovieKey, bound) && KeysUnique(movies, MovieKey)
    && forall m :: m in movies ==> MovieValid(m, currentYear)
  }

  ghost predicate VotesOk(votes: seq<Vote>)
  {
    UniqueVotePairs(votes) && forall v :: v in votes ==> VoteValid(v)
  }

  ghost predicate CommentsOk(comments: seq<Comment>, bound: nat)
  {
    && KeysBelow(comments, CommentKey, bound) && KeysUnique(comments, CommentKey)
    && forall c :: c in comments ==> CommentValid(c)
  }

  /** Handing out an id leaves every other collection's ids below the counter. */
  lemma RaiseBound(users: seq<User>, movies: seq<Movie>, votes: seq<Vote>, bound: nat, currentYear: int)
    requires UsersOk(users, bound) && MoviesOk(movies, bound, currentYear) && KeysBelow(votes, VoteKey, bound)
    ensures UsersOk(users, bound + 1) && MoviesOk(movies, bound + 1, currentYear) && KeysBelow(votes, VoteKey, bound + 1)
  {
  }

  /** A valid comment with the counter's id keeps the comments' invariant under the next counter. */
  lemma AppendComment(comments: seq<Comment>, bound: nat, c: Comment)
    requires CommentsOk(comments, bound) && c.id == bound && CommentValid(c)
    ensures CommentsOk(comments + [c], bound + 1)
  {
    AppendFresh(comments, CommentKey, bound, c);
  }

  /** What a write reports: the stored document, a validator failure, or a unique-index violation (E11000). */
  datatype WriteResult<T> = Written(doc: T) | ValidationFailed | DuplicateKey

  class Database {
    var users: seq<User>
    var movies: seq<Movie>
    var votes: seq<Vote>
    var comments: seq<Comment>
    /** The object id the next insert receives; every stored id is below it. */
    var nextId: nat
    /** `new Date().getFullYear()` when the schema module was loaded. */
    const currentYear: int

    ghost predicate Valid()
      reads this
    {
      && UsersOk(users, nextId)
      && MoviesOk(movies, nextId, currentYear)
      && VotesOk(votes) && KeysBelow(votes, VoteKey, nextId) && KeysUnique(votes, VoteKey)
      && CommentsOk(comments, nextId)
    }

    constructor (currentYear: int)
      ensures Valid() && this.currentYear == currentYear
      ensures users == [] && movies == [] && votes == [] && comments == []
    {
      this.currentYear := currentYear;
      users, movies, votes, comments := [], [], [], [];
      nextId := 0;
    }

    /** `Vote.create({movie, user, voteType})`: validators, then the `{user, movie}` unique index. */
    method InsertVote(user: UserId, movie: MovieId, voteType: int, now: Timestamp) returns (r: WriteResult<Vote>)
      requires Valid()
      modifies this`votes, this`nextId
      ensures Valid()
      ensures voteType != Upvote && voteType != Downvote ==> r == ValidationFailed
      ensures r.ValidationFailed? || r.DuplicateKey? ==> votes == old(votes) && nextId == old(nextId)
      ensures (voteType == Upvote || voteType == Downvote) && IndexOfPair(old(votes), user, movie).Some? ==> r == DuplicateKey
      ensures (voteType == Upvote || voteType == Downvote) && IndexOfPair(old(votes), user, movie).None? ==>
        && r == Written(Vote(old(nextId), user, movie, voteType, now))
        && votes == old(votes) + [r.doc] && nextId == old(nextId) + 1
    {
      var v := Vote(nextId, user, movie, voteType, now);
      if !VoteValid(v) {
        return ValidationFailed;
      }
      if IndexOfPair(votes, user, movie).Some? {
        return DuplicateKey;
      }
      AppendFresh(votes, VoteKey, nextId, v);
      votes := votes + [v];
      nextId := nextId + 1;
      r := Written(v);
    }

    /** `Vote.deleteOne({movie, user})`. */
    method DeleteOneVoteOf(user: UserId, movie: MovieId)
      requires Valid()
      modifies this`votes
      ensures Valid()
      ensures votes == DeleteOneVote(old(votes), user, movie)
    {
      match IndexOfPair(votes, user, movie)
      case None =>
      case Some(k) =>
        RemoveAtKeeps(votes, VoteKey, nextId, k);
        RemoveAtVotesOk(votes, k);
        votes := votes[..k] + votes[k + 1..];
    }

    /** `new Movie({...}).save()`: the setters trim the strings, then the validators run. */
    method CreateMovie(title: string, description: string, images: seq<string>, genres: seq<string>,
                       year: Option<int>, addedBy: UserId, now: Timestamp) returns (r: WriteResult<Movie>)
      requires Valid()
      modifies this`movies, this`nextId
      ensures Valid()
      ensures var m := NormalizeMovie(Movie(old(nextId), title, description, images, genres, year, addedBy, now));
        && (!MovieValid(m, currentYear) ==> r == ValidationFailed && movies == old(movies) && nextId == old(nextId))
        && (MovieValid(m, currentYear) ==> r == Written(m) && movies == old(movies) + [m] && nextId == old(nextId) + 1)
    {
      var m := NormalizeMovie(Movie(nextId, title, description, images, genres, year, addedBy, now));
      if !MovieValid(m, currentYear) {
        return ValidationFailed;
      }
      AppendFresh(movies, MovieKey, nextId, m);
      movies := movies + [m];
      nextId := nextId + 1;
      r := Written(m);
    }

    /** `Movie.findByIdAndDelete(id)`. */
    method FindByIdAndDeleteMovie(id: MovieId)
      requires Valid()
      modifies this`movies
      ensures Valid()
      ensures movies == RemoveById(old(movies), MovieKey, id)
      ensures forall m :: m in movies ==> m.id != id
    {
      match IndexOfKey(movies, MovieKey, id)
      case None =>
      case Some(k) =>
        RemoveAtKeeps(movies, MovieKey, nextId, k);
        movies := movies[..k] + movies[k + 1..];
    }

    /** `Vote.deleteMany(filter)` for a filter that selects the votes whose ids are in `drop`. */
    method DeleteManyVotes(drop: set<VoteId>)
      requires Valid()
      modifies this`votes
      ensures Valid()
      ensures votes == Keep(old(votes), VoteKey, drop)
    {
      KeepPreservesPairs(votes, drop);
      KeepKeeps(votes, VoteKey, nextId, drop);
      votes := Keep(votes, VoteKey, drop);
    }

    /** `Comment.create({user, movie, body})`: the body is trimmed, then validated. */
    method CreateComment(user: UserId, movie: MovieId, body: string, now: Timestamp) returns (r: WriteResult<Comment>)
      requires Valid()
      modifies this`comments, this`nextId
      ensures Valid()
      ensures var c := Comment(old(nextId), user, movie, Trim(body), now, None);
        && (!CommentValid(c) ==> r == ValidationFailed && comments == old(comments) && nextId == old(nextId))
        && (CommentValid(c) ==> r == Written(c) && comments == old(comments) + [c] && nextId == old(nextId) + 1)
    {
      var c := Comment(nextId, user, movie, Trim(body), now, None);
      if !CommentValid(c) {
        return ValidationFailed;
      }
      AppendComment(comments, nextId, c);
      RaiseBound(users, movies, votes, nextId, currentYear);
      comments := comments + [c];
      nextId := nextId + 1;
      r := Written(c);
    }

    /** `Comment.findByIdAndDelete(id)`. */
    method FindByIdAndDeleteComment(id: CommentId)
      requires Valid()
      modifies this`comments
      ensures Valid()
      ensures comments == RemoveById(old(comments), CommentKey, id)
      ensures forall c :: c in comments ==> c.id != id
    {
      match IndexOfKey(comments, CommentKey, id)
      case None =>
      case Some(k) =>
        RemoveAtKeeps(comments, CommentKey, nextId, k);
        comments := comments[..k] + comments[k + 1..];
    }

    /** `Comment.deleteMany(filter)` for a filter that selects the comments whose ids are in `drop`. */
    method DeleteManyComments(drop: set<CommentId>)
      requires Valid()
      modifies this`comments
      ensures Valid()
      ensures comments == Keep(old(comments), CommentKey, drop)
    {
      KeepKeeps(comments, CommentKey, nextId, drop);
      comments := Keep(comments, CommentKey, drop);
    }

    /**
     * `user.save()` for a new user document: the validators run on the plain password,
     * then the pre-save hook hashes it, then the unique `email` index is checked.
     */
    method SaveUser(doc: UserDoc, hash: string -> string, now: Timestamp) returns (r: WriteResult<User>)
      requires Valid()
      modifies this`users, this`nextId, doc`password
      ensures Valid()
      ensures !UserFieldsValid(old(doc.name), old(doc.email), old(doc.password), old(doc.role)) ==>
        r == ValidationFailed && users == old(users) && nextId == old(nextId)
      ensures UserFieldsValid(old(doc.name), old(doc.email), old(doc.password), old(doc.role)) ==>
        var hashed := if old(doc.passwordModified) then hash(old(doc.password)) else old(doc.password);
        && (FindUserByEmail(old(users), old(doc.email)).Some? ==> r == DuplicateKey && users == old(users) && nextId == old(nextId))
        && (FindUserByEmail(old(users), old(doc.email)).None? ==>
              && r == Written(User(old(nextId), old(doc.name), old(doc.email), hashed, old(doc.role), now))
              && users == old(users) + [r.doc] && nextId == old(nextId) + 1)
    {
      if !UserFieldsValid(doc.name, doc.email, doc.password, doc.role) {
        return ValidationFailed;
      }
      doc.HashPasswordIfModified(hash);
      if FindUserByEmail(users, doc.email).Some? {
        return DuplicateKey;
      }
      var u := User(nextId, doc.name, doc.email, doc.password, doc.role, now);
      AppendFresh(users, UserKey, nextId, u);
      users := users + [u];
      nextId := nextId + 1;
      r := Written(u);
    }
  }
}
