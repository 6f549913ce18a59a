/**
 * The four Mongoose schemas (users, movies, votes, comments): the documents,
 * the setters applied on assignment (trim, lowercase), the field validators,
 * the unique indexes, and the password hook that runs before a save.
 */
module Schema {
  import opened Wrappers
  import opened Text

  /** Object ids are opaque: only equality matters. */
  type UserId = nat
  type MovieId = nat
  type VoteId = nat
  type CommentId = nat
  /** `Date.now()` in milliseconds. */
  type Timestamp = int

  const RoleUser: string := "user"
  const RoleAdmin: string := "admin"
  const MaxTitleLength: nat := 255
  const MaxCommentLength: nat := 2000
  const MinPasswordLength: nat := 8
  const MinYear: int := 1900
  /** A year may lie at most this many years after the year the server started. */
  const YearHorizon: int := 5
  const Upvote: int := 1
  const Downvote: int := -1

  datatype User = User(id: UserId, name: string, email: string, password: string, role: string, createdAt: Timestamp)

  datatype Movie = Movie(
    id: MovieId, title: string, description: string, images: seq<string>, genres: seq<string>,
    year: Option<int>, addedBy: UserId, createdAt: Timestamp)

  datatype Vote = Vote(id: VoteId, user: UserId, movie: MovieId, voteType: int, createdAt: Timestamp)

  datatype Comment = Comment(
    id: CommentId, user: UserId, movie: MovieId, body: string, createdAt: Timestamp, updatedAt: Option<Timestamp>)

  // ---------------------------------------------------------------- setters

  /** The email setters: `trim: true` and `lowercase: true`. */
  function NormalizeEmail(email: string): (r: string)
    ensures |r| <= |email|
    ensures forall k :: 0 <= k < |r| ==> !('A' <= r[k] <= 'Z')
    ensures Trimmed(r)
  {
    LowerOfTrimmed(Trim(email));
    Lower(Trim(email))
  }

  /** A normalized email is its own trim, so normalizing it again changes nothing. */
  lemma NormalizeEmailIdempotent(email: string)
    ensures Trim(NormalizeEmail(email)) == NormalizeEmail(email)
    ensures NormalizeEmail(NormalizeEmail(email)) == NormalizeEmail(email)
  {
    var r := NormalizeEmail(email);
    TrimmedFixed(r);
    assert Lower(r) == r;
  }

  /** `role` falls back to `user` when the document does not set it. */
  function DefaultRole(role: Option<string>): (r: string)
    ensures role.None? ==> r == RoleUser
    ensures role.Some? ==> r == role.value
  {
    role.GetOr(RoleUser)
  }

  function TrimAll(s: seq<string>): (r: seq<string>)
    ensures |r| == |s| && forall k :: 0 <= k < |s| ==> r[k] == Trim(s[k])
  {
    seq(|s|, k requires 0 <= k < |s| => Trim(s[k]))
  }

  // ---------------------------------------------------------------- email pattern

  /** `/^\S+@\S+\.\S+$/` read as a regular expression: non-blank text, an `@`, non-blank text, a `.`, non-blank text. */
  ghost predicate EmailPattern(s: string)
  {
    && NoSpace(s)
    && exists i, j :: 1 <= i && i + 2 <= j && j + 2 <= |s| && s[i] == '@' && s[j] == '.'
  }

  /** The first index at or after `from` that holds `c`. */
  function IndexFrom(s: string, c: char, from: nat): (r: Option<nat>)
    decreases |s| - from
    ensures r.Some? ==> from <= r.value < |s| && s[r.value] == c
    ensures r.Some? ==> forall k :: from <= k < r.value ==> s[k] != c
    ensures r.None? ==> forall k :: from <= k < |s| ==> s[k] != c
  {
    if from >= |s| then None
    else if s[from] == c then Some(from)
    else IndexFrom(s, c, from + 1)
  }

  /** A single left-to-right scan deciding the email pattern: take the first `@` after the first character. */
  predicate MatchesEmail(s: string)
  {
    && NoSpace(s)
    && match IndexFrom(s, '@', 1)
       case None => false
       case Some(at) =>
         match IndexFrom(s, '.', at + 2)
         case None => false
         case Some(dot) => dot + 2 <= |s|
  }

  /** The scan accepts exactly the strings the regular expression matches. */
  lemma MatchesEmailIsPattern(s: string)
    ensures MatchesEmail(s) <==> EmailPattern(s)
  {
    if EmailPattern(s) {
      var i, j :| 1 <= i && i + 2 <= j && j + 2 <= |s| && s[i] == '@' && s[j] == '.';
      var at := IndexFrom(s, '@', 1);
      assert at.Some? && at.value <= i;
      var dot := IndexFrom(s, '.', at.value + 2);
      assert dot.Some? && dot.value <= j;
    }
    if MatchesEmail(s) {
      var at := IndexFrom(s, '@', 1).value;
      var dot := IndexFrom(s, '.', at + 2).value;
      assert s[at] == '@' && s[dot] == '.';
    }
  }

  // ---------------------------------------------------------------- validators

  /**
   * The user validators, applied after the setters: name and email required, email
   * shaped, password of at least 8 UTF-16 code units, known role.
   */
  predicate UserFieldsValid(name: string, email: string, password: string, role: string)
  {
    && name != ""
    && email != "" && MatchesEmail(email)
    && Utf16Length(password) >= MinPasswordLength
    && (role == RoleUser || role == RoleAdmin)
  }

  /** Title and description required, title of at most 255 UTF-16 code units, year in [1900, currentYear + 5] when set. */
  predicate MovieValid(m: Movie, currentYear: int)
  {
    && m.title != "" && Utf16Length(m.title) <= MaxTitleLength
    && m.description != ""
    && (m.year.Some? ==> MinYear <= m.year.value <= currentYear + YearHorizon)
  }

  /** `voteType` is one of the enum values 1 and -1. */
  predicate VoteValid(v: Vote)
  {
    v.voteType == Upvote || v.voteType == Downvote
  }

  /** A comment body is required and has at most 2000 UTF-16 code units. */
  predicate CommentValid(c: Comment)
  {
    c.body != "" && Utf16Length(c.body) <= MaxCommentLength
  }

  /** The movie document as stored: every string field trimmed. */
  function NormalizeMovie(m: Movie): (r: Movie)
    ensures r.id == m.id && r.year == m.year && r.addedBy == m.addedBy && r.createdAt == m.createdAt
    ensures r.title == Trim(m.title) && r.description == Trim(m.description)
    ensures r.images == TrimAll(m.images) && r.genres == TrimAll(m.genres)
  {
    m.(title := Trim(m.title), description := Trim(m.description),
       images := TrimAll(m.images), genres := TrimAll(m.genres))
  }

  /** A title that is blank once trimmed fails `required`, whatever its length before trimming. */
  lemma BlankTitleRejected(m: Movie, currentYear: int)
    requires forall k :: 0 <= k < |m.title| ==> IsSpace(m.title[k])
    ensures !MovieValid(NormalizeMovie(m), currentYear)
  {
    TrimBlank(m.title);
  }

  /** A stored movie's title is trimmed and has between 1 and 255 UTF-16 code units; its year, when set, is in range. */
  lemma ValidMovieBounds(m: Movie, currentYear: int)
    requires MovieValid(NormalizeMovie(m), currentYear)
    ensures 1 <= |Trim(m.title)| <= Utf16Length(Trim(m.title)) <= MaxTitleLength
    ensures Trim(Trim(m.title)) == Trim(m.title)
    ensures m.year.Some? ==> MinYear <= m.year.value <= currentYear + YearHorizon
  {
    TrimIdempotent(m.title);
  }

  /** Four emoji are four characters but eight code units, so they meet `minlength: 8`. */
  lemma EmojiPasswordLongEnough(name: string, email: string)
    requires name != "" && MatchesEmail(email)
    ensures var password := "\U{1F600}\U{1F600}\U{1F600}\U{1F600}";
      |password| < MinPasswordLength && Utf16Length(password) == MinPasswordLength
      && UserFieldsValid(name, email, password, RoleUser)
  {
    Utf16LengthAstral("\U{1F600}\U{1F600}\U{1F600}\U{1F600}");
  }

  /** A title of 128 emoji is under 255 characters but 256 code units, so `maxlength: 255` refuses it. */
  lemma EmojiTitleTooLong(m: Movie, currentYear: int)
    requires |m.title| == 128 && forall k :: 0 <= k < |m.title| ==> m.title[k] == '\U{1F600}'
    ensures |m.title| <= MaxTitleLength
    ensures !MovieValid(NormalizeMovie(m), currentYear)
  {
    assert !IsSpace(m.title[0]) && !IsSpace(m.title[|m.title| - 1]);
    TrimmedFixed(m.title);
    Utf16LengthAstral(m.title);
    assert Utf16Length(NormalizeMovie(m).title) == 256;
  }

  // ---------------------------------------------------------------- unique indexes

  /** The compound index `{user: 1, movie: 1}` with `unique: true`. */
  ghost predicate UniqueVotePairs(votes: seq<Vote>)
  {
    forall i, j :: 0 <= i < j < |votes| ==> votes[i].user != votes[j].user || votes[i].movie != votes[j].movie
  }

  /** `email` is declared `unique: true`. */
  ghost predicate UniqueEmails(users: seq<User>)
  {
    forall i, j :: 0 <= i < j < |users| ==> users[i].email != users[j].email
  }

  // ---------------------------------------------------------------- the password hook

  /** A user document in memory, between `new User(...)` and the end of `save()`. */
  class UserDoc {
    var name: string
    var email: string
    var password: string
    var role: string
    /** What `isModified('password')` answers. */
    var passwordModified: bool

    /** `new User({name, email, password, role})`: the setters run and every path given counts as modified. */
    constructor (name: string, email: string, password: string, role: Option<string>)
      ensures this.name == Trim(name) && this.email == NormalizeEmail(email)
      ensures this.password == password && this.role == DefaultRole(role)
      ensures passwordModified
    {
      this.name := Trim(name);
      this.email := NormalizeEmail(email);
      this.password := password;
      this.role := DefaultRole(role);
      passwordModified := true;
    }

    /** The `pre('save')` hook: replaces the password by its hash only when the password was modified. */
    method HashPasswordIfModified(hash: string -> string)
      modifies this`password
      ensures password == if passwordModified then hash(old(password)) else old(password)
    {
      if passwordModified {
        password := hash(password);
      }
    }

    /** After a successful save no path counts as modified any more. */
    method MarkSaved()
      modifies this`passwordModified
      ensures !passwordModified
    {
      passwordModified := false;
    }
  }

  /** Saving a new user twice hashes the password once: the second save sees it unmodified. */
  method SaveTwice(name: string, email: string, password: string, hash: string -> string) returns (stored: string)
    ensures stored == hash(password)
  {
    var doc := new UserDoc(name, email, password, None);
    doc.HashPasswordIfModified(hash);
    doc.MarkSaved();
    doc.HashPasswordIfModified(hash);
    stored := doc.password;
  }
}
