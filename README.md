# Movies Hub backend, modelled in Dafny

A model of the request handling of the Movies Hub backend, an Express and
MongoDB service where users sign up, add movies, vote on them and comment.
Admins can delete movies and see the ten best-scored ones. The document
store becomes one in-memory `Store.Database` object: users, movies, votes and
comments are sequence fields, object ids are natural numbers from a counter,
and timestamps are integers. Each Mongoose write (`create`, `save`,
`deleteOne`, `deleteMany`, `findByIdAndDelete`) is a method of that object. It
runs the schema's setters and validators and keeps the unique indexes, and
every write preserves the invariant `Valid()`. Mongoose applies the `trim` and
`lowercase` setters to query filters too, so `findOne({email})` looks up the
normalized email. The route handlers that write
are methods over the database. The read pipelines (`$lookup`, `$filter`,
`$size`, `$unwind`, `$project`, `$sort`, `$limit`) are functions over the
collections. bcrypt and jsonwebtoken are uninterpreted functions bundled in
`Crypto.Suite`. Their laws (`JwtSound`, `BcryptSound`) appear only as
hypotheses of the lemmas that need them.

Modules, one file each:

- `Wrappers`, `Text` and `Http`: option type, string helpers, reply shapes.
- `Schema`: documents, validators, the user document and its pre-save hook.
- `Store`: the database and its writes.
- `Crypto`: the bcrypt and jsonwebtoken suite.
- `Votes`: the vote ledger.
- `Ordering`: the sort and the limit.
- `Scoring`: the list, detail and top-movies pipelines.
- `Movies`: adding a movie.
- `Comments`: the comment routes.
- `Admin`: the admin routes.
- `AuthMiddleware`: `authenticate` and `authorizeAdmin`.
- `AuthRoutes`: signup, login, logout and `/me`.
- `Errors`: the error classes and `errorHandler`.
- `Upload`: the upload configuration.
- `UploadErrors`: the upload error callback.

## Model

| member | source | states |
|---|---|---|
| Store.FindById | src/routes/comments.ts:85 | `findById` finds a document exactly when one has the id, and what it returns has that id |
| Store.RemoveById | src/routes/comments.ts:96 | `findByIdAndDelete` drops the first document with the id and leaves the rest in order, or changes nothing |
| Store.RemoveByIdSpec | src/routes/comments.ts:96 | under the unique `_id` index a delete by id removes that document and nothing else |
| Store.Keep | src/routes/admin.ts:34-35 | `deleteMany` keeps exactly the documents whose id the filter does not select |
| Store.FindUserByEmail | src/routes/auth.ts:29 | `User.findOne({email})` returns a stored user with that email, or reports that no stored user has it |
| Store.IndexOfPair | src/db/schema.ts:146 | the position of the first vote on a (user, movie) pair; no earlier vote is on the pair |
| Store.DeleteOneVote | src/routes/votes.ts:38-41 | `Vote.deleteOne({movie, user})` drops the first vote on the pair, or nothing when the pair has none |
| Store.Database.constructor | src/db/schema.ts:186-189 | the empty collections satisfy every validator and unique index |
| Store.Database.InsertVote | src/db/schema.ts:123-146 | a type outside {1, -1} fails validation; a second vote on a pair violates the unique index; otherwise the vote is appended with a fresh id; the invariant holds afterwards |
| Store.Database.DeleteOneVoteOf | src/routes/votes.ts:38-41 | the votes become `DeleteOneVote` of the old votes and the invariant holds |
| Store.Database.CreateMovie | src/db/schema.ts:78-112 | the strings are trimmed; the movie is stored with a fresh id exactly when the title is present and at most 255 UTF-16 code units long, the description is present and the year is in range; otherwise nothing changes |
| Store.Database.FindByIdAndDeleteMovie | src/routes/admin.ts:38 | afterwards no movie has the id |
| Store.Database.DeleteManyVotes | src/routes/admin.ts:35 | the selected votes go; the pair index and id index still hold |
| Store.Database.CreateComment | src/db/schema.ts:158-180 | the body is trimmed; the comment is stored exactly when the body is non-empty and at most 2000 UTF-16 code units long |
| Store.Database.FindByIdAndDeleteComment | src/routes/comments.ts:96 | afterwards no comment has the id |
| Store.Database.DeleteManyComments | src/routes/admin.ts:34 | the selected comments go; the id index still holds |
| Store.Database.SaveUser | src/db/schema.ts:21-55 | the validators run on the plain password, whose length counts UTF-16 code units; then the hook hashes it if it was modified; then a taken email violates the unique index; otherwise the user is appended |
| Schema.NormalizeEmail | src/db/schema.ts:23-30 | a stored email is trimmed (it neither starts nor ends with white space), has no upper-case ASCII letter, and is no longer than the given one |
| Schema.NormalizeEmailIdempotent | src/db/schema.ts:23-30 | a stored email is its own trim, and running the setters on it again gives it back, so a lookup by a stored email finds it |
| Schema.DefaultRole | src/db/schema.ts:36-40 | the role defaults to `user` |
| Schema.TrimAll | src/db/schema.ts:90-97 | every image and genre string is trimmed, and none is dropped |
| Schema.MatchesEmailIsPattern | src/db/schema.ts:29 | the email check holds exactly when the text matches `^\S+@\S+\.\S+$` |
| Schema.NormalizeMovie | src/db/schema.ts:78-112 | the stored movie is the given one with every string field trimmed |
| Schema.BlankTitleRejected | src/db/schema.ts:79-84 | a title of spaces fails `required` once trimmed |
| Schema.ValidMovieBounds | src/db/schema.ts:79-102 | a stored title is trimmed, non-empty and at most 255 UTF-16 code units long; a stored year lies in [1900, currentYear + 5] |
| Schema.EmojiPasswordLongEnough | src/db/schema.ts:31-35 | a password of four characters beyond U+FFFF has JavaScript length 8 and passes `minlength: 8` |
| Schema.EmojiTitleTooLong | src/db/schema.ts:79-84 | a title of 128 characters beyond U+FFFF has JavaScript length 256 and fails `maxlength: 255` |
| Text.Utf16Length | src/db/schema.ts:31-35 | a string's JavaScript `length` lies between its number of characters and twice that |
| Text.Utf16LengthBmp | src/db/schema.ts:79-84 | within the Basic Multilingual Plane the JavaScript length is the number of characters |
| Text.Utf16LengthAstral | src/db/schema.ts:79-84 | beyond U+FFFF every character counts as two code units |
| Schema.UserDoc.constructor | src/db/schema.ts:21-46 | `new User` trims the name, normalizes the email, defaults the role and marks the password modified |
| Schema.UserDoc.HashPasswordIfModified | src/db/schema.ts:49-55 | the pre-save hook replaces the password by its hash only when it was modified |
| Schema.SaveTwice | src/db/schema.ts:49-55 | saving a new user twice stores the hash of the password, not the hash of the hash |
| Crypto.TokenPayload | src/utils/jwt.ts:9-13 | a token carries the user id under `id`, never under `userId`, and the role only when it is non-empty |
| Crypto.GenerateAuthToken | src/utils/jwt.ts:9-21 | under `JwtSound` an issued token verifies to its payload, is non-empty and holds no space |
| Votes.StoredType | src/routes/votes.ts:43-47 | `remove` stores nothing, `upvote` stores 1, and any other value, missing or unknown, stores -1 |
| Votes.VoteOf | src/routes/votes.ts:22-27 | `getVote` answers the type of a vote on the pair, or null when the pair has none |
| Votes.TallyOf | src/routes/votes.ts:51-61 | upvotes and downvotes are the counts of type 1 and type -1 votes on the movie, and score is their difference |
| Votes.DeleteOneVoteClears | src/routes/votes.ts:38-41 | after the delete the pair has no vote, every other vote is as it was, and the pair index holds |
| Votes.CastLeavesPair | src/routes/votes.ts:38-49 | after a cast the pair holds exactly the new vote, or no vote after `remove` |
| Votes.CastKeepsOtherPairs | src/routes/votes.ts:38-48 | votes on every other (user, movie) pair are unchanged, in order |
| Votes.CastPreservesIndex | src/routes/votes.ts:38-48 | a cast keeps at most one vote per pair, each of type 1 or -1 |
| Votes.GetAfterCast | src/routes/votes.ts:20-48 | `getVote` after a cast answers what the cast stored |
| Votes.CastIdempotent | src/routes/votes.ts:38-48 | repeating a cast leaves the same ballots as casting once |
| Votes.CastMovesCounts | src/routes/votes.ts:38-61 | a cast moves the movie's counts by the replaced vote and the stored vote only; other movies' counts do not move |
| Votes.GetVoteReply | src/routes/votes.ts:20-31 | 200 with the pair's vote or null; a malformed id gives 500 `Failed to get vote` |
| Votes.CastVote | src/routes/votes.ts:34-65 | the votes become the cast of the old votes and the reply is 200 with the movie's fresh tally; a malformed id gives 500 and changes nothing; the insert after clearing the pair cannot hit the unique index |
| Ordering.Insert | src/routes/movies.ts:129-131 | inserting adds exactly one document |
| Ordering.Sort | src/routes/movies.ts:129-131 | the sort returns a permutation of its input |
| Ordering.SortSorted | src/routes/movies.ts:129-131 | under a total ordering each document may come before the next |
| Ordering.SortedPairwise | src/routes/admin.ts:124 | under a transitive ordering a sorted sequence is ordered between any two positions |
| Ordering.Limit | src/routes/admin.ts:125 | `$limit` keeps the first n documents, or all when there are fewer |
| Ordering.LimitKeepsBest | src/routes/admin.ts:124-125 | sorting then limiting drops only documents that may come after every kept one |
| Scoring.JoinVotes | src/routes/movies.ts:62-66 | the join holds exactly the votes whose named field equals the key |
| Scoring.JoinUsers | src/routes/movies.ts:110-115 | the join holds exactly the users whose named field equals the key |
| Scoring.ScoreOf | src/routes/movies.ts:68-107 | score equals upvotes minus downvotes |
| Scoring.SchemaCountIsCountVotes | src/routes/movies.ts:68-87 | counting type t in the `movie` join equals the ledger's count of type t votes on the movie |
| Scoring.SchemaScoreIsTally | src/routes/movies.ts:60-107 | with the schema's field names the pipeline's tally is the ledger's tally |
| Scoring.JoinOnMissingField | src/routes/admin.ts:63-69 | a join on a field no vote has finds no vote |
| Scoring.JoinFromMissingField | src/routes/admin.ts:71-77 | a join from a field the movie lacks finds no user |
| Scoring.JoinById | src/routes/movies.ts:110-115 | under the unique `_id` index the author join finds the author or nobody |
| Scoring.ListEntryFor | src/routes/movies.ts:58-128 | a list entry carries the movie's id and createdAt, the ledger's tally, and an author exactly when one is stored |
| Scoring.ListDocsAreEntries | src/routes/movies.ts:117-122 | unwinding with `preserveNullAndEmptyArrays: true` yields exactly one entry per movie |
| Scoring.ListBeforeIsOrdering | src/routes/movies.ts:129-131 | score descending, then createdAt descending, is total and transitive |
| Scoring.ListViewSpec | src/routes/movies.ts:58-131 | the list has one entry per movie, is a permutation of the per-movie entries, and is sorted by score then createdAt, both descending |
| Scoring.ListViewKeepsEveryMovie | src/routes/movies.ts:117-122 | every stored movie is listed, including one whose author is gone |
| Scoring.ListReply | src/routes/movies.ts:134-137 | the list route answers 200 with the list |
| Scoring.DetailReply | src/routes/movies.ts:154-258 | a malformed id gives 500; an empty result gives 404 `Movie not found` `NOT_FOUND`; 200 carries the movie with the requested id |
| Scoring.DetailDocsId | src/routes/movies.ts:158-161 | the detail pipeline yields only the movie with the requested id |
| Scoring.DetailDocsFind | src/routes/movies.ts:158-233 | the detail pipeline yields nothing when the movie or its author is missing, otherwise exactly that movie with its tally and author |
| Scoring.DetailReplySpec | src/routes/movies.ts:218-241 | 404 exactly when no movie has the id or its author is gone; 200 carries the ledger's tally and the author without email, role or password |
| Scoring.TopBeforeIsOrdering | src/routes/admin.ts:124 | score descending is total and transitive |
| Scoring.TopMoviesShape | src/routes/admin.ts:62-125 | at most ten entries; one per movie while there are ten or fewer; sorted by score; no movie left out outscores one kept |
| Scoring.TopMoviesAsWrittenUnscored | src/routes/admin.ts:63-121 | with the field names as written, every entry reports zero votes and no author |
| Scoring.TopEntryFor | src/routes/admin.ts:126-140 | a top entry carries the movie's id, the ledger's tally, and an author exactly when one is stored |
| Scoring.TopMoviesCounts | src/routes/admin.ts:62-140 | with the schema's field names, every entry is one movie's entry with its real tally |
| Scoring.TopMoviesReply | src/routes/admin.ts:62-146 | the route answers 200 with the pipeline as written, joining on `movie_id`, `vote_type` and `added_by`: at most ten entries, each with zero counts and no author |
| Movies.ImagesFor | src/routes/movies.ts:27-28 | images hold the uploaded file's URL, or nothing without a file |
| Movies.NewMovie | src/routes/movies.ts:27-37 | the new movie gets the fresh id, the caller as `addedBy`, the trimmed title and description, the given year, the trimmed image URL list (`[url]` with a file, `[]` without) and the trimmed genres |
| Movies.AddMovie | src/routes/movies.ts:14-51 | a falsy title or description gives 400 and saves nothing; an unparsable field or a failed validator gives 500 and saves nothing; otherwise 201 and the movie is appended |
| Movies.BlankTitleIsServerError | src/routes/movies.ts:22-49 | a title of spaces passes the route's check but fails the schema, so the request ends in 500 |
| Movies.YearBounds | src/routes/movies.ts:35-49 | a year outside [1900, currentYear + 5] is refused; a stored year is the given one |
| Movies.SortTiedPair | src/routes/movies.ts:129-131 | of two tied entries the newer one is placed first |
| Movies.ListOrderScenario | src/routes/movies.ts:58-131 | movies scored 3, 3, 1 and created in that order are listed second, first, third |
| Movies.SortByScore | src/routes/movies.ts:129-131 | distinct scores are listed in descending order |
| Movies.CountThree | src/routes/votes.ts:51-54 | three upvotes count once each on their own movie, and none counts as a downvote |
| Movies.SeedListOrder | src/seed.ts:45-90 | the seeded votes list The Matrix, Interstellar, Inception, in that order |
| Comments.PopulateComment | src/routes/comments.ts:46 | populating keeps the comment and adds its author's name and email, or null |
| Comments.AddComment | src/routes/comments.ts:19-56 | 401 without a caller; 400 without a movie id or body; 500 for a malformed id; 404 for a missing movie; 500 for an invalid body; otherwise 201 and exactly one comment is appended; a rejection changes nothing |
| Comments.OnMovie | src/routes/comments.ts:65 | `find({movie})` returns exactly the comments on the movie |
| Comments.PopulateAll | src/routes/comments.ts:66 | one populated view per comment, in order |
| Comments.CommentsOfSpec | src/routes/comments.ts:65-67 | the list is a permutation of the movie's populated comments, sorted by createdAt ascending, with every comment of the movie and no other |
| Comments.ListCommentsReply | src/routes/comments.ts:61-74 | 200 with the movie's comments; a malformed id gives 500 |
| Comments.DeleteComment | src/routes/comments.ts:79-103 | 500 for a malformed id; 404 for a missing comment; 403 unless the caller is its author or an admin; otherwise 200 and exactly that comment is removed; a rejection changes nothing |
| Comments.ListAfterDelete | src/routes/comments.ts:61-103 | after a delete the comment is no longer listed and the movie's other comments still are |
| Admin.VotesMatching | src/routes/admin.ts:35 | the filter selects exactly the votes whose named field holds the movie id |
| Admin.CommentsMatching | src/routes/admin.ts:34 | the filter selects exactly the comments whose named field holds the movie id |
| Admin.DeleteMovie | src/routes/admin.ts:18-55 | 500 for a malformed id; 404 `NOT_FOUND` for a missing movie, changing nothing; otherwise 200, the movie is gone and the filters' selections are deleted |
| Admin.CascadeAsWrittenKeepsAll | src/routes/admin.ts:34-35 | filtering on `movie_id` selects nothing, so every vote and comment stays |
| Admin.KeepNothing | src/routes/admin.ts:34-35 | deleting an empty selection changes nothing |
| Admin.CascadeBySchemaPath | src/routes/admin.ts:34-35 | filtering on `movie` removes exactly the movie's votes and comments |
| Admin.AbsentMovieUnread | src/routes/movies.ts:154-241 | with no movie holding the id, the detail view answers 404, the list has no entry for it, and neither has the top-movies pipeline, whatever field names it joins on |
| Admin.AbsentFromList | src/routes/movies.ts:58-131 | with no movie holding the id, the list has no entry for it |
| Admin.AbsentFromTop | src/routes/admin.ts:62-146 | with no movie holding the id, the top-movies pipeline has no entry for it, whatever field names it joins on |
| Admin.DeletedMovieUnlisted | src/routes/admin.ts:38 | after the delete, the detail view answers 404 for the movie, the list has no entry for it, and neither has the top-movies pipeline as written or with the schema's names |
| AuthMiddleware.ExtractToken | src/middleware/auth.ts:23-29 | a `Bearer ` header gives its second space-separated field, and any other header or none gives the cookie |
| AuthMiddleware.BearerHeaderWins | src/middleware/auth.ts:23-25 | `Bearer <token>` yields the token whatever the cookie holds |
| AuthMiddleware.AuthenticateWith | src/middleware/auth.ts:14-56 | a missing or empty token gives 401 `No token` before verification; every other failure gives 401 `Token is not valid`; authentication succeeds exactly when the token verifies, carries an object id under the claim, and a stored user has that id, and then carries the id the claim names and the role of the stored user with that id |
| AuthMiddleware.EmptyBearerDenied | src/middleware/auth.ts:23-33 | the header `Bearer ` alone is refused before verification, even beside a valid cookie |
| AuthMiddleware.IssuedTokenRejected | src/middleware/auth.ts:36-43 | as written, every token the server issues is refused with 401 |
| AuthMiddleware.IssuedTokenAcceptedById | src/middleware/auth.ts:36-49 | reading `id`, a token issued for a stored user authenticates as that user with the stored role |
| AuthMiddleware.RoleFromStore | src/middleware/auth.ts:46-49 | the role on the request is the stored user's, not the token's |
| AuthMiddleware.AuthorizeAdmin | src/middleware/auth.ts:58-67 | passes exactly when the role is `admin`; otherwise 403 `Not authorized as admin` |
| AuthRoutes.PublicOf | src/routes/auth.ts:61-64 | the returned user has every stored field but the password |
| AuthRoutes.SaveError | src/routes/auth.ts:47-67 | a failed validator is a `ValidationError`; a unique index violation is a `MongoServerError` with code 11000 |
| AuthRoutes.CookieAfter | src/routes/auth.ts:53-58 | setting the cookie stores the token; clearing it removes it |
| AuthRoutes.Signup | src/routes/auth.ts:15-69 | a falsy field gives 400 `VALIDATION_ERROR`; a taken email gives 400 `DUPLICATE_EMAIL`; a failed validator goes to the error handler (400); the unique index is never hit; otherwise 201 with the user, role `user`, no password, and the token cookie |
| AuthRoutes.Login | src/routes/auth.ts:74-128 | 400 without email or password; the same 401 `Invalid credentials` for an unknown email or a wrong password; otherwise 200 with the user, no password, and the token cookie |
| AuthRoutes.Logout | src/routes/auth.ts:133-139 | always 200 `Logged out successfully`, and the cookie is cleared |
| AuthRoutes.Me | src/routes/auth.ts:143-155 | 200 with the caller's stored record without its password, or 404 `User not found` |
| AuthRoutes.FindAppended | src/routes/auth.ts:29 | a user appended with a fresh email is found by that email |
| AuthRoutes.SignupThenLogin | src/routes/auth.ts:15-128 | a login with the password and email (in any case, with surrounding spaces) of a signup logs in as the new user |
| AuthRoutes.LoginCookieAuthenticates | src/routes/auth.ts:109-117 | the cookie set by login authenticates with a middleware reading `id`, and is refused by the one as written |
| AuthRoutes.LogoutThenDenied | src/routes/auth.ts:133-139 | after logout a request without a header is refused for want of a token |
| Errors.NewAppError | src/middleware/errorHandler.ts:4-16 | an `AppError` keeps message, status and error code, and is operational unless told otherwise |
| Errors.NewDuplicateUserError | src/middleware/errorHandler.ts:18-25 | a `DuplicateUserError` is an operational `AppError` with status 400 and code `DUPLICATE_EMAIL` |
| Errors.AppErrorReply | src/middleware/errorHandler.ts:66-73 | an `AppError` is answered with its own status, and its type is its non-empty error code or `APP_ERROR` |
| Errors.DuplicateUserErrorIs400 | src/middleware/errorHandler.ts:18-73 | a `DuplicateUserError` is answered 400 through the `AppError` branch, never 409 |
| Errors.NameBeforeAppError | src/middleware/errorHandler.ts:39-73 | a name branch wins over the `AppError` branch |
| Errors.GenericErrorHidesMessage | src/middleware/errorHandler.ts:84-91 | an unrecognised error is a 500 that shows its message only in development |
| Errors.ErrorHandlerStatuses | src/middleware/errorHandler.ts:39-91 | every status is one of 400, 409, 401, 429, 500 or the `AppError`'s own; a plain error gets 409 exactly for a duplicate key |
| Errors.ErrorHandler | src/middleware/errorHandler.ts:27-92 | first match wins: a `ValidationError` gives 400 `VALIDATION_ERROR` with the error's message as detail; a duplicate-key driver error gives 409; an `UnauthorizedError` gives 401; otherwise an `AppError` keeps its own status and message; otherwise a `RateLimitError` gives 429 and anything else 500; no branch sends a payload |
| Upload.FileFilter | src/utils/upload.ts:30-41 | accepts exactly `image/jpeg`, `image/png` and `image/webp`; rejects the rest with the filter's message |
| Upload.ImageUrlRoundTrip | src/utils/upload.ts:52-54 | the URL of a stored file names that file |
| Upload.ImageUrlInjective | src/utils/upload.ts:52-54 | distinct files get distinct URLs |
| Upload.LastIndexOf | src/utils/upload.ts:24 | finds the last occurrence of a character, or reports none |
| Upload.StripTrailingSlashes | src/utils/upload.ts:24 | drops exactly the trailing slashes |
| Upload.BaseName | src/utils/upload.ts:24 | the last path segment holds no slash |
| Upload.ExtOfBase | src/utils/upload.ts:24 | a segment's extension is empty, or is a dot and a dot-free tail of the segment |
| Upload.ExtName | src/utils/upload.ts:24 | the extension is empty, or is a dot and a dot-free, slash-free tail of the last segment |
| Upload.ExtNameOfStemAndExt | src/utils/upload.ts:24 | a name with a non-empty stem has the extension after its last dot |
| Upload.StoredFilename | src/utils/upload.ts:24 | a stored file name starts with the fresh id |
| Upload.StoredFilenameKeepsExtension | src/utils/upload.ts:24 | a stored file has the extension of the original name |
| UploadErrors.KeywordBeforeBreakSpec | src/middleware/uploadMiddleware.ts:32 | the scan finds a keyword before any line terminator exactly when one exists |
| UploadErrors.OnlyFromSpec | src/middleware/uploadMiddleware.ts:32 | the scan finds `only` followed by a keyword exactly when one exists |
| UploadErrors.ImageTypeMessageIsPattern | src/middleware/uploadMiddleware.ts:32 | the scan decides `/only.*(jpeg\|png\|webp\|image)\|only.*image/` |
| UploadErrors.ClassifyUpload | src/middleware/uploadMiddleware.ts:13-40 | no error passes on; every error becomes an operational 400 `AppError` with one of the four messages |
| UploadErrors.CodeBeforeMessage | src/middleware/uploadMiddleware.ts:24-29 | a limit code decides the outcome whatever the message says |
| UploadErrors.MessageClassified | src/middleware/uploadMiddleware.ts:20-37 | without a limit code, the image-type error is chosen exactly when the lower-cased message matches the pattern |
| UploadErrors.OnlyJpegMatches | src/middleware/uploadMiddleware.ts:21-32 | a message opening with `Only .jpeg` matches once lower-cased |
| UploadErrors.OnlyJpegClassified | src/middleware/uploadMiddleware.ts:32-34 | such a message is the image-type error |
| UploadErrors.FilterRejectionIsTypeError | src/utils/upload.ts:39 | the file filter's own rejection becomes the image-type error |

## Left out

- Transport and wiring: Express routing, helmet, CORS, body parsing, static files, the rate limiter, the server's start-up and shutdown, and the logger. Each route is modelled as its handler, called after its middleware has let it through.
- Concurrency: every request is one sequential step. The `Promise.all` of the two counts and races between concurrent requests (the duplicate-key race on votes) are not modelled.
- Error detail text: the `error` field of a route's 500 reply depends on `NODE_ENV` and on the thrown error's message. The replies carry an empty detail instead. The error handler's own use of `NODE_ENV` is modelled.
- Parsing: `JSON.parse` of `genres` and `parseInt` of `year` are abstracted as absent, parsed, or unparsable. Unparsable goes to the 500 branch. A `genres` value that parses to something other than a list of strings is not modelled.
- Request bodies: fields are optional strings. A JSON body whose `movieId` or `body` is not a string is not modelled.
- Object ids: a malformed id in a route parameter or body is `None` or `BadId`, the cast error that leads to the 500 branch. Fresh ids come from a counter, not from ObjectId generation.
- Time: `Date.now` defaults are a `now` parameter, and the current year read when the schema loads is the database's `currentYear` constant.
- bcrypt and jsonwebtoken: hashing, salts, signing, expiry and verification are uninterpreted functions, and token expiry is a verification failure. The laws a lemma relies on are its hypotheses.
- Multer: the upload itself, the disk storage, the uuid and the size and count limits are outside the model. The callback receives the resulting error code and message, and the stored name takes the fresh id as a parameter.
- Text.Lower: lower-cases ASCII letters only. Unicode case mapping is not modelled, and the message patterns it serves are ASCII.
- Text.Trim: strips the whitespace and line terminators JavaScript's `trim` strips, as listed in `Text.IsSpace`.
- Admin.DeleteMovie: takes the cascade filter's field name as a parameter. The effect of the field as written assumes Mongoose passes an undeclared filter path to the server unchanged (`strictQuery` off). With `strictQuery` on, the path would be stripped and the filter would select every vote and comment. That setting is not visible in the code.
- Scoring.ListViewSpec: no order is claimed between entries with equal score and equal `createdAt`, because `$sort` is not stable.
- Scoring.TopMoviesShape: no order is claimed between entries with equal score.
- The `comment.populate` of a deleted author and the `$lookup` of a deleted movie author are modelled. Referential integrity between collections is not enforced by the schema and is not assumed.

## Findings

| source | as written | input that shows it | evidently intended | confidence | as-written member | corrected member |
|---|---|---|---|---|---|---|
| src/middleware/auth.ts:36-39 | `authenticate` looks the user up by the token's `userId` claim | any token from `generateAuthToken`, whose payload holds `id` and `role` and no `userId` | look the user up by `decoded.id` | not executed; follows from the payload built in src/utils/jwt.ts:10 | AuthMiddleware.IssuedTokenRejected | AuthMiddleware.IssuedTokenAcceptedById |
| src/routes/admin.ts:63-121 | top-movies joins votes on `movie_id`, counts `vote_type`, and joins the author from `added_by` | any movie with an upvote: it is reported with 0 upvotes, score 0 and no author | the schema's fields `movie`, `voteType` and `addedBy` | not executed | Scoring.TopMoviesAsWrittenUnscored | Scoring.TopMoviesCounts |
| src/routes/admin.ts:34-35 | the cascade deletes votes and comments matching `{movie_id: id}` | a movie with one vote: after the delete the vote remains, pointing at no movie | filter on `{movie: id}` | not executed; assumes `strictQuery` off | Admin.CascadeAsWrittenKeepsAll | Admin.CascadeBySchemaPath |
