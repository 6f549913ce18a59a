/**
 * The vote ledger behind `GET /votes/:movieId` and `POST /votes/:movieId`.
 * A cast deletes the caller's vote on the movie, stores a fresh one unless the
 * request says `remove`, and recounts the movie's votes. Together with the
 * unique `{user, movie}` index this keeps at most one vote per pair.
 */
module Votes {
  import opened Wrappers
  import opened Schema
  import opened Store
  import opened Http

  datatype Tally = Tally(upvotes: nat, downvotes: nat, score: int)

  // ---------------------------------------------------------------- views of the vote collection

  /** The votes of `user` on `movie`, in stored order. */
  function PairVotes(votes: seq<Vote>, user: UserId, movie: MovieId): seq<Vote>
  {
    if votes == [] then []
    else (if OnPair(votes[0], user, movie) then [votes[0]] else []) + PairVotes(votes[1..], user, movie)
  }

  /** Every other vote, in stored order. */
  function OtherVotes(votes: seq<Vote>, user: UserId, movie: MovieId): seq<Vote>
  {
    if votes == [] then []
    else (if OnPair(votes[0], user, movie) then [] else [votes[0]]) + OtherVotes(votes[1..], user, movie)
  }

  /** `Vote.countDocuments({movie, voteType})`. */
  function CountVotes(votes: seq<Vote>, movie: MovieId, voteType: int): nat
  {
    if votes == [] then 0
    else (if votes[0].movie == movie && votes[0].voteType == voteType then 1 else 0) + CountVotes(votes[1..], movie, voteType)
  }

  /** What a vote says, without its id and timestamp. */
  datatype Ballot = Ballot(user: UserId, movie: MovieId, voteType: int)

  function Ballots(votes: seq<Vote>): (r: seq<Ballot>)
    ensures |r| == |votes|
  {
    if votes == [] then [] else [Ballot(votes[0].user, votes[0].movie, votes[0].voteType)] + Ballots(votes[1..])
  }

  // ---------------------------------------------------------------- the operations

  /**
   * The vote a request stores: nothing for `remove`, 1 for `upvote`, and -1 for any
   * other value, including a missing or unknown one.
   */
  function StoredType(voteType: Option<string>): (r: Option<int>)
    ensures r.None? <==> voteType == Some("remove")
    ensures r.Some? ==> r.value == Upvote || r.value == Downvote
    ensures r == Some(Upvote) <==> voteType == Some("upvote")
  {
    if voteType == Some("remove") then None
    else if voteType == Some("upvote") then Some(Upvote)
    else Some(Downvote)
  }

  /** `getVote`: the type of the caller's vote on the movie, or `null` (`vote?.voteType || null`). */
  function VoteOf(votes: seq<Vote>, user: UserId, movie: MovieId): (r: Option<int>)
    ensures r.Some? ==> exists k :: 0 <= k < |votes| && OnPair(votes[k], user, movie) && votes[k].voteType == r.value
    ensures r.None? && (forall v :: v in votes ==> VoteValid(v)) ==>
      forall k :: 0 <= k < |votes| ==> !OnPair(votes[k], user, movie)
  {
    match IndexOfPair(votes, user, movie)
    case None => None
    case Some(k) =>
      assert votes[k] in votes;
      if votes[k].voteType != 0 then Some(votes[k].voteType) else None
  }

  /** The vote collection after `castVote`: delete the pair's vote, then store the new one unless removing. */
  function AfterCast(votes: seq<Vote>, user: UserId, movie: MovieId, voteType: Option<string>,
                     id: VoteId, now: Timestamp): seq<Vote>
  {
    var kept := DeleteOneVote(votes, user, movie);
    match StoredType(voteType)
    case None => kept
    case Some(t) => kept + [Vote(id, user, movie, t, now)]
  }

  function TallyOf(votes: seq<Vote>, movie: MovieId): (t: Tally)
    ensures t.score == t.upvotes - t.downvotes
    ensures t.upvotes == CountVotes(votes, movie, Upvote) && t.downvotes == CountVotes(votes, movie, Downvote)
  {
    var up := CountVotes(votes, movie, Upvote);
    var down := CountVotes(votes, movie, Downvote);
    Tally(up, down, up - down)
  }

  // ---------------------------------------------------------------- algebra of the views

  lemma {:induction false} ViewsAppend(a: seq<Vote>, b: seq<Vote>, user: UserId, movie: MovieId, m: MovieId, t: int)
    ensures PairVotes(a + b, user, movie) == PairVotes(a, user, movie) + PairVotes(b, user, movie)
    ensures OtherVotes(a + b, user, movie) == OtherVotes(a, user, movie) + OtherVotes(b, user, movie)
    ensures CountVotes(a + b, m, t) == CountVotes(a, m, t) + CountVotes(b, m, t)
    ensures Ballots(a + b) == Ballots(a) + Ballots(b)
  {
    if a != [] {
      assert (a + b)[0] == a[0];
      assert (a + b)[1..] == a[1..] + b;
      ViewsAppend(a[1..], b, user, movie, m, t);
    } else {
      assert a + b == b;
    }
  }

  lemma {:induction false} NoPairVotes(votes: seq<Vote>, user: UserId, movie: MovieId)
    requires forall k :: 0 <= k < |votes| ==> !OnPair(votes[k], user, movie)
    ensures PairVotes(votes, user, movie) == []
    ensures OtherVotes(votes, user, movie) == votes
  {
    if votes != [] {
      NoPairVotes(votes[1..], user, movie);
    }
  }

  /** Splits the collection around the first vote on the pair; under the index, no other vote is on it. */
  lemma SplitAtPair(votes: seq<Vote>, user: UserId, movie: MovieId)
    requires UniqueVotePairs(votes) && IndexOfPair(votes, user, movie).Some?
    ensures var k := IndexOfPair(votes, user, movie).value;
      && votes == votes[..k] + [votes[k]] + votes[k + 1..]
      && PairVotes(votes[..k], user, movie) == [] && OtherVotes(votes[..k], user, movie) == votes[..k]
      && PairVotes(votes[k + 1..], user, movie) == [] && OtherVotes(votes[k + 1..], user, movie) == votes[k + 1..]
  {
    var k := IndexOfPair(votes, user, movie).value;
    assert votes == votes[..k] + [votes[k]] + votes[k + 1..];
    NoPairVotes(votes[..k], user, movie);
    var b := votes[k + 1..];
    forall i | 0 <= i < |b|
      ensures !OnPair(b[i], user, movie)
    {
      assert b[i] == votes[k + 1 + i];
    }
    NoPairVotes(b, user, movie);
  }

  // ---------------------------------------------------------------- what a cast does

  /** Deleting the pair's vote leaves none on the pair and every other vote as it was. */
  lemma DeleteOneVoteClears(votes: seq<Vote>, user: UserId, movie: MovieId)
    requires UniqueVotePairs(votes)
    ensures PairVotes(DeleteOneVote(votes, user, movie), user, movie) == []
    ensures OtherVotes(DeleteOneVote(votes, user, movie), user, movie) == OtherVotes(votes, user, movie)
    ensures IndexOfPair(DeleteOneVote(votes, user, movie), user, movie).None?
    ensures UniqueVotePairs(DeleteOneVote(votes, user, movie))
  {
    match IndexOfPair(votes, user, movie) {
      case None =>
        NoPairVotes(votes, user, movie);
      case Some(k) =>
        SplitAtPair(votes, user, movie);
        DeleteAt(votes, user, movie, k);
    }
  }

  lemma DeleteAt(votes: seq<Vote>, user: UserId, movie: MovieId, k: nat)
    requires UniqueVotePairs(votes) && IndexOfPair(votes, user, movie) == Some(k)
    requires votes == votes[..k] + [votes[k]] + votes[k + 1..]
    requires PairVotes(votes[..k], user, movie) == [] && OtherVotes(votes[..k], user, movie) == votes[..k]
    requires PairVotes(votes[k + 1..], user, movie) == [] && OtherVotes(votes[k + 1..], user, movie) == votes[k + 1..]
    ensures var r := votes[..k] + votes[k + 1..];
      && PairVotes(r, user, movie) == []
      && OtherVotes(r, user, movie) == OtherVotes(votes, user, movie)
      && IndexOfPair(r, user, movie).None?
      && UniqueVotePairs(r)
  {
    OthersSkipPairVote(votes[..k], votes[k], votes[k + 1..], user, movie);
    RemoveAtKeepsPairs(votes, k);
    NoneLeftOnPair(votes, user, movie, k);
  }

  lemma OthersSkipPairVote(a: seq<Vote>, x: Vote, b: seq<Vote>, user: UserId, movie: MovieId)
    requires OnPair(x, user, movie)
    requires PairVotes(a, user, movie) == [] && PairVotes(b, user, movie) == []
    ensures PairVotes(a + b, user, movie) == []
    ensures OtherVotes(a + b, user, movie) == OtherVotes(a + [x] + b, user, movie)
  {
    ViewsAppend(a, b, user, movie, x.movie, 0);
    ViewsAppend(a, [x], user, movie, x.movie, 0);
    ViewsAppend(a + [x], b, user, movie, x.movie, 0);
    assert OtherVotes([x], user, movie) == [];
  }

  lemma NoneLeftOnPair(votes: seq<Vote>, user: UserId, movie: MovieId, k: nat)
    requires UniqueVotePairs(votes) && IndexOfPair(votes, user, movie) == Some(k)
    ensures IndexOfPair(votes[..k] + votes[k + 1..], user, movie).None?
  {
    var r := votes[..k] + votes[k + 1..];
    forall i | 0 <= i < |r|
      ensures !OnPair(r[i], user, movie)
    {
      if i < k {
        assert r[i] == votes[i];
      } else {
        assert r[i] == votes[i + 1];
      }
    }
  }

  lemma RemoveAtKeepsPairs(votes: seq<Vote>, k: nat)
    requires k < |votes| && UniqueVotePairs(votes)
    ensures UniqueVotePairs(votes[..k] + votes[k + 1..])
  {
    var r := votes[..k] + votes[k + 1..];
    assert forall i :: 0 <= i < |r| ==> r[i] == if i < k then votes[i] else votes[i + 1];
  }

  /** After a cast the pair holds exactly the stored vote, or none after `remove`. */
  lemma CastLeavesPair(votes: seq<Vote>, user: UserId, movie: MovieId, voteType: Option<string>, id: VoteId, now: Timestamp)
    requires UniqueVotePairs(votes)
    ensures PairVotes(AfterCast(votes, user, movie, voteType, id, now), user, movie) ==
      match StoredType(voteType)
      case None => []
      case Some(t) => [Vote(id, user, movie, t, now)]
  {
    var kept := DeleteOneVote(votes, user, movie);
    DeleteOneVoteClears(votes, user, movie);
    if StoredType(voteType).Some? {
      ViewsAppend(kept, [Vote(id, user, movie, StoredType(voteType).value, now)], user, movie, movie, 0);
    }
  }

  /** A cast leaves every vote of every other (user, movie) pair untouched, in order. */
  lemma CastKeepsOtherPairs(votes: seq<Vote>, user: UserId, movie: MovieId, voteType: Option<string>, id: VoteId, now: Timestamp)
    requires UniqueVotePairs(votes)
    ensures OtherVotes(AfterCast(votes, user, movie, voteType, id, now), user, movie) == OtherVotes(votes, user, movie)
  {
    var kept := DeleteOneVote(votes, user, movie);
    DeleteOneVoteClears(votes, user, movie);
    if StoredType(voteType).Some? {
      ViewsAppend(kept, [Vote(id, user, movie, StoredType(voteType).value, now)], user, movie, movie, 0);
    }
  }

  /** A cast keeps the unique `{user, movie}` index: at most one vote per pair, every type 1 or -1. */
  lemma CastPreservesIndex(votes: seq<Vote>, user: UserId, movie: MovieId, voteType: Option<string>, id: VoteId, now: Timestamp)
    requires VotesOk(votes)
    ensures VotesOk(AfterCast(votes, user, movie, voteType, id, now))
  {
    DeleteOneVoteClears(votes, user, movie);
    var kept := DeleteOneVote(votes, user, movie);
    DeleteOneVoteKeepsValid(votes, user, movie);
    match StoredType(voteType)
    case None =>
    case Some(t) => AppendOffPair(kept, Vote(id, user, movie, t, now));
  }

  /** A delete only drops votes, so every kept vote passes validation. */
  lemma DeleteOneVoteKeepsValid(votes: seq<Vote>, user: UserId, movie: MovieId)
    requires forall v :: v in votes ==> VoteValid(v)
    ensures forall v :: v in DeleteOneVote(votes, user, movie) ==> VoteValid(v)
  {
    match IndexOfPair(votes, user, movie)
    case None =>
    case Some(k) =>
      assert forall v :: v in DeleteOneVote(votes, user, movie) ==> v in votes[..k] || v in votes[k + 1..];
  }

  /** Appending a vote on a pair that has none keeps one vote per pair. */
  lemma AppendOffPair(kept: seq<Vote>, v: Vote)
    requires UniqueVotePairs(kept) && IndexOfPair(kept, v.user, v.movie).None?
    ensures UniqueVotePairs(kept + [v])
  {
    var after := kept + [v];
    assert forall i :: 0 <= i < |kept| ==> after[i] == kept[i] && !OnPair(kept[i], v.user, v.movie);
  }

  /** Reading the caller's vote right after a cast gives back what the cast stored. */
  lemma GetAfterCast(votes: seq<Vote>, user: UserId, movie: MovieId, voteType: Option<string>, id: VoteId, now: Timestamp)
    requires UniqueVotePairs(votes)
    ensures VoteOf(AfterCast(votes, user, movie, voteType, id, now), user, movie) == StoredType(voteType)
  {
    var kept := DeleteOneVote(votes, user, movie);
    DeleteOneVoteClears(votes, user, movie);
    if StoredType(voteType).Some? {
      var after := kept + [Vote(id, user, movie, StoredType(voteType).value, now)];
      assert IndexOfPair(after, user, movie) == Some(|kept|) by {
        var r := IndexOfPair(after, user, movie);
        assert OnPair(after[|kept|], user, movie);
        assert forall k :: 0 <= k < |kept| ==> after[k] == kept[k];
      }
    }
  }

  /** Casting the same request twice ends in the same ballots as casting it once: a vote is replaced, not toggled. */
  lemma CastIdempotent(votes: seq<Vote>, user: UserId, movie: MovieId, voteType: Option<string>,
                       id1: VoteId, now1: Timestamp, id2: VoteId, now2: Timestamp)
    requires UniqueVotePairs(votes)
    ensures Ballots(AfterCast(AfterCast(votes, user, movie, voteType, id1, now1), user, movie, voteType, id2, now2))
         == Ballots(AfterCast(votes, user, movie, voteType, id1, now1))
  {
    var kept := DeleteOneVote(votes, user, movie);
    DeleteOneVoteClears(votes, user, movie);
    var once := AfterCast(votes, user, movie, voteType, id1, now1);
    match StoredType(voteType)
    case None =>
      assert once == kept;
    case Some(t) =>
      var v1 := Vote(id1, user, movie, t, now1);
      var v2 := Vote(id2, user, movie, t, now2);
      assert once == kept + [v1];
      DeleteAppended(kept, v1);
      ViewsAppend(kept, [v1], user, movie, movie, 0);
      ViewsAppend(kept, [v2], user, movie, movie, 0);
  }

  /** Deleting the pair's vote right after appending it to a ledger without one undoes the append. */
  lemma DeleteAppended(kept: seq<Vote>, v: Vote)
    requires IndexOfPair(kept, v.user, v.movie).None?
    ensures DeleteOneVote(kept + [v], v.user, v.movie) == kept
  {
    var once := kept + [v];
    assert IndexOfPair(once, v.user, v.movie) == Some(|kept|) by {
      assert OnPair(once[|kept|], v.user, v.movie);
      assert forall k :: 0 <= k < |kept| ==> once[k] == kept[k];
    }
    assert once[..|kept|] == kept;
  }

  /**
   * How a cast moves the movie's counts: the replaced vote, if any, stops counting and
   * the stored vote, if any, starts counting. Counts for other movies do not move.
   */
  lemma CastMovesCounts(votes: seq<Vote>, user: UserId, movie: MovieId, voteType: Option<string>,
                        id: VoteId, now: Timestamp, m: MovieId, t: int)
    requires VotesOk(votes)
    ensures var after := AfterCast(votes, user, movie, voteType, id, now);
      CountVotes(after, m, t) + (if m == movie && VoteOf(votes, user, movie) == Some(t) then 1 else 0)
      == CountVotes(votes, m, t) + (if m == movie && StoredType(voteType) == Some(t) then 1 else 0)
  {
    var kept := DeleteOneVote(votes, user, movie);
    match IndexOfPair(votes, user, movie) {
      case None =>
        assert kept == votes;
      case Some(k) =>
        SplitAtPair(votes, user, movie);
        assert votes[k] in votes;
        ViewsAppend(votes[..k], votes[k + 1..], user, movie, m, t);
        ViewsAppend(votes[..k], [votes[k]], user, movie, m, t);
        ViewsAppend(votes[..k] + [votes[k]], votes[k + 1..], user, movie, m, t);
    }
    if StoredType(voteType).Some? {
      ViewsAppend(kept, [Vote(id, user, movie, StoredType(voteType).value, now)], user, movie, m, t);
    }
  }

  // ---------------------------------------------------------------- the handlers

  /** `GET /votes/:movieId`: 200 with the caller's vote or null; a malformed id fails the query with 500. */
  function GetVoteReply(votes: seq<Vote>, caller: UserId, movieId: Option<MovieId>): (r: Reply<Option<int>>)
    ensures movieId.None? ==> r.status == 500 && r.detail == "Failed to get vote"
    ensures movieId.Some? ==> r.status == 200 && r.data == Some(VoteOf(votes, caller, movieId.value))
  {
    match movieId
    case None => Reply(500, "", "", "Failed to get vote", None)
    case Some(m) => Success(200, VoteOf(votes, caller, m))
  }

  /**
   * `POST /votes/:movieId`: delete, conditionally create, recount. The create never
   * meets the unique index (the pair's vote was just deleted), so every well-formed
   * request answers 200 with the movie's fresh tally.
   */
  method CastVote(db: Database, caller: UserId, movieId: Option<MovieId>, voteType: Option<string>, now: Timestamp)
    returns (r: Reply<Tally>)
    requires db.Valid()
    modifies db`votes, db`nextId
    ensures db.Valid()
    ensures db.users == old(db.users) && db.movies == old(db.movies) && db.comments == old(db.comments)
    ensures movieId.None? ==> r.status == 500 && r.detail == "Failed to update vote" && db.votes == old(db.votes)
    ensures movieId.Some? ==>
      && db.votes == AfterCast(old(db.votes), caller, movieId.value, voteType, old(db.nextId), now)
      && r.status == 200
      && r.data == Some(TallyOf(db.votes, movieId.value))
  {
    if movieId.None? {
      return Reply(500, "", "", "Failed to update vote", None);
    }
    var movie := movieId.value;
    DeleteOneVoteClears(db.votes, caller, movie);
    db.DeleteOneVoteOf(caller, movie);
    assert IndexOfPair(db.votes, caller, movie).None?;
    match StoredType(voteType) {
      case None =>
      case Some(t) =>
        // The pair was cleared just above, so the unique index cannot refuse this
        // insert; the handler's 500 for a duplicate only arises from concurrent
        // requests, which this sequential model does not have.
        var written := db.InsertVote(caller, movie, t, now);
        assert written.Written?;
    }
    var upvotes: int := CountVotes(db.votes, movie, Upvote);
    var downvotes: int := CountVotes(db.votes, movie, Downvote);
    r := Success(200, Tally(upvotes, downvotes, upvotes - downvotes));
  }
}
