/** End-to-end behaviour of the store: a question is asked, then one user votes on it
    three times, and every read in between reports what the voting buttons promise. */
module Scenarios {
  import opened Wrappers
  import opened Seqs
  import opened ForumTypes
  import opened VoteLedger
  import opened Aggregation
  import opened Queries
  import opened EntityStore

  /** The score `getQuestion` reports for `id`, 0 when there is no such question. */
  function ReportedScore(data: ForumData, id: string): int {
    match GetQuestion(data, id)
    case None => 0
    case Some(q) => q.score
  }

  /** Upvote, upvote again, then downvote, on a freshly asked question: the score reads
      1, 0, -1 and the voter's own vote reads upvoted, none, downvoted. */
  lemma UpvoteTwiceThenDownvote(data: ForumData, author: User, voter: User, input: CreateQuestionData,
                                qid: string, now: int, id1: string, id2: string, id3: string)
    requires FreshId(data, qid)
    ensures var d0 := CreateQuestion(data, author, input, qid, now).0;
      && ReportedScore(d0, qid) == 0
      && VotingWalk(d0, voter, qid, id1, id2, id3, now)
  {
    var (d0, q) := CreateQuestion(data, author, input, qid, now);
    assert ReportedScore(d0, qid) == 0 && GetQuestion(d0, qid).Some? by {
      CreateQuestionThenRead(data, author, input, qid, now, Latest);
    }
    assert GetUserVote(d0, voter, qid, QuestionTarget) == None;
    Walk(d0, voter, qid, id1, id2, id3, now);
  }

  /** What the three votes read back as, starting from a listed question with score 0. */
  predicate VotingWalk(d0: ForumData, voter: User, qid: string, id1: string, id2: string, id3: string, now: int) {
    var d1 := CastVote(d0, voter, qid, QuestionTarget, Upvote, id1, now).0;
    var d2 := CastVote(d1, voter, qid, QuestionTarget, Upvote, id2, now).0;
    var d3 := CastVote(d2, voter, qid, QuestionTarget, Downvote, id3, now).0;
    && GetQuestion(d1, qid).Some? && GetQuestion(d2, qid).Some? && GetQuestion(d3, qid).Some?
    && ReportedScore(d1, qid) == 1 && GetUserVote(d1, voter, qid, QuestionTarget) == Some(Upvote)
    && ReportedScore(d2, qid) == 0 && GetUserVote(d2, voter, qid, QuestionTarget) == None
    && ReportedScore(d3, qid) == -1 && GetUserVote(d3, voter, qid, QuestionTarget) == Some(Downvote)
  }

  /** The three votes, from a listed question with score 0 on which the voter has not voted. */
  lemma Walk(d0: ForumData, voter: User, qid: string, id1: string, id2: string, id3: string, now: int)
    requires GetQuestion(d0, qid).Some? && ReportedScore(d0, qid) == 0
    requires GetUserVote(d0, voter, qid, QuestionTarget) == None
    ensures VotingWalk(d0, voter, qid, id1, id2, id3, now)
  {
    var d1 := CastVote(d0, voter, qid, QuestionTarget, Upvote, id1, now).0;
    var d2 := CastVote(d1, voter, qid, QuestionTarget, Upvote, id2, now).0;
    FirstVote(d0, voter, qid, Upvote, id1, now);
    VoteStepScore(d1, voter, qid, Upvote, id2, now);
    assert d2 == d0 by {
      DoubleToggleRestores(d0.votes, VoteKey(voter.id, qid, QuestionTarget), Upvote, id1, now, id2, now);
    }
    FirstVote(d2, voter, qid, Downvote, id3, now);
  }

  /** A user's first vote on a question is recorded, and moves the score by its weight. */
  lemma FirstVote(data: ForumData, voter: User, qid: string, vt: VoteType, voteId: string, now: int)
    requires GetQuestion(data, qid).Some?
    requires GetUserVote(data, voter, qid, QuestionTarget) == None
    ensures var after := CastVote(data, voter, qid, QuestionTarget, vt, voteId, now).0;
      && GetQuestion(after, qid).Some?
      && ReportedScore(after, qid) == ReportedScore(data, qid) + Weight(vt)
      && GetUserVote(after, voter, qid, QuestionTarget) == Some(vt)
  {
    var after := CastVote(data, voter, qid, QuestionTarget, vt, voteId, now).0;
    VoteStepScore(data, voter, qid, vt, voteId, now);
    FirstIndexIs(after.votes, HasKey(VoteKey(voter.id, qid, QuestionTarget)), |data.votes|);
  }

  /** One vote on a question moves the score `getQuestion` reports by the weight of the
      voter's new state minus the weight of the old one. */
  lemma VoteStepScore(data: ForumData, voter: User, qid: string, vt: VoteType, voteId: string, now: int)
    requires GetQuestion(data, qid).Some?
    ensures var after := CastVote(data, voter, qid, QuestionTarget, vt, voteId, now).0;
      var prior := GetUserVote(data, voter, qid, QuestionTarget);
      && GetQuestion(after, qid).Some?
      && ReportedScore(after, qid) == ReportedScore(data, qid) - StateWeight(prior) + StateWeight(NextState(prior, vt))
  {
    var after := CastVote(data, voter, qid, QuestionTarget, vt, voteId, now).0;
    ToggleScore(data.votes, VoteKey(voter.id, qid, QuestionTarget), vt, voteId, now);
    assert GetQuestion(after, qid).Some?;
  }
}
