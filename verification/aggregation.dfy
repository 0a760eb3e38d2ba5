/** Derived aggregates, recomputed from the raw records on every read: a target's
    upvotes and downvotes count the votes matching both its id and its type, its score is
    their difference, and a question's answer count is the number of answers naming it. */
module Aggregation {
  import opened Wrappers
  import opened Seqs
  import opened ForumTypes
  import opened VoteLedger

  function OnTarget(id: string, tt: TargetType): Vote -> bool {
    (v: Vote) => v.targetId == id && v.targetType == tt
  }

  function OfType(t: VoteType): Vote -> bool {
    (v: Vote) => v.voteType == t
  }

  function ForQuestion(questionId: string): Answer -> bool {
    (a: Answer) => a.questionId == questionId
  }

  /** `votes.filter(on target).filter(of type).length`. */
  function Tally(votes: seq<Vote>, id: string, tt: TargetType, t: VoteType): nat {
    |Filter(Filter(votes, OnTarget(id, tt)), OfType(t))|
  }

  /** `calculateScore`. */
  function CalculateScore(upvotes: int, downvotes: int): int {
    upvotes - downvotes
  }

  /** `answers.filter(a => a.questionId === id).length`. */
  function AnswerCount(answers: seq<Answer>, questionId: string): nat {
    |Filter(answers, ForQuestion(questionId))|
  }

  /** What a single vote contributes to its target's score. */
  function Weight(t: VoteType): int {
    match t
    case Upvote => 1
    case Downvote => -1
  }

  /** Independent reference for the score: the sum of the weights of the target's votes. */
  function NetVotes(votes: seq<Vote>, id: string, tt: TargetType): int {
    if votes == [] then 0
    else (if votes[0].targetId == id && votes[0].targetType == tt then Weight(votes[0].voteType) else 0)
         + NetVotes(votes[1..], id, tt)
  }

  /** Score identity: upvotes minus downvotes is the net weight of the target's votes. */
  lemma {:induction false} ScoreIsNetVotes(votes: seq<Vote>, id: string, tt: TargetType)
    ensures CalculateScore(Tally(votes, id, tt, Upvote), Tally(votes, id, tt, Downvote)) == NetVotes(votes, id, tt)
  {
    if votes != [] {
      ScoreIsNetVotes(votes[1..], id, tt);
      assert votes == [votes[0]] + votes[1..];
      TallyConcat([votes[0]], votes[1..], id, tt, Upvote);
      TallyConcat([votes[0]], votes[1..], id, tt, Downvote);
      TallySingle(votes[0], id, tt, Upvote);
      TallySingle(votes[0], id, tt, Downvote);
    }
  }

  lemma TallyConcat(a: seq<Vote>, b: seq<Vote>, id: string, tt: TargetType, t: VoteType)
    ensures Tally(a + b, id, tt, t) == Tally(a, id, tt, t) + Tally(b, id, tt, t)
  {
    FilterConcat(a, b, OnTarget(id, tt));
    FilterConcat(Filter(a, OnTarget(id, tt)), Filter(b, OnTarget(id, tt)), OfType(t));
  }

  lemma TallySingle(v: Vote, id: string, tt: TargetType, t: VoteType)
    ensures Tally([v], id, tt, t) == if v.targetId == id && v.targetType == tt && v.voteType == t then 1 else 0
  {
    FilterSingleton(v, OnTarget(id, tt));
    if v.targetId == id && v.targetType == tt {
      FilterSingleton(v, OfType(t));
    }
  }

  /** 1 when the state holds a vote of type `t`, else 0. */
  function Holds(state: Option<VoteType>, t: VoteType): nat {
    if state == Some(t) then 1 else 0
  }

  /** How one `vote` moves the tallies: on the voted target, the count of each type loses
      the voter's previous vote of that type and gains the new one; every other target is
      unaffected. */
  lemma {:induction false} ToggleTally(votes: seq<Vote>, key: VoteKey, vt: VoteType, voteId: string, now: int,
                                       id: string, tt: TargetType, t: VoteType)
    ensures var after := ToggleVote(votes, key, vt, voteId, now);
      var prior := LookupVote(votes, key);
      Tally(after, id, tt, t) ==
        if (id, tt) == (key.targetId, key.targetType)
        then Tally(votes, id, tt, t) - Holds(prior, t) + Holds(NextState(prior, vt), t)
        else Tally(votes, id, tt, t)
  {
    var nv := Vote(voteId, key.userId, key.targetId, key.targetType, vt, now);
    var after := ToggleVote(votes, key, vt, voteId, now);
    var onTarget := (id, tt) == (key.targetId, key.targetType);
    match FindVote(votes, key)
    case None =>
      assert after == votes + [nv];
      assert LookupVote(votes, key) == None;
      TallyConcat(votes, [nv], id, tt, t);
      TallySingle(nv, id, tt, t);
    case Some(i) =>
      var v := votes[i];
      assert KeyOf(v) == key;
      assert LookupVote(votes, key) == Some(v.voteType);
      TallySingle(v, id, tt, t);
      assert Tally([v], id, tt, t) == if onTarget then Holds(Some(v.voteType), t) else 0;
      if v.voteType == vt {
        assert after == votes[..i] + votes[i + 1..];
        TallyRemove(votes, i, id, tt, t);
      } else {
        var w := v.(voteType := vt);
        assert after == votes[i := w];
        TallyReplace(votes, i, w, id, tt, t);
        TallySingle(w, id, tt, t);
      }
  }

  /** Dropping the vote at `i` removes exactly its own contribution. */
  lemma TallyRemove(votes: seq<Vote>, i: nat, id: string, tt: TargetType, t: VoteType)
    requires i < |votes|
    ensures Tally(votes[..i] + votes[i + 1..], id, tt, t) == Tally(votes, id, tt, t) - Tally([votes[i]], id, tt, t)
  {
    assert votes == votes[..i] + [votes[i]] + votes[i + 1..];
    TallyConcat(votes[..i] + [votes[i]], votes[i + 1..], id, tt, t);
    TallyConcat(votes[..i], [votes[i]], id, tt, t);
    TallyConcat(votes[..i], votes[i + 1..], id, tt, t);
  }

  /** Replacing the vote at `i` by `w` trades its contribution for `w`'s. */
  lemma TallyReplace(votes: seq<Vote>, i: nat, w: Vote, id: string, tt: TargetType, t: VoteType)
    requires i < |votes|
    ensures Tally(votes[i := w], id, tt, t) == Tally(votes, id, tt, t) - Tally([votes[i]], id, tt, t) + Tally([w], id, tt, t)
  {
    assert votes[i := w] == votes[..i] + [w] + votes[i + 1..];
    TallyRemove(votes, i, id, tt, t);
    TallyConcat(votes[..i] + [w], votes[i + 1..], id, tt, t);
    TallyConcat(votes[..i], [w], id, tt, t);
    TallyConcat(votes[..i], votes[i + 1..], id, tt, t);
  }

  /** Score form of ToggleTally: the target's score moves by the weight of the new state
      minus the weight of the old one. */
  lemma ToggleScore(votes: seq<Vote>, key: VoteKey, vt: VoteType, voteId: string, now: int)
    ensures var after := ToggleVote(votes, key, vt, voteId, now);
      var prior := LookupVote(votes, key);
      var next := NextState(prior, vt);
      CalculateScore(Tally(after, key.targetId, key.targetType, Upvote), Tally(after, key.targetId, key.targetType, Downvote))
      == CalculateScore(Tally(votes, key.targetId, key.targetType, Upvote), Tally(votes, key.targetId, key.targetType, Downvote))
         - StateWeight(prior) + StateWeight(next)
  {
    ToggleTally(votes, key, vt, voteId, now, key.targetId, key.targetType, Upvote);
    ToggleTally(votes, key, vt, voteId, now, key.targetId, key.targetType, Downvote);
  }

  function StateWeight(state: Option<VoteType>): int {
    match state
    case None => 0
    case Some(t) => Weight(t)
  }

  /** A question whose derived fields agree with the store. */
  predicate QuestionFresh(q: Question, data: ForumData) {
    && q.upvotes == Tally(data.votes, q.id, QuestionTarget, Upvote)
    && q.downvotes == Tally(data.votes, q.id, QuestionTarget, Downvote)
    && q.score == q.upvotes - q.downvotes
    && q.answerCount == AnswerCount(data.answers, q.id)
  }

  /** An answer whose derived fields agree with the votes. */
  predicate AnswerFresh(a: Answer, votes: seq<Vote>) {
    && a.upvotes == Tally(votes, a.id, AnswerTarget, Upvote)
    && a.downvotes == Tally(votes, a.id, AnswerTarget, Downvote)
    && a.score == a.upvotes - a.downvotes
  }

  /** The per-question recomputation done by `getQuestions` and `getQuestion`: the stored
      record is kept and every derived field is overwritten with the store's current value. */
  function WithQuestionTallies(q: Question, data: ForumData): (r: Question)
    ensures QuestionCore(r) == QuestionCore(q)
    ensures QuestionFresh(r, data)
  {
    var up := Tally(data.votes, q.id, QuestionTarget, Upvote);
    var down := Tally(data.votes, q.id, QuestionTarget, Downvote);
    q.(upvotes := up, downvotes := down, score := CalculateScore(up, down),
       answerCount := AnswerCount(data.answers, q.id))
  }

  /** The per-answer recomputation done by `getAnswers`. */
  function WithAnswerTallies(a: Answer, votes: seq<Vote>): (r: Answer)
    ensures AnswerCore(r) == AnswerCore(a)
    ensures AnswerFresh(r, votes)
  {
    var up := Tally(votes, a.id, AnswerTarget, Upvote);
    var down := Tally(votes, a.id, AnswerTarget, Downvote);
    a.(upvotes := up, downvotes := down, score := CalculateScore(up, down))
  }

  /** Recomputation is a view: what it returns depends only on the stored part of the record. */
  lemma TalliesIgnoreStaleFields(q1: Question, q2: Question, data: ForumData)
    requires QuestionCore(q1) == QuestionCore(q2)
    ensures WithQuestionTallies(q1, data) == WithQuestionTallies(q2, data)
  {
    assert q1.id == QuestionCore(q1).id;
    assert q2.id == QuestionCore(q2).id;
  }
}
