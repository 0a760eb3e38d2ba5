/** The records of the forum: users, votes, answers, questions, and the store holding
    all four collections. Timestamps are milliseconds since the epoch (the stored ISO
    strings are only ever compared through `new Date(s).getTime()`). */
module ForumTypes {

  /** The two directions of a vote; a vote is exactly one of them. */
  datatype VoteType = Upvote | Downvote

  /** What a vote is cast on; a vote's target is exactly one of them. */
  datatype TargetType = QuestionTarget | AnswerTarget

  /** The three orderings of the question list. */
  datatype SortOption = Latest | Popular | MostAnswers

  datatype User = User(id: string, displayName: string, color: string)

  datatype Vote = Vote(
    id: string,
    userId: string,
    targetId: string,
    targetType: TargetType,
    voteType: VoteType,
    createdAt: int)

  /** `upvotes`, `downvotes` and `score` are derived: recomputed from the votes on read. */
  datatype Answer = Answer(
    id: string,
    questionId: string,
    content: string,
    authorId: string,
    authorName: string,
    authorColor: string,
    createdAt: int,
    upvotes: int,
    downvotes: int,
    score: int)

  /** `upvotes`, `downvotes`, `score` and `answerCount` are derived on read. */
  datatype Question = Question(
    id: string,
    title: string,
    content: string,
    tags: seq<string>,
    authorId: string,
    authorName: string,
    authorColor: string,
    createdAt: int,
    upvotes: int,
    downvotes: int,
    score: int,
    answerCount: int)

  /** The whole persisted store: exactly four collections. */
  datatype ForumData = ForumData(
    questions: seq<Question>,
    answers: seq<Answer>,
    votes: seq<Vote>,
    users: seq<User>)

  /** What the question form submits. */
  datatype CreateQuestionData = CreateQuestionData(title: string, content: string, tags: seq<string>)

  /** What the answer form submits. */
  datatype CreateAnswerData = CreateAnswerData(questionId: string, content: string)

  /** A question with its derived fields cleared: the part that is stored authoritatively. */
  function QuestionCore(q: Question): Question {
    q.(upvotes := 0, downvotes := 0, score := 0, answerCount := 0)
  }

  /** An answer with its derived fields cleared. */
  function AnswerCore(a: Answer): Answer {
    a.(upvotes := 0, downvotes := 0, score := 0)
  }
}
