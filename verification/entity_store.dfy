/** The write side of the store besides voting: `createQuestion` and `createAnswer`
    append one record with zeroed derived fields and register the author once. The fresh
    UUID, the clock reading and the current user are parameters. */
module EntityStore {
  import opened Wrappers
  import opened Seqs
  import opened ForumTypes
  import opened Aggregation
  import opened Queries

  function HasUserId(id: string): User -> bool {
    (u: User) => u.id == id
  }

  /** No two users share an id. */
  ghost predicate UniqueUserIds(users: seq<User>) {
    forall i, j :: 0 <= i < j < |users| ==> users[i].id != users[j].id
  }

  /** "Add user to users list if not exists": append `user` unless its id is already present. */
  function RegisterUser(users: seq<User>, user: User): (r: seq<User>)
    ensures (exists i :: 0 <= i < |users| && users[i].id == user.id) ==> r == users
    ensures (forall i :: 0 <= i < |users| ==> users[i].id != user.id) ==> r == users + [user]
  {
    if FirstIndex(users, HasUserId(user.id)).Some? then users else users + [user]
  }

  /** Registration keeps user ids unique, always leaves the author registered, and is idempotent. */
  lemma RegisterUserUnique(users: seq<User>, user: User)
    ensures UniqueUserIds(users) ==> UniqueUserIds(RegisterUser(users, user))
    ensures exists i :: 0 <= i < |RegisterUser(users, user)| && RegisterUser(users, user)[i].id == user.id
    ensures RegisterUser(RegisterUser(users, user), user) == RegisterUser(users, user)
  {
    var r := RegisterUser(users, user);
    if forall i :: 0 <= i < |users| ==> users[i].id != user.id {
      assert r[|users|].id == user.id;
    }
  }

  /** `createQuestion(input)` by `user`, with `newId` and `now` standing for the generated
      UUID and timestamp. */
  function CreateQuestion(data: ForumData, user: User, input: CreateQuestionData, newId: string, now: int): (r: (ForumData, Question))
    ensures r.0.questions == data.questions + [r.1]
    ensures r.1.id == newId && r.1.createdAt == now
    ensures r.1.title == input.title && r.1.content == input.content && r.1.tags == input.tags
    ensures r.1.authorId == user.id && r.1.authorName == user.displayName && r.1.authorColor == user.color
    ensures r.1.upvotes == 0 && r.1.downvotes == 0 && r.1.score == 0 && r.1.answerCount == 0
    ensures r.0.answers == data.answers && r.0.votes == data.votes
    ensures r.0.users == RegisterUser(data.users, user)
  {
    var q := Question(newId, input.title, input.content, input.tags, user.id, user.displayName, user.color,
                      now, 0, 0, 0, 0);
    (ForumData(data.questions + [q], data.answers, data.votes, RegisterUser(data.users, user)), q)
  }

  /** Nothing in the store refers to `id` yet: the freshness a generated UUID provides. */
  ghost predicate FreshId(data: ForumData, id: string) {
    && (forall i :: 0 <= i < |data.questions| ==> data.questions[i].id != id)
    && (forall i :: 0 <= i < |data.answers| ==> data.answers[i].id != id && data.answers[i].questionId != id)
    && (forall i :: 0 <= i < |data.votes| ==> data.votes[i].targetId != id)
  }

  /** A freshly created question reads back exactly as returned: `getQuestion` finds it,
      with no votes and no answers, and it is listed by `getQuestions`. */
  lemma CreateQuestionThenRead(data: ForumData, user: User, input: CreateQuestionData, newId: string, now: int, sortBy: SortOption)
    requires FreshId(data, newId)
    ensures var (after, q) := CreateQuestion(data, user, input, newId, now);
      && GetQuestion(after, newId) == Some(q)
      && q in GetQuestions(after, sortBy)
      && |GetQuestions(after, sortBy)| == |GetQuestions(data, sortBy)| + 1
  {
    var (after, q) := CreateQuestion(data, user, input, newId, now);
    FirstIndexIs(after.questions, HasQuestionId(newId), |data.questions|);
    NoTally(data.votes, newId, QuestionTarget, Upvote);
    NoTally(data.votes, newId, QuestionTarget, Downvote);
    FilterNone(data.answers, ForQuestion(newId));
    assert GetQuestion(after, newId) == Some(q);
    GetQuestionInList(after, newId, sortBy);
  }

  /** A target nobody voted on has zero tallies. */
  lemma NoTally(votes: seq<Vote>, id: string, tt: TargetType, t: VoteType)
    requires forall i :: 0 <= i < |votes| ==> votes[i].targetId != id
    ensures Tally(votes, id, tt, t) == 0
  {
    FilterNone(votes, OnTarget(id, tt));
  }

  /** No two questions share an id. */
  ghost predicate UniqueQuestionIds(questions: seq<Question>) {
    forall i, j :: 0 <= i < j < |questions| ==> questions[i].id != questions[j].id
  }

  /** With a fresh id, creation keeps question ids and user ids unique. */
  lemma CreateQuestionKeepsUnique(data: ForumData, user: User, input: CreateQuestionData, newId: string, now: int)
    requires FreshId(data, newId)
    requires UniqueQuestionIds(data.questions) && UniqueUserIds(data.users)
    ensures UniqueQuestionIds(CreateQuestion(data, user, input, newId, now).0.questions)
    ensures UniqueUserIds(CreateQuestion(data, user, input, newId, now).0.users)
  {
    RegisterUserUnique(data.users, user);
  }

  /** `createAnswer(input)` by `user`. The question it names is not checked to exist. */
  function CreateAnswer(data: ForumData, user: User, input: CreateAnswerData, newId: string, now: int): (r: (ForumData, Answer))
    ensures r.0.answers == data.answers + [r.1]
    ensures r.1.id == newId && r.1.createdAt == now
    ensures r.1.questionId == input.questionId && r.1.content == input.content
    ensures r.1.authorId == user.id && r.1.authorName == user.displayName && r.1.authorColor == user.color
    ensures r.1.upvotes == 0 && r.1.downvotes == 0 && r.1.score == 0
    ensures r.0.questions == data.questions && r.0.votes == data.votes
    ensures r.0.users == RegisterUser(data.users, user)
  {
    var a := Answer(newId, input.questionId, input.content, user.id, user.displayName, user.color, now, 0, 0, 0);
    (ForumData(data.questions, data.answers + [a], data.votes, RegisterUser(data.users, user)), a)
  }

  /** Creating an answer raises its question's answer count by one, leaves every other
      question's count alone, and (for a fresh id) the answer is listed by `getAnswers`. */
  lemma CreateAnswerCounts(data: ForumData, user: User, input: CreateAnswerData, newId: string, now: int, questionId: string)
    requires FreshId(data, newId)
    ensures var (after, a) := CreateAnswer(data, user, input, newId, now);
      && AnswerCount(after.answers, questionId)
         == AnswerCount(data.answers, questionId) + (if questionId == input.questionId then 1 else 0)
      && a in GetAnswers(after, input.questionId)
  {
    var (after, a) := CreateAnswer(data, user, input, newId, now);
    FilterConcat(data.answers, [a], ForQuestion(questionId));
    FilterSingleton(a, ForQuestion(questionId));
    NoTally(data.votes, newId, AnswerTarget, Upvote);
    NoTally(data.votes, newId, AnswerTarget, Downvote);
    assert WithAnswerTallies(a, after.votes) == a;
    assert a in after.answers;
    GetAnswersMembers(after, input.questionId, a);
  }
}
