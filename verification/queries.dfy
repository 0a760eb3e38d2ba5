/** The read side of the store: `getQuestions` (recompute, then stable sort by one of three
    keys), `getQuestion`, `getAnswers` (filter, recompute, sort by score) and
    `searchQuestions` (case-insensitive substring filter over the latest-first list). */
module Queries {
  import opened Wrappers
  import opened Seqs
  import opened StableSort
  import opened Text
  import opened ForumTypes
  import opened Aggregation

  /** The sort key of each option; `latest` (also the default) orders by creation time. */
  function SortKey(sortBy: SortOption): Question -> int {
    match sortBy
    case Popular => (q: Question) => q.score
    case MostAnswers => (q: Question) => q.answerCount
    case Latest => (q: Question) => q.createdAt
  }

  function AnswerScore(a: Answer): int {
    a.score
  }

  /** Every stored question with its derived fields recomputed, in storage order. */
  function TalliedQuestions(data: ForumData): (r: seq<Question>)
    ensures |r| == |data.questions|
    ensures forall i :: 0 <= i < |r| ==> QuestionCore(r[i]) == QuestionCore(data.questions[i])
    ensures forall i :: 0 <= i < |r| ==> QuestionFresh(r[i], data)
  {
    Map(data.questions, (q: Question) => WithQuestionTallies(q, data))
  }

  /** `getQuestions(sortBy)`: a permutation of the recomputed questions, ordered by the
      option's key from largest to smallest. */
  function GetQuestions(data: ForumData, sortBy: SortOption): (r: seq<Question>)
    ensures |r| == |data.questions|
    ensures multiset(r) == multiset(TalliedQuestions(data))
    ensures forall i :: 0 <= i < |r| ==> QuestionFresh(r[i], data)
    ensures sortBy == Popular ==> forall i, j :: 0 <= i < j < |r| ==> r[i].score >= r[j].score
    ensures sortBy == MostAnswers ==> forall i, j :: 0 <= i < j < |r| ==> r[i].answerCount >= r[j].answerCount
    ensures sortBy == Latest ==> forall i, j :: 0 <= i < j < |r| ==> r[i].createdAt >= r[j].createdAt
  {
    var tallied := TalliedQuestions(data);
    var r := SortDesc(tallied, SortKey(sortBy));
    PermutationKeeps(tallied, r, (q: Question) => QuestionFresh(q, data));
    SortedByOption(r, sortBy);
    r
  }

  /** What holds of every element holds of every element of a permutation. */
  lemma PermutationKeeps<T>(s: seq<T>, r: seq<T>, p: T -> bool)
    requires multiset(r) == multiset(s)
    requires forall i :: 0 <= i < |s| ==> p(s[i])
    ensures forall i :: 0 <= i < |r| ==> p(r[i])
  {
    forall i | 0 <= i < |r| ensures p(r[i]) {
      assert r[i] in multiset(s);
      var j :| 0 <= j < |s| && s[j] == r[i];
    }
  }

  /** SortedDesc under each option's key, spelled out field by field. */
  lemma SortedByOption(r: seq<Question>, sortBy: SortOption)
    requires SortedDesc(r, SortKey(sortBy))
    ensures sortBy == Popular ==> forall i, j :: 0 <= i < j < |r| ==> r[i].score >= r[j].score
    ensures sortBy == MostAnswers ==> forall i, j :: 0 <= i < j < |r| ==> r[i].answerCount >= r[j].answerCount
    ensures sortBy == Latest ==> forall i, j :: 0 <= i < j < |r| ==> r[i].createdAt >= r[j].createdAt
  {
  }

  /** Ties keep storage order: among questions sharing a key value, `getQuestions` lists
      them exactly as they are stored. */
  lemma GetQuestionsStable(data: ForumData, sortBy: SortOption, k: int)
    ensures Filter(GetQuestions(data, sortBy), KeyIs(SortKey(sortBy), k))
         == Filter(TalliedQuestions(data), KeyIs(SortKey(sortBy), k))
  {
    SortStable(TalliedQuestions(data), SortKey(sortBy), k);
  }

  /** `getQuestions` is THE stable sort: a list ordered by the key whose ties keep storage
      order can only be `getQuestions`' own result. */
  lemma GetQuestionsUnique(data: ForumData, sortBy: SortOption, t: seq<Question>)
    requires SortedDesc(t, SortKey(sortBy))
    requires forall k :: Filter(t, KeyIs(SortKey(sortBy), k)) == Filter(TalliedQuestions(data), KeyIs(SortKey(sortBy), k))
    ensures t == GetQuestions(data, sortBy)
  {
    SortDescUnique(TalliedQuestions(data), t, SortKey(sortBy));
  }

  function HasQuestionId(id: string): Question -> bool {
    (q: Question) => q.id == id
  }

  /** `getQuestion(id)`: the first stored question with that id, recomputed, or None. */
  function GetQuestion(data: ForumData, id: string): (r: Option<Question>)
    ensures r.None? <==> forall i :: 0 <= i < |data.questions| ==> data.questions[i].id != id
    ensures r.Some? ==> r.value.id == id && QuestionFresh(r.value, data)
    ensures r.Some? ==> exists i :: 0 <= i < |data.questions| && QuestionCore(data.questions[i]) == QuestionCore(r.value)
                                     && forall j :: 0 <= j < i ==> data.questions[j].id != id
  {
    match FirstIndex(data.questions, HasQuestionId(id))
    case None => None
    case Some(i) => Some(WithQuestionTallies(data.questions[i], data))
  }

  /** The single-question read agrees with the list read: what `getQuestion` returns is
      one of the entries of `getQuestions`, under every sort option. */
  lemma GetQuestionInList(data: ForumData, id: string, sortBy: SortOption)
    requires GetQuestion(data, id).Some?
    ensures GetQuestion(data, id).value in GetQuestions(data, sortBy)
  {
    var i := FirstIndex(data.questions, HasQuestionId(id)).value;
    var tallied := TalliedQuestions(data);
    assert tallied[i] == GetQuestion(data, id).value;
    assert tallied[i] in multiset(tallied);
    assert tallied[i] in multiset(GetQuestions(data, sortBy));
  }

  /** The stored answers to `questionId`, each recomputed, in storage order. */
  function TalliedAnswers(data: ForumData, questionId: string): (r: seq<Answer>)
    ensures |r| == AnswerCount(data.answers, questionId)
    ensures forall i :: 0 <= i < |r| ==> AnswerCore(r[i]) == AnswerCore(Filter(data.answers, ForQuestion(questionId))[i])
    ensures forall i :: 0 <= i < |r| ==> r[i].questionId == questionId && AnswerFresh(r[i], data.votes)
  {
    var matching := Filter(data.answers, ForQuestion(questionId));
    Map(matching, (a: Answer) => WithAnswerTallies(a, data.votes))
  }

  /** `getAnswers(questionId)`: the answers to that question, recomputed, best score first. */
  function GetAnswers(data: ForumData, questionId: string): (r: seq<Answer>)
    ensures |r| == AnswerCount(data.answers, questionId)
    ensures multiset(r) == multiset(TalliedAnswers(data, questionId))
    ensures forall i :: 0 <= i < |r| ==> r[i].questionId == questionId && AnswerFresh(r[i], data.votes)
    ensures forall i, j :: 0 <= i < j < |r| ==> r[i].score >= r[j].score
  {
    var tallied := TalliedAnswers(data, questionId);
    var r := SortDesc(tallied, AnswerScore);
    PermutationKeeps(tallied, r, (a: Answer) => a.questionId == questionId && AnswerFresh(a, data.votes));
    r
  }

  /** Completeness of `getAnswers`: every stored answer to the question is returned
      (recomputed), and nothing else is. */
  lemma GetAnswersMembers(data: ForumData, questionId: string, a: Answer)
    ensures a in data.answers && a.questionId == questionId ==> WithAnswerTallies(a, data.votes) in GetAnswers(data, questionId)
    ensures forall x :: x in GetAnswers(data, questionId) ==>
      exists b :: b in data.answers && b.questionId == questionId && x == WithAnswerTallies(b, data.votes)
  {
    var matching := Filter(data.answers, ForQuestion(questionId));
    var tallied := TalliedAnswers(data, questionId);
    var r := GetAnswers(data, questionId);
    FilterMembers(data.answers, ForQuestion(questionId));
    if a in data.answers && a.questionId == questionId {
      assert a in matching;
      var i :| 0 <= i < |matching| && matching[i] == a;
      assert tallied[i] == WithAnswerTallies(a, data.votes);
      assert tallied[i] in multiset(r);
    }
    forall x | x in r
      ensures exists b :: b in data.answers && b.questionId == questionId && x == WithAnswerTallies(b, data.votes)
    {
      assert x in multiset(tallied);
      var i :| 0 <= i < |tallied| && tallied[i] == x;
      assert matching[i] in matching;
    }
  }

  /** Ties among answers keep storage order. */
  lemma GetAnswersStable(data: ForumData, questionId: string, k: int)
    ensures Filter(GetAnswers(data, questionId), KeyIs(AnswerScore, k))
         == Filter(TalliedAnswers(data, questionId), KeyIs(AnswerScore, k))
  {
    SortStable(TalliedAnswers(data, questionId), AnswerScore, k);
  }

  /** A question's answer count is the length of its answer list. */
  lemma AnswerCountIsAnswerList(data: ForumData, sortBy: SortOption, i: nat)
    requires i < |GetQuestions(data, sortBy)|
    ensures GetQuestions(data, sortBy)[i].answerCount == |GetAnswers(data, GetQuestions(data, sortBy)[i].id)|
  {
  }

  /** The search predicate: the lower-cased term occurs in the lower-cased title, content
      or one of the tags. */
  predicate MatchesTerm(q: Question, term: string) {
    || Contains(ToLower(q.title), term)
    || Contains(ToLower(q.content), term)
    || exists i | 0 <= i < |q.tags| :: Contains(ToLower(q.tags[i]), term)
  }

  function Matching(term: string): Question -> bool {
    (q: Question) => MatchesTerm(q, term)
  }

  /** `searchQuestions(query)`: the latest-first list, filtered by the lower-cased query
      unless the query is blank. The query is lower-cased but not trimmed. */
  function SearchQuestions(data: ForumData, query: string): (r: seq<Question>)
    ensures IsBlank(query) ==> r == GetQuestions(data, Latest)
    ensures !IsBlank(query) ==> forall i :: 0 <= i < |r| ==> MatchesTerm(r[i], ToLower(query))
    ensures |r| <= |data.questions|
  {
    var base := GetQuestions(data, Latest);
    if IsBlank(query) then base else Filter(base, Matching(ToLower(query)))
  }

  /** Soundness and completeness of search: a non-blank query returns exactly the listed
      questions that match it, in the list's latest-first order. */
  lemma SearchExact(data: ForumData, query: string)
    requires !IsBlank(query)
    ensures forall q :: q in SearchQuestions(data, query) <==> q in GetQuestions(data, Latest) && MatchesTerm(q, ToLower(query))
    ensures SortedDesc(SearchQuestions(data, query), SortKey(Latest))
  {
    var base := GetQuestions(data, Latest);
    FilterMembers(base, Matching(ToLower(query)));
    FilterKeepsSorted(base, Matching(ToLower(query)), SortKey(Latest));
  }

  /** Every search result carries the derived fields the store implies, as every other
      read does. */
  lemma SearchFresh(data: ForumData, query: string)
    ensures forall i :: 0 <= i < |SearchQuestions(data, query)| ==> QuestionFresh(SearchQuestions(data, query)[i], data)
  {
    var base := GetQuestions(data, Latest);
    var r := SearchQuestions(data, query);
    if !IsBlank(query) {
      FilterMembers(base, Matching(ToLower(query)));
      forall i | 0 <= i < |r| ensures QuestionFresh(r[i], data) {
        assert r[i] in base;
      }
    }
  }

  /** Matches sharing a creation time keep the order of the `latest` list, which is
      storage order: search is a subsequence of the list it filters. */
  lemma SearchStable(data: ForumData, query: string, k: int)
    requires !IsBlank(query)
    ensures Filter(SearchQuestions(data, query), KeyIs(SortKey(Latest), k))
         == Filter(Filter(GetQuestions(data, Latest), KeyIs(SortKey(Latest), k)), Matching(ToLower(query)))
    ensures Filter(SearchQuestions(data, query), KeyIs(SortKey(Latest), k))
         == Filter(Filter(TalliedQuestions(data), KeyIs(SortKey(Latest), k)), Matching(ToLower(query)))
  {
    FilterCommute(GetQuestions(data, Latest), Matching(ToLower(query)), KeyIs(SortKey(Latest), k));
    GetQuestionsStable(data, Latest, k);
  }

  /** A filtered sorted sequence is still sorted. */
  lemma {:induction false} FilterKeepsSorted<T>(s: seq<T>, p: T -> bool, key: T -> int)
    requires SortedDesc(s, key)
    ensures SortedDesc(Filter(s, p), key)
  {
    if s != [] {
      FilterKeepsSorted(s[1..], p, key);
      FilterBound(s[1..], p, key, key(s[0]));
    }
  }

  /** Filtering keeps an upper bound on the keys. */
  lemma {:induction false} FilterBound<T>(s: seq<T>, p: T -> bool, key: T -> int, b: int)
    requires forall i :: 0 <= i < |s| ==> key(s[i]) <= b
    ensures forall i :: 0 <= i < |Filter(s, p)| ==> key(Filter(s, p)[i]) <= b
  {
    if s != [] {
      FilterBound(s[1..], p, key, b);
    }
  }

  /** Case-insensitivity: queries that lower-case alike give the same results. */
  lemma SearchCaseInsensitive(data: ForumData, q1: string, q2: string)
    requires ToLower(q1) == ToLower(q2)
    ensures SearchQuestions(data, q1) == SearchQuestions(data, q2)
  {
    ToLowerBlank(q1);
    ToLowerBlank(q2);
  }
}
