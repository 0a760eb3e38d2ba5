# Anonymous Q&A forum: store, ranking and form rules in Dafny

This project models the core of a browser-only anonymous question-and-answer forum.
The forum keeps everything in one `ForumData` blob holding four lists: questions,
answers, votes and users. Every read recomputes the vote tallies, scores and answer
counts from those lists. It then ranks the questions by a stable sort on one of three
keys. Voting is a three-state toggle per (user, target id, target type). Each user
gets a deterministic "Anonymous User #NNNN" name derived from a 32-bit hash of their
id. The ask and answer forms validate their fields and submit trimmed text. The
question and answer cards show relative times, truncated previews and answer-count
labels.

The store is a value. Each storage operation is a pure function from store to store
and/or result. The current user, generated UUIDs and clock readings are parameters.

Modules:

- `Wrappers`, `Seqs`, `StableSort`, `Text`: building blocks.
  - `Option`.
  - `filter`, `find`/`findIndex`, `slice`, `map`.
  - A stable descending sort, standing for `Array.prototype.sort` with a `b.k - a.k`
    comparator.
  - Strings as JavaScript sees them: `length`, `substring` and `charCodeAt` work on
    UTF-16 code units, so a character beyond U+10000 counts as two.
  - `trim` over the ECMAScript white-space set, ASCII `toLowerCase`, `includes`,
    `split`/join, decimal `toString`, `padStart`.
- `ForumTypes`: the records and closed enums of `src/types/forum.ts`.
- `VoteLedger`, `Aggregation`, `Queries`, `EntityStore`, `Identity`: the storage
  module `src/lib/forum-storage.ts`.
- `FormRules`, `QuestionForm`, `AnswerForm`, `Cards`: the pure rules inside the
  components.
- `Scenarios`: a question is asked, then voted on three times by one user.

The store enforces none of the following, and the model keeps it that way:

- `createAnswer` does not check that the named question exists.
- `vote` accepts a target id that names nothing.
- The title, content and tag limits are enforced only by the forms, never by the store, so `EntityStore.CreateQuestion` accepts any input.

## Model

| member | source | states |
|---|---|---|
| VoteLedger.ToggleVote | src/lib/forum-storage.ts:209-234 | With no vote under the key, exactly one vote with the voter, target, type, id and time is appended. Repeating the current type deletes the first vote under the key, and only it. The other type rewrites the type of the first vote under the key, in place, and changes nothing else |
| VoteLedger.LookupVote | src/lib/forum-storage.ts:210-212 | No result exactly when no vote carries the (user, target id, target type) key. Otherwise the result is the type of a vote with that key; on a ledger with unique keys, of the vote with that key |
| VoteLedger.ToggleNextState | src/lib/forum-storage.ts:214-234 | On a ledger with unique keys, the lookup after a vote follows the toggle table: none becomes the type, the same type becomes none, the other type becomes the new one |
| VoteLedger.ToggleFrame | src/lib/forum-storage.ts:209-234 | A vote leaves the lookup under every other key unchanged |
| VoteLedger.ToggleKeepsUnique | src/lib/forum-storage.ts:209-234 | Every vote keeps "at most one vote per (user, target id, target type)" |
| VoteLedger.DoubleToggleRestores | src/lib/forum-storage.ts:214-218 | Two identical votes cast from "none" give back exactly the ledger they started from |
| VoteLedger.CastVote | src/lib/forum-storage.ts:205-238 | `vote` always returns true, changes only the vote list, and toggles under the caller's own key |
| VoteLedger.GetUserVote | src/lib/forum-storage.ts:240-249 | null exactly when the user has no vote on that target id and type. Otherwise the type of the first stored vote by that user on that target; on a ledger with unique keys, of the user's only vote on it |
| VoteLedger.CastVoteThenGetUserVote | src/lib/forum-storage.ts:205-249 | After `vote`, `getUserVote` reports the toggle table's next state for the voter's key. It is unchanged for every other user or target, and key uniqueness is kept |
| Aggregation.ScoreIsNetVotes | src/lib/forum-storage.ts:87-89 | upvotes − downvotes equals the net weight of the target's votes (+1 per upvote, −1 per downvote), defined independently by recursion over the list |
| Aggregation.ToggleTally | src/lib/forum-storage.ts:97-99 | One vote moves the voted target's count of each type by the old state out and the new state in. Every other target's counts do not move |
| Aggregation.ToggleScore | src/lib/forum-storage.ts:214-234 | One vote moves the target's score by the weight of the voter's new state minus the weight of the old one |
| Aggregation.WithQuestionTallies | src/lib/forum-storage.ts:96-101 | The recomputed question keeps its stored fields. Its upvotes and downvotes count the votes matching both target id and target type "question"; score is their difference; answerCount counts answers with its id |
| Aggregation.WithAnswerTallies | src/lib/forum-storage.ts:136-141 | The recomputed answer keeps its stored fields, and its counts and score come from the votes on it as an answer |
| Aggregation.TalliesIgnoreStaleFields | src/lib/forum-storage.ts:96-102 | Whatever derived values a stored question carries, the recomputed question is the same |
| Queries.TalliedQuestions | src/lib/forum-storage.ts:93-102 | One recomputed question per stored question, in storage order, with its stored fields intact |
| Queries.GetQuestions | src/lib/forum-storage.ts:91-114 | A permutation of the recomputed questions. It is ordered by non-increasing score for `popular`, answerCount for `most-answers`, and createdAt for `latest`; every entry's derived fields agree with the store |
| Queries.GetQuestionsStable | src/lib/forum-storage.ts:105-113 | Questions sharing a key value appear in storage order |
| Queries.GetQuestionsUnique | src/lib/forum-storage.ts:105-113 | Any list that is ordered by the key and keeps ties in storage order is `getQuestions`' result, so ordering plus stability determine it |
| Queries.GetQuestion | src/lib/forum-storage.ts:116-129 | null exactly when no stored question has the id. Otherwise it is the first stored question with that id, with freshly computed tallies and answer count |
| Queries.GetQuestionInList | src/lib/forum-storage.ts:116-129 | What `getQuestion` returns is an entry of `getQuestions` under every sort option |
| Queries.TalliedAnswers | src/lib/forum-storage.ts:133-141 | Entry i is the i-th stored answer to the question with its stored fields intact and its tallies recomputed; there are as many as its answer count |
| Queries.GetAnswers | src/lib/forum-storage.ts:131-145 | A permutation of the recomputed answers to the question, as many as its answer count, all with that questionId, by non-increasing score |
| Queries.GetAnswersMembers | src/lib/forum-storage.ts:133-141 | Every stored answer to the question is returned (recomputed), and every returned answer is one of them |
| Queries.GetAnswersStable | src/lib/forum-storage.ts:144 | Answers with equal scores keep storage order |
| Queries.AnswerCountIsAnswerList | src/lib/forum-storage.ts:101 | A listed question's answerCount is the length of its `getAnswers` list |
| Queries.SearchQuestions | src/lib/forum-storage.ts:251-260 | A whitespace-only query returns the `latest` list unchanged. Otherwise every result matches the lower-cased query in the title, the content or a tag |
| Queries.SearchExact | src/lib/forum-storage.ts:255-260 | For a non-blank query, a question is returned exactly when it is listed and matches, and the results stay newest-first |
| Queries.SearchFresh | src/lib/forum-storage.ts:251-260 | Every search result's tallies, score and answer count agree with the store |
| Queries.SearchStable | src/lib/forum-storage.ts:255-260 | For a non-blank query, matches with the same creation time keep the order of the `latest` list, which is their storage order |
| Queries.SearchCaseInsensitive | src/lib/forum-storage.ts:255 | Queries that lower-case alike return the same results |
| EntityStore.RegisterUser | src/lib/forum-storage.ts:168-171 | The user is appended exactly when no registered user has that id; otherwise the list is unchanged |
| EntityStore.RegisterUserUnique | src/lib/forum-storage.ts:168-171 | Registration keeps user ids unique, leaves the author registered, and registering twice is registering once |
| EntityStore.CreateQuestion | src/lib/forum-storage.ts:147-175 | Exactly one question is appended, carrying the input, the author's id, name and colour, the new id and time, and zero upvotes, downvotes, score and answers. Answers and votes are untouched and the author is registered |
| EntityStore.CreateQuestionThenRead | src/lib/forum-storage.ts:147-175 | With a fresh id, `getQuestion` returns the created question exactly, and `getQuestions` lists it and grows by one |
| EntityStore.CreateQuestionKeepsUnique | src/lib/forum-storage.ts:151-171 | With a fresh id, question ids and user ids stay unique |
| EntityStore.CreateAnswer | src/lib/forum-storage.ts:177-203 | Exactly one answer is appended, with the input, the author, the new id and time, and zero counts. Questions and votes are untouched and the author is registered |
| EntityStore.CreateAnswerCounts | src/lib/forum-storage.ts:177-203 | The answer count of the named question rises by one, and every other count stays the same. With a fresh id, the new answer is in `getAnswers` |
| Identity.HashStepTimes31 | src/lib/forum-storage.ts:29-32 | `((a << 5) - a) + code`, truncated to 32 bits, is 31·a + code reduced to a signed 32-bit value |
| Identity.Hash | src/lib/forum-storage.ts:29-32 | The reduced hash is a signed 32-bit integer, folded from 0 over the id's UTF-16 code units |
| Identity.HashAppend | src/lib/forum-storage.ts:29-32 | One more character below U+10000 makes the hash 31 times the old one plus its code, as a signed 32-bit value; a wider character takes one such step per surrogate |
| Identity.AnonymousNumber | src/lib/forum-storage.ts:33 | `Math.abs(hash) % 9999 + 1` lies in 1..9999 |
| Identity.GenerateAnonymousName | src/lib/forum-storage.ts:27-35 | "Anonymous User #" followed by exactly four decimal digits, which read back as the user's number in 1..9999 |
| Identity.NewUser | src/lib/forum-storage.ts:49-55 | A new identity has the generated id, the name derived from it, and a colour from the ten-colour palette |
| Seqs.FirstIndex | src/lib/forum-storage.ts:210-212 | `findIndex` returns the first index whose element satisfies the predicate, and −1 (None) exactly when none does |
| StableSort.SortDesc | src/lib/forum-storage.ts:107 | `sort` with a `b.k - a.k` comparator returns a permutation of its input with non-increasing keys |
| StableSort.SortStable | src/lib/forum-storage.ts:107 | The sort keeps, for each key value, the elements with that key in their input order |
| Text.NatToStringParses | src/lib/forum-storage.ts:34 | `toString` of a non-negative integer reads back as that integer |
| Scenarios.UpvoteTwiceThenDownvote | src/lib/forum-storage.ts:205-249 | On a freshly asked question, one user's upvote, repeated upvote and downvote make `getQuestion` report scores 1, 0, −1, and make `getUserVote` report upvote, none, downvote |
| Scenarios.VoteStepScore | src/lib/forum-storage.ts:116-129 | After one vote, the score `getQuestion` reports moves by the weight of the voter's new state minus the old one |
| Scenarios.FirstVote | src/lib/forum-storage.ts:223-234 | A user's first vote on a question is recorded under their key and moves the score by its weight |
| FormRules.LengthRule | src/components/QuestionForm.tsx:27-33 | No error exactly when the text is not blank after trimming and its raw length, in UTF-16 code units, is within bounds. Otherwise "required" when blank, else "too short" below the minimum, else "too long" above the maximum |
| FormRules.ClearError | src/components/QuestionForm.tsx:86-92 | A field's entry is deleted when its message is non-empty. Every other entry is kept with its message, and no entry is added |
| QuestionForm.ValidateForm | src/components/QuestionForm.tsx:24-49 | The result is true exactly when no error is recorded. The keys are among title, content and tags. The title's entry is the first failing message of blank, under 10, over 300; the content's of blank, under 20, over 5000; the tags' entry is set exactly for raw tag text over 500. Lengths count UTF-16 code units |
| QuestionForm.ParseTags | src/components/QuestionForm.tsx:61-65 | A prefix of the trimmed, non-empty comma-separated pieces: all of them when there are at most five, exactly the first five otherwise |
| QuestionForm.ParseTagsWellFormed | src/components/QuestionForm.tsx:61-65 | Every parsed tag is non-empty, has no leading or trailing white space and contains no comma |
| QuestionForm.ParseTagsFromPieces | src/components/QuestionForm.tsx:61-63 | The pieces join back into the raw text with commas, and each tag is the trim of one piece |
| QuestionForm.ParseTagsSingle | src/components/QuestionForm.tsx:61-65 | Comma-free, non-blank tag text becomes exactly one tag, its trim |
| QuestionForm.Submit | src/components/QuestionForm.tsx:51-71 | Nothing is submitted unless validation passes. Otherwise the trimmed title (non-empty, at most 300 code units), the trimmed content (non-empty, at most 5000) and the parsed tags are submitted |
| QuestionForm.PaddedTitleSubmittedShort | src/components/QuestionForm.tsx:29-68 | Nine spaces and "x" pass the raw-length title check, yet the submitted trimmed title is just "x", one code unit long |
| QuestionForm.WideTitleLongEnough | src/components/QuestionForm.tsx:29 | Five emoji pass the 10-character title minimum, since `length` counts each as two code units |
| QuestionForm.HandleInputChange | src/components/QuestionForm.tsx:83-93 | The edited field takes the new value and the other fields keep theirs. Only that field's error is cleared, and only when one is shown; otherwise the error record is returned unchanged |
| AnswerForm.ValidateForm | src/components/AnswerForm.tsx:22-35 | True exactly when the content is not blank and its raw length, in UTF-16 code units, is 20..5000. Otherwise the only error is the content message for the first failing check |
| AnswerForm.SameRuleAsQuestionContent | src/components/AnswerForm.tsx:25-30 | An answer is accepted exactly when the same text passes as a question's content |
| AnswerForm.Submit | src/components/AnswerForm.tsx:37-50 | Nothing is submitted unless validation passes. Otherwise the trimmed, non-empty content is submitted for the form's question |
| AnswerForm.HandleContentChange | src/components/AnswerForm.tsx:64-74 | The content takes the new value, and only a shown content error is cleared; otherwise the error record is returned unchanged |
| Cards.FormatTimeAgo | src/components/QuestionCard.tsx:24-37 | "just now" exactly under one minute; the calendar date exactly from thirty days on |
| Cards.FormatTimeAgoReadsBack | src/components/QuestionCard.tsx:27-35 | Between one minute and thirty days the label is "<n>m/h/d ago", with n in 1..59, 1..23 or 1..29. n whole units never exceed the elapsed time, and n + 1 units do |
| Cards.MinutesAgo | src/components/AnswerCard.tsx:20-25 | From one minute up to an hour, the answer card's label is the whole minutes elapsed, "<m>m ago" |
| Cards.HoursAgo | src/components/AnswerCard.tsx:21-26 | From one hour up to a day, the label is the whole hours elapsed, "<h>h ago" |
| Cards.DaysAgo | src/components/AnswerCard.tsx:22-27 | From one day up to thirty, the label is the whole days elapsed, "<d>d ago" |
| Cards.TruncateContent | src/components/QuestionCard.tsx:39-42 | Content within the limit, in UTF-16 code units, is unchanged. Longer content becomes its first maxLength code units and "...", exactly maxLength + 3 units long |
| Cards.TruncateUnchanged | src/components/QuestionCard.tsx:39-42 | The preview equals the content exactly when nothing was cut, or when the cut tail is itself "..." |
| Cards.ReadMoreWhenCut | src/components/QuestionCard.tsx:81-93 | "Read more" shows for content over 200 UTF-16 code units, and then the displayed body is the first 200 units and "...". Otherwise the whole content is displayed |
| Cards.ReadMoreOnFullyShown | src/components/QuestionCard.tsx:83-86 | 200 characters followed by "..." show "Read more" although the preview displays all of the content |
| Cards.PreviewSplitsSurrogatePair | src/components/QuestionCard.tsx:39-42 | When an emoji straddles the 200th code unit, the preview keeps its high surrogate alone before "..." |
| Cards.AnswerCountLabel | src/components/QuestionCard.tsx:136-138 | "No answers" exactly for 0, "1 answer" exactly for 1, "<n> answers" from 2 on |
| Cards.AnswerCountLabelInjective | src/components/QuestionCard.tsx:136-138 | Different counts give different labels, and a plural label's number reads back as the count |

The records of `src/types/forum.ts` are the datatypes of `ForumTypes`. The closed unions
become enums with exactly the listed cases, and `ForumData` holds exactly four lists.
`score` on both records is documented as upvotes − downvotes; `Aggregation.QuestionFresh`
and `Aggregation.AnswerFresh` state that identity. `GetQuestions`, `GetQuestion`, `TalliedQuestions`, `GetAnswers`, `TalliedAnswers` and `SearchFresh` (for search) ensure it of every result.

## Left out

- Persistence: `localStorage`, JSON (de)serialisation and the server-rendering branches of `getCurrentUser` and the blob loader are I/O. The store is a value passed in and returned.
- `getCurrentUser`: only the creation of a new identity is modelled (`Identity.NewUser`). Reading back a stored user and the fixed server-rendering user are I/O.
- Randomness and the clock: `crypto.randomUUID`, the `Math.random` colour index and `new Date()` are parameters. `createdAt` is an integer millisecond time instead of an ISO string; an unparsable date (NaN) is not modelled.
- `Queries.GetQuestions`: the sort option is a closed enum, so the `default` branch for strings outside the union is not modelled. It coincides with `latest`.
- Concurrency: interleaved read-modify-write of the blob by several tabs is not modelled. Calls are sequential.
- Failures in the forms: the `general` error set when `addQuestion`/`addAnswer` throws, the `isSubmitting` flag, navigation and the clearing of the answer box after success are React state and I/O.
- React glue: the context provider, pages, the sort dropdown and the vote buttons are presentation. The vote buttons' only rule is a sign-to-colour choice.
- Text.ToLower: only ASCII letters are lower-cased, so search is case-insensitive for ASCII only. `toLowerCase` maps all of Unicode.
- Cards.FormatTimeAgo: the calendar-date branch (`toLocaleDateString`) is locale-dependent, so its text is left abstract as `CalendarDate`.
- Unpaired surrogates in input: model strings are sequences of Unicode scalar values, so text holding a lone surrogate, which a JavaScript string can, is not modelled. Lengths, the hash and the card preview are computed on the UTF-16 code units of that text, and the preview, which can cut a pair in half, is itself a code-unit sequence.
