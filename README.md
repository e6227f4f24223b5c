# Avto: a verified model of the driving-quiz core

Avto is an Android driving-theory app. Its core is small and deterministic once the clock and the
random source are made explicit. This project models that core in Dafny and proves what it does:

- **the quiz session** (`TestViewModel`), a class holding one `TestUiState` snapshot and a start
  time, changed by `loadTest`, `selectAnswer`, `nextQuestion` and `restartTest`;
- **scoring** (`TestResult`), the integer percentage and the 80 percent pass mark;
- **the question store** (`QuestionRepositoryImpl`), six categories and thirty questions, where
  retrieval filters by category, shuffles and takes at most `limit`; and the use case
  `GetTestQuestionsUseCase`, which always asks for ten;
- **the canned instructor chat** (`AIChatScreen`), made of the keyword table of `getAIResponse` and
  the screen state that the launch greeting, the text field and the send button update.

Modules: `Wrappers` (Option, Result), `Domain` (Category, Question), `TestResults`,
`Shuffling` (the model of `shuffled()`), `QuestionRepository`, `TestQuestions`,
`TestSession` and `AIChat`.

The model makes these choices:

- **Randomness.** `shuffled()` is `Shuffling.Shuffle(s, picks)`, where each element of `picks`
  is one draw of the generator. The draws can produce every permutation (`ShuffleReaches`) and
  nothing else. So "some shuffle" in the model means exactly "some permutation".
- **Time.** `System.currentTimeMillis()` becomes a `now` parameter.
- **The injected use case.** It reaches `loadTest` as a `Fetch` value. That value is either the
  list it returned or the exception it threw, together with the exception's message, which may be
  null.
- **Exceptions.**
  - Kotlin's `take` raises on a negative count. That case is `Failure(NegativeLimit)`.
  - `nextQuestion` on an index past the list raises IndexOutOfBounds. That case is the `thrown`
    result, and the state is left unchanged.
- **Arithmetic.** Kotlin's `Int` division truncates toward zero. The model writes this out as
  `TruncDiv`.

Three behaviours of the code are worth knowing before reading the contracts:

- The code has no "cannot start" state for an empty question list. A quiz on an unknown category
  loads an empty list. The quiz screen then shows neither a question nor a Next button, because
  the question view sits behind `uiState.questions.isNotEmpty()` (TestScreen.kt:103). Calling
  `nextQuestion` directly would throw (`UnknownCategoryRun`).
- `nextQuestion` has no guard on `showResult` or `isCompleted` (TestViewModel.kt:52-74). A missing
  selection scores as wrong. A call after completion scores the last question again
  (`RepeatedNextRescores`: 2 correct answers of 1, 200 percent).
- `percentage` truncates toward zero (TestResult.kt:10). On every non-negative tally that is the
  floor of the exact percentage (`TestResult.Percentage`); only a negative tally, which no session
  produces, tells the two apart (`NegativeTallyTruncates`).

## Model

| member | source | states |
|---|---|---|
| TestSession.TestViewModel.constructor | app/src/main/java/com/uztest/avto/presentation/screen/test/TestViewModel.kt:17-20 | A fresh session holds the default `TestUiState` and start time 0, and it is consistent |
| TestSession.TestViewModel.LoadTest | app/src/main/java/com/uztest/avto/presentation/screen/test/TestViewModel.kt:22-38 | On success: the questions and category are installed, loading ends and the clock restarts, with index, score, selection and error untouched. On an exception: only loading and the error message change. A consistent state stays consistent under every load that fits it |
| TestSession.TestViewModel.SelectAnswer | app/src/main/java/com/uztest/avto/presentation/screen/test/TestViewModel.kt:42-50 | The first selection wins. With a selection present or shown, nothing changes, so nothing changes on a completed quiz. Otherwise the selection is recorded and shown and nothing else changes, the score included. Consistency is preserved |
| TestSession.TestViewModel.NextQuestion | app/src/main/java/com/uztest/avto/presentation/screen/test/TestViewModel.kt:52-83 | Throws exactly when the index is past the list, leaving the state unchanged. The score rises by one exactly when the selection equals the correct index, and a missing selection is wrong. A non-final step moves to the next question with the selection cleared. A final step completes with a result over all questions, the new score, the category and time `now - startTime`, with the index kept. Consistency is kept for the step the screen makes |
| TestSession.TestViewModel.RestartTest | app/src/main/java/com/uztest/avto/presentation/screen/test/TestViewModel.kt:85-97 | Index and score are 0. Selection, shown flag, completion and result are cleared. The clock restarts. The questions become a permutation of the previous list. The category is kept, and the state is consistent |
| TestSession.Consistent | app/src/main/java/com/uztest/avto/presentation/screen/test/TestViewModel.kt:42-83 | The invariant the operations keep: a selection exists exactly when it is shown, a result exactly when the quiz is completed, the index stays in bounds, and the score never exceeds the number of questions |
| TestSession.AnsweredCorrectly | app/src/main/java/com/uztest/avto/presentation/screen/test/TestViewModel.kt:54-55 | A missing selection is never correct, and on a well-formed question a correct selection is one of the options shown |
| TestSession.RelaunchFits | app/src/main/java/com/uztest/avto/presentation/screen/test/TestScreen.kt:37-39 | Loading the same category again when the screen is shown anew, over a session in progress or finished, is a load under which `LoadTest` keeps consistency |
| TestSession.CompletedResultInRange | app/src/main/java/com/uztest/avto/presentation/screen/test/TestViewModel.kt:60-74 | A completed consistent session records 0 <= correct <= total == number of questions, and a percentage in 0..100 |
| TestSession.Score | app/src/main/java/com/uztest/avto/presentation/screen/test/TestViewModel.kt:55-57 | Number of positions answered with the correct option, never more than the number of questions |
| TestSession.ScoreAllCorrect | app/src/main/java/com/uztest/avto/presentation/screen/test/TestViewModel.kt:55-57 | Answering every question correctly scores every question |
| TestSession.TakeTest | app/src/main/java/com/uztest/avto/presentation/screen/test/TestViewModel.kt:22-83 | Loading a list and then selecting and pressing Next once per question completes the session. The result holds the category, the list size, exactly the number of correctly answered positions, and the elapsed time |
| TestSession.PerfectRun | app/src/main/java/com/uztest/avto/presentation/screen/test/TestViewModel.kt:52-83 | A session answered without a mistake ends with total == correct == number of questions, 100 percent, and passed |
| TestSession.PerfectCatalogRun | app/src/main/java/com/uztest/avto/presentation/screen/test/TestViewModel.kt:22-83 | A quiz on any of the six catalog categories, answered without a mistake, ends 5 of 5, 100 percent, passed |
| TestSession.UnknownCategoryRun | app/src/main/java/com/uztest/avto/presentation/screen/test/TestViewModel.kt:54 | A quiz on an unknown category cannot be scored: calling `nextQuestion` on its empty list throws and the session is not completed |
| TestSession.RepeatedNextRescores | app/src/main/java/com/uztest/avto/presentation/screen/test/TestViewModel.kt:52-74 | With no guard on completion, Next pressed again on a finished one-question quiz answered correctly scores it twice: 2 correct of 1, 200 percent |
| TestResults.TestResult.Percentage | app/src/main/java/com/uztest/avto/domain/model/TestResult.kt:10 | Truncating `correct * 100 / total`. For a non-negative tally it is the floor of the exact percentage (`p*t <= 100c < (p+1)*t`), and for 0 <= correct <= total it lies in 0..100 |
| TestResults.TruncDiv | app/src/main/java/com/uztest/avto/domain/model/TestResult.kt:10 | Kotlin's `Int` division truncates toward zero: `q * b` lies between zero and the dividend, less than one divisor away from it |
| TestResults.TestResult.IsPassed | app/src/main/java/com/uztest/avto/domain/model/TestResult.kt:11 | Passing (percentage >= 80) holds exactly when at least four fifths of the answers are correct |
| TestResults.PercentageMonotone | app/src/main/java/com/uztest/avto/domain/model/TestResult.kt:10-11 | With the total fixed, more correct answers never lower the percentage nor turn a pass into a fail |
| TestResults.AllCorrectPasses | app/src/main/java/com/uztest/avto/domain/model/TestResult.kt:10-11 | A perfect tally is 100 percent and passes |
| TestResults.PassBoundary | app/src/main/java/com/uztest/avto/domain/model/TestResult.kt:10-11 | The boundary is inclusive: 8 of 10 is 80 and passes, 7 of 10 is 70 and fails |
| TestResults.NegativeTallyTruncates | app/src/main/java/com/uztest/avto/domain/model/TestResult.kt:10 | Division truncates toward zero: -1 of 3 gives -33 |
| Shuffling.Shuffle | app/src/main/java/com/uztest/avto/data/repository/QuestionRepositoryImpl.kt:100 | The shuffled list has the same length and the same elements with the same multiplicities |
| Shuffling.ShuffleReaches | app/src/main/java/com/uztest/avto/data/repository/QuestionRepositoryImpl.kt:100 | Every permutation of the input is produced by some draws |
| Shuffling.PermutationKeepsDistinct | app/src/main/java/com/uztest/avto/data/repository/QuestionRepositoryImpl.kt:100 | Reordering cannot create a duplicate |
| QuestionRepository.CatalogIds | app/src/main/java/com/uztest/avto/data/repository/QuestionRepositoryImpl.kt:21-93 | The catalog has 30 questions with ids 1..30 in declaration order |
| QuestionRepository.CatalogCategoryIds | app/src/main/java/com/uztest/avto/data/repository/QuestionRepositoryImpl.kt:21-93 | Question i (from zero) belongs to category i/5 + 1: five per category, in category order |
| QuestionRepository.CatalogWellFormed | app/src/main/java/com/uztest/avto/data/repository/QuestionRepositoryImpl.kt:21-93 | Every question has four options, and its correct index names one of them |
| QuestionRepository.CatalogLayout | app/src/main/java/com/uztest/avto/data/repository/QuestionRepositoryImpl.kt:21-93 | The catalog follows the block layout: 30 questions, id i + 1, category i/5 + 1 |
| QuestionRepository.CategoriesShape | app/src/main/java/com/uztest/avto/data/repository/QuestionRepositoryImpl.kt:12-19 | Category ids run 1..6, and the advertised totals run 50, 45, ..., 25 |
| QuestionRepository.GetCategories | app/src/main/java/com/uztest/avto/data/repository/QuestionRepositoryImpl.kt:95-97 | The six categories are returned in declaration order, with ids 1..6 |
| QuestionRepository.GetAllQuestions | app/src/main/java/com/uztest/avto/data/repository/QuestionRepositoryImpl.kt:103-105 | The thirty questions are returned in declaration order, with ids 1..30, well formed, and no id repeated |
| QuestionRepository.InCategory | app/src/main/java/com/uztest/avto/data/repository/QuestionRepositoryImpl.kt:100 | The filter keeps exactly the questions of the category, and never more than its input |
| QuestionRepository.Take | app/src/main/java/com/uztest/avto/data/repository/QuestionRepositoryImpl.kt:100 | `take(n)` gives the first min(n, size) elements |
| QuestionRepository.RetrieveFrom | app/src/main/java/com/uztest/avto/data/repository/QuestionRepositoryImpl.kt:99-101 | Fails exactly on a negative limit. Otherwise the size is min(limit, matching), every question is from the catalog and the category, and the multiset is within the matching questions |
| QuestionRepository.GetQuestionsByCategory | app/src/main/java/com/uztest/avto/data/repository/QuestionRepositoryImpl.kt:99-101 | The same contract over the fixed catalog |
| QuestionRepository.InCategoryKeepsDistinct | app/src/main/java/com/uztest/avto/data/repository/QuestionRepositoryImpl.kt:100 | Filtering a list without duplicates keeps it without duplicates |
| QuestionRepository.RetrieveWhole | app/src/main/java/com/uztest/avto/data/repository/QuestionRepositoryImpl.kt:100 | When the limit covers every matching question, retrieval returns the whole shuffle of the category |
| QuestionRepository.CatalogDistinct | app/src/main/java/com/uztest/avto/data/repository/QuestionRepositoryImpl.kt:21-93 | No question occurs twice in the catalog |
| QuestionRepository.CategoryBlock | app/src/main/java/com/uztest/avto/data/repository/QuestionRepositoryImpl.kt:21-93 | Category c in 1..6 selects exactly the five consecutive questions of block c, and any other id selects nothing |
| QuestionRepository.FiveQuestionsPerCategory | app/src/main/java/com/uztest/avto/data/repository/QuestionRepositoryImpl.kt:21-93 | Each category holds exactly five questions |
| QuestionRepository.UnknownCategoryIsEmpty | app/src/main/java/com/uztest/avto/data/repository/QuestionRepositoryImpl.kt:100 | An unknown category id gives an empty list, not an error |
| QuestionRepository.RetrievalHasNoDuplicates | app/src/main/java/com/uztest/avto/data/repository/QuestionRepositoryImpl.kt:100 | A retrieval never repeats a question nor an id |
| QuestionRepository.EveryOrderingRetrievable | app/src/main/java/com/uztest/avto/data/repository/QuestionRepositoryImpl.kt:100 | For every ordering of the category's questions, some draws make retrieval return its first `limit` |
| QuestionRepository.CategoryTotalsAreDisplayOnly | app/src/main/java/com/uztest/avto/data/repository/QuestionRepositoryImpl.kt:12-19 | No category's advertised total equals the number of questions it actually holds |
| TestQuestions.GetTestQuestions | app/src/main/java/com/uztest/avto/domain/usecase/GetTestQuestionsUseCase.kt:10 | The repository's answer for limit 10 is passed on unchanged (it never fails): at most 10 questions, all from the catalog and the category |
| TestQuestions.CatalogCategoryGivesWholeBlock | app/src/main/java/com/uztest/avto/domain/usecase/GetTestQuestionsUseCase.kt:10 | For a catalog category, the quiz is all five of its questions, each once, in some order |
| TestQuestions.UnknownCategoryGivesNoQuestions | app/src/main/java/com/uztest/avto/domain/usecase/GetTestQuestionsUseCase.kt:10 | For an unknown category, the quiz is empty |
| AIChat.Lowercase | app/src/main/java/com/uztest/avto/presentation/screen/aichat/AIChatScreen.kt:151 | Same length, each character lower-cased |
| AIChat.Contains | app/src/main/java/com/uztest/avto/presentation/screen/aichat/AIChatScreen.kt:153-173 | `contains` holds exactly when the keyword occurs at some position |
| AIChat.GetAIResponse | app/src/main/java/com/uztest/avto/presentation/screen/aichat/AIChatScreen.kt:150-177 | The reply is always one of the eight fixed texts |
| AIChat.ReplyToLowered | app/src/main/java/com/uztest/avto/presentation/screen/aichat/AIChatScreen.kt:153-177 | The `when` chain alone, on an already lower-cased message, also yields one of the eight texts |
| AIChat.ResponseFollowsTable | app/src/main/java/com/uztest/avto/presentation/screen/aichat/AIChatScreen.kt:153-177 | The reply is the first firing rule of the ordered keyword table on the lower-cased message, or the fallback |
| AIChat.FirstFiringRuleWins | app/src/main/java/com/uztest/avto/presentation/screen/aichat/AIChatScreen.kt:153-177 | In an ordered table, the first rule that fires decides the reply |
| AIChat.NoFiringRuleFallsBack | app/src/main/java/com/uztest/avto/presentation/screen/aichat/AIChatScreen.kt:175-176 | When no rule fires, the reply is the fallback |
| AIChat.FirstMatchIsFirstFiring | app/src/main/java/com/uztest/avto/presentation/screen/aichat/AIChatScreen.kt:153-177 | The reply is the fallback, or the reply of a firing rule with no earlier firing rule |
| AIChat.RepliesDistinct | app/src/main/java/com/uztest/avto/presentation/screen/aichat/AIChatScreen.kt:153-177 | The eight replies are pairwise different, and rule k answers with reply k |
| AIChat.RuleRepliesDistinct | app/src/main/java/com/uztest/avto/presentation/screen/aichat/AIChatScreen.kt:153-174 | Different keyword groups answer with different texts |
| AIChat.RulesAvoidFallback | app/src/main/java/com/uztest/avto/presentation/screen/aichat/AIChatScreen.kt:153-177 | No keyword group answers with the fallback text |
| AIChat.ReplyIsRuleIff | app/src/main/java/com/uztest/avto/presentation/screen/aichat/AIChatScreen.kt:153-174 | The reply is rule k's exactly when rule k fires and no earlier rule does |
| AIChat.FallbackIff | app/src/main/java/com/uztest/avto/presentation/screen/aichat/AIChatScreen.kt:175-176 | The fallback is given exactly when no keyword occurs |
| AIChat.CaseInsensitive | app/src/main/java/com/uztest/avto/presentation/screen/aichat/AIChatScreen.kt:151 | Messages that differ only in letter case get the same reply |
| AIChat.EarlierGroupWins | app/src/main/java/com/uztest/avto/presentation/screen/aichat/AIChatScreen.kt:153-164 | A message containing "speed limit" gets the speed-limit reply and never the parking reply |
| AIChat.SharedReplies | app/src/main/java/com/uztest/avto/presentation/screen/aichat/AIChatScreen.kt:169-173 | "merge" and "highway" lead to one reply, and so do "rain" and "weather", once no earlier group fires |
| AIChat.IsWhitespace | app/src/main/java/com/uztest/avto/presentation/screen/aichat/AIChatScreen.kt:90 | Space, tab and the line breaks are whitespace, and no ASCII letter or digit is |
| AIChat.IsNotBlank | app/src/main/java/com/uztest/avto/presentation/screen/aichat/AIChatScreen.kt:90 | The empty text is blank, and a text holding an ASCII letter or digit is not |
| AIChat.Exchange | app/src/main/java/com/uztest/avto/presentation/screen/aichat/AIChatScreen.kt:89-101 | One send adds the user's bubble with the text, then an assistant bubble holding the reply to that text, which is one of the fixed replies |
| AIChat.UserBubblesAnswered | app/src/main/java/com/uztest/avto/presentation/screen/aichat/AIChatScreen.kt:89-101 | In any conversation of greetings and exchanges, each user bubble is non-blank and is directly followed by the reply to its text |
| AIChat.OtherBubblesAnswer | app/src/main/java/com/uztest/avto/presentation/screen/aichat/AIChatScreen.kt:89-101 | In any such conversation, each non-user bubble is the greeting or the reply to the user bubble before it |
| AIChat.UserMessagesAreAnswered | app/src/main/java/com/uztest/avto/presentation/screen/aichat/AIChatScreen.kt:89-101 | In any transcript, each user bubble is non-blank and is directly followed by the reply to exactly that text |
| AIChat.AssistantMessagesAnswer | app/src/main/java/com/uztest/avto/presentation/screen/aichat/AIChatScreen.kt:89-101 | In any transcript, each assistant bubble is the greeting or the reply to the user bubble before it |
| AIChat.ChatScreen.constructor | app/src/main/java/com/uztest/avto/presentation/screen/aichat/AIChatScreen.kt:20-21 | The field is empty and there are no bubbles |
| AIChat.ChatScreen.OnLaunch | app/src/main/java/com/uztest/avto/presentation/screen/aichat/AIChatScreen.kt:23-30 | The greeting bubble is appended, and the transcript stays valid |
| AIChat.ChatScreen.OnValueChange | app/src/main/java/com/uztest/avto/presentation/screen/aichat/AIChatScreen.kt:80 | The field takes the typed text |
| AIChat.ChatScreen.OnSend | app/src/main/java/com/uztest/avto/presentation/screen/aichat/AIChatScreen.kt:89-103 | Non-blank text appends exactly the user bubble and then its reply, and clears the field. Blank text changes nothing. The transcript stays valid |
| AIChat.Converse | app/src/main/java/com/uztest/avto/presentation/screen/aichat/AIChatScreen.kt:19-103 | A session of launch and then sends shows the greeting followed by one exchange per non-blank input, and that is a valid transcript |

## Left out

- Coroutines, `viewModelScope`, `StateFlow` and `suspend`. Each operation is one atomic step, so
  `loadTest`'s transient `isLoading = true` snapshot is set and then overwritten within that step.
- The clock and the random generator. They are parameters (`now`, `picks`). `nextQuestion` reads
  the clock twice, once for `timeSpent` and once for `completedAt`; the model uses one reading
  for both.
- TestResults.TestResult.Percentage: does not model 32-bit overflow of `correctAnswers * 100`.
  That overflow needs more than 21 million correct answers, and no quiz has more than ten
  questions.
- TestSession.TestViewModel.NextQuestion: consistency is promised only for the call the screen
  makes, from a quiz in progress with its selection shown. Calls out of that order (before a
  selection, or after completion) are modelled exactly but may leave the invariant.
- TestSession.TestViewModel.LoadTest: consistency is promised only for loads that fit the
  current state: a failed load, a load before completion whose list still holds the index, or a
  reload of a completed quiz with a list of the same length for the same category. The screen
  reloads whenever it is shown anew (TestScreen.kt:37-39), and every such reload fits
  (`RelaunchFits`). A load of a different-length list over a completed quiz is modelled exactly
  but may leave the invariant.
- AIChat.Lowercase: lower-cases only ASCII letters. Kotlin's `lowercase()` applies the full
  Unicode mapping, and some non-ASCII letters lower-case to ASCII ones. For example the Kelvin
  sign U+212A becomes `k`, so "PAR\u212AING" gets the parking reply in the app and the fallback in
  the model.
- Compose rendering: layout, colours, the message bubbles, the navigation, and the float progress
  bar of the quiz screen (floating point).
