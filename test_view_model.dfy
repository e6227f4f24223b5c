/**
 * The quiz session (TestViewModel.kt): one `TestUiState` snapshot and the clock reading the quiz
 * started at, changed only by loading, selecting an answer, moving to the next question and
 * restarting. Each operation is one atomic step; clock readings and shuffle draws are parameters.
 */
module TestSession {
  import opened Wrappers
  import opened Domain
  import opened TestResults
  import opened Shuffling
  import opened TestQuestions

  /** The snapshot the screen renders (`TestUiState`); every field has the data class's default in `InitialUiState`. */
  datatype TestUiState = TestUiState(
    questions: seq<Question>,
    currentQuestionIndex: nat,
    correctAnswers: nat,
    selectedAnswer: Option<int>,
    showResult: bool,
    isCompleted: bool,
    testResult: Option<TestResult>,
    categoryId: int,
    isLoading: bool,
    error: Option<string>)

  const InitialUiState: TestUiState := TestUiState([], 0, 0, None, false, false, None, 0, false, None)

  /** What the injected use case gave `loadTest`: a list of questions, or an exception and its message, which may be null. */
  datatype Fetch = Fetched(questions: seq<Question>) | Threw(message: Option<string>)

  /**
   * The facts every state reachable through the screen satisfies: a selection exists exactly when
   * it is shown, a result exists exactly when the quiz is completed, the index stays in bounds, the
   * score never exceeds the number of questions scored, and a completed quiz sits on its last
   * question with a result that records the session's own tally. In particular the score never
   * exceeds the number of questions.
   */
  ghost predicate Consistent(s: TestUiState)
    ensures Consistent(s) && |s.questions| > 0 ==> s.correctAnswers <= |s.questions|
  {
    && s.selectedAnswer.Some? == s.showResult
    && s.isCompleted == s.testResult.Some?
    && (|s.questions| > 0 ==> s.currentQuestionIndex < |s.questions|)
    && s.correctAnswers <= s.currentQuestionIndex + (if s.isCompleted then 1 else 0)
    && (s.isCompleted ==>
          && s.showResult
          && |s.questions| > 0
          && s.currentQuestionIndex == |s.questions| - 1
          && s.testResult.value.totalQuestions == |s.questions|
          && s.testResult.value.correctAnswers == s.correctAnswers
          && s.testResult.value.categoryId == s.categoryId)
  }

  /**
   * A load of `categoryId` that cannot break consistency: it failed; or it comes before completion
   * and the new list still holds the current index (always so for the first load of a fresh
   * session); or it reloads a completed quiz with a list of the same length for the same category,
   * as the screen does when it is shown again over a finished session.
   */
  predicate LoadFits(s: TestUiState, categoryId: int, fetch: Fetch) {
    || fetch.Threw?
    || (!s.isCompleted && (|fetch.questions| == 0 || s.currentQuestionIndex < |fetch.questions|))
    || (s.isCompleted && |fetch.questions| == |s.questions| && categoryId == s.categoryId)
  }

  /**
   * The question on screen was answered with its correct option. A missing selection is wrong, and
   * on a well-formed question a correct selection is one of the options shown.
   */
  predicate AnsweredCorrectly(s: TestUiState)
    requires s.currentQuestionIndex < |s.questions|
    ensures s.selectedAnswer.None? ==> !AnsweredCorrectly(s)
    ensures AnsweredCorrectly(s) && WellFormed(s.questions[s.currentQuestionIndex]) ==>
              0 <= s.selectedAnswer.value < |s.questions[s.currentQuestionIndex].options|
  {
    s.selectedAnswer == Some(s.questions[s.currentQuestionIndex].correctAnswerIndex)
  }

  /**
   * The screen loads its category again whenever it is shown anew, over a session that may be in
   * progress or finished. Every list the use case gives for one category has the same length, so
   * such a reload, from any consistent session on that category's list, keeps consistency.
   */
  lemma RelaunchFits(s: TestUiState, categoryId: int, earlier: seq<nat>, picks: seq<nat>)
    requires Consistent(s) && s.categoryId == categoryId
    requires |s.questions| == |GetTestQuestions(categoryId, earlier)|
    ensures LoadFits(s, categoryId, Fetched(GetTestQuestions(categoryId, picks)))
  {
    if 1 <= categoryId <= 6 {
      CatalogCategoryGivesWholeBlock(categoryId, earlier);
      CatalogCategoryGivesWholeBlock(categoryId, picks);
    } else {
      UnknownCategoryGivesNoQuestions(categoryId, earlier);
      UnknownCategoryGivesNoQuestions(categoryId, picks);
    }
  }

  /** The result of a completed consistent session is a meaningful tally: a score from 0 to 100 percent. */
  lemma CompletedResultInRange(s: TestUiState)
    requires Consistent(s) && s.isCompleted
    ensures 0 <= s.testResult.value.correctAnswers <= s.testResult.value.totalQuestions == |s.questions|
    ensures 0 <= s.testResult.value.Percentage() <= 100
  {
  }

  class TestViewModel {
    var uiState: TestUiState
    var startTime: int

    ghost predicate Valid()
      reads this
    {
      Consistent(uiState)
    }

    constructor()
      ensures uiState == InitialUiState && startTime == 0
      ensures Valid()
    {
      uiState := InitialUiState;
      startTime := 0;
    }

    /**
     * `loadTest`: on success, install the questions and the category and restart the clock; on an
     * exception, record its message. Either way loading ends. Index, score and selection are left
     * as they were, so consistency survives every load that `LoadFits`, reloads included.
     */
    method LoadTest(categoryId: int, fetch: Fetch, now: int)
      modifies this
      ensures fetch.Fetched? ==>
                && uiState == old(uiState).(questions := fetch.questions, categoryId := categoryId, isLoading := false)
                && startTime == now
      ensures fetch.Threw? ==>
                && uiState == old(uiState).(isLoading := false, error := fetch.message)
                && startTime == old(startTime)
      ensures old(Valid()) && LoadFits(old(uiState), categoryId, fetch) ==> Valid()
    {
      uiState := uiState.(isLoading := true);
      match fetch {
        case Fetched(questions) =>
          startTime := now;
          uiState := uiState.(questions := questions, categoryId := categoryId, isLoading := false);
        case Threw(message) =>
          uiState := uiState.(isLoading := false, error := message);
      }
    }

    /**
     * `selectAnswer`: the first selection for a question wins. Once an answer is selected or shown
     * (and so on a completed quiz) the call changes nothing; otherwise it records the answer and
     * reveals it, leaving the score alone.
     */
    method SelectAnswer(answerIndex: int)
      modifies this`uiState
      ensures old(uiState.selectedAnswer.Some? || uiState.showResult) ==> uiState == old(uiState)
      ensures !old(uiState.selectedAnswer.Some? || uiState.showResult) ==>
                uiState == old(uiState).(selectedAnswer := Some(answerIndex), showResult := true)
      ensures old(Valid() && uiState.isCompleted) ==> uiState == old(uiState)
      ensures old(Valid()) ==> Valid()
    {
      var currentState := uiState;
      if currentState.selectedAnswer.Some? || currentState.showResult {
        return;
      }
      uiState := currentState.(selectedAnswer := Some(answerIndex), showResult := true);
    }

    /**
     * `nextQuestion`: score the question on screen (one more correct answer exactly when the
     * selection is its correct option) and either move to the next question with the selection
     * cleared, or, on the last question, complete with a result over all the questions whose time
     * is `now` less the start time. Reading the question at an index past the list (an empty list)
     * throws in the source: `thrown` reports it and nothing changes. There is no guard on a shown
     * selection nor on completion; consistency is promised for the call the screen makes, from a
     * quiz in progress with its selection shown.
     */
    method NextQuestion(now: int) returns (thrown: bool)
      modifies this`uiState
      ensures thrown <==> old(uiState.currentQuestionIndex) >= |old(uiState.questions)|
      ensures thrown ==> uiState == old(uiState)
      ensures !thrown ==>
                uiState.correctAnswers == old(uiState.correctAnswers) + (if AnsweredCorrectly(old(uiState)) then 1 else 0)
      ensures !thrown && old(uiState.currentQuestionIndex) + 1 >= |old(uiState.questions)| ==>
                uiState == old(uiState).(
                  correctAnswers := uiState.correctAnswers,
                  isCompleted := true,
                  testResult := Some(TestResult(old(uiState.categoryId), |old(uiState.questions)|,
                                                uiState.correctAnswers, now - startTime, now)))
      ensures !thrown && old(uiState.currentQuestionIndex) + 1 < |old(uiState.questions)| ==>
                uiState == old(uiState).(
                  currentQuestionIndex := old(uiState.currentQuestionIndex) + 1,
                  correctAnswers := uiState.correctAnswers,
                  selectedAnswer := None,
                  showResult := false)
      ensures old(Valid() && !uiState.isCompleted && uiState.showResult) ==> Valid()
    {
      var currentState := uiState;
      if currentState.currentQuestionIndex >= |currentState.questions| {
        return true;
      }
      thrown := false;
      var currentQuestion := currentState.questions[currentState.currentQuestionIndex];
      var isCorrect := currentState.selectedAnswer == Some(currentQuestion.correctAnswerIndex);
      var newCorrectAnswers := if isCorrect then currentState.correctAnswers + 1 else currentState.correctAnswers;
      var newQuestionIndex := currentState.currentQuestionIndex + 1;
      if newQuestionIndex >= |currentState.questions| {
        var timeSpent := now - startTime;
        var testResult := TestResult(currentState.categoryId, |currentState.questions|, newCorrectAnswers, timeSpent, now);
        uiState := currentState.(correctAnswers := newCorrectAnswers, isCompleted := true, testResult := Some(testResult));
      } else {
        uiState := currentState.(
          currentQuestionIndex := newQuestionIndex,
          correctAnswers := newCorrectAnswers,
          selectedAnswer := None,
          showResult := false);
      }
    }

    /**
     * `restartTest`: back to the first question with a zero score, no selection, no result, the
     * clock restarted at `now`, and the same questions reshuffled by the draws `picks` (a
     * permutation of the previous list). The category is kept.
     */
    method RestartTest(now: int, picks: seq<nat>)
      modifies this
      ensures startTime == now
      ensures uiState == old(uiState).(
                currentQuestionIndex := 0,
                correctAnswers := 0,
                selectedAnswer := None,
                showResult := false,
                isCompleted := false,
                testResult := None,
                questions := Shuffle(old(uiState.questions), picks))
      ensures multiset(uiState.questions) == multiset(old(uiState.questions))
      ensures Valid()
    {
      var currentState := uiState;
      startTime := now;
      uiState := currentState.(
        currentQuestionIndex := 0,
        correctAnswers := 0,
        selectedAnswer := None,
        showResult := false,
        isCompleted := false,
        testResult := None,
        questions := Shuffle(currentState.questions, picks));
    }
  }

  /** How many of `answers` pick the correct option of the question at the same position. */
  function Score(qs: seq<Question>, answers: seq<int>): (n: nat)
    requires |answers| == |qs|
    ensures n <= |qs|
  {
    if |qs| == 0 then 0
    else
      Score(qs[..|qs| - 1], answers[..|qs| - 1])
        + (if answers[|qs| - 1] == qs[|qs| - 1].correctAnswerIndex then 1 else 0)
  }

  /** Answering every question with its correct option scores every question. */
  lemma {:induction false} ScoreAllCorrect(qs: seq<Question>, answers: seq<int>)
    requires |answers| == |qs|
    requires forall i :: 0 <= i < |qs| ==> answers[i] == qs[i].correctAnswerIndex
    ensures Score(qs, answers) == |qs|
    decreases |qs|
  {
    if |qs| > 0 {
      ScoreAllCorrect(qs[..|qs| - 1], answers[..|qs| - 1]);
    }
  }

  /**
   * One pass through the screen: load `qs`, then for each question select `answers[i]` and press
   * Next. The session completes with a result over all the questions whose score counts exactly
   * the positions answered correctly, and whose time is the span between the two clock readings.
   */
  method TakeTest(categoryId: int, qs: seq<Question>, answers: seq<int>, loadedAt: int, finishedAt: int)
    returns (result: TestResult)
    requires 0 < |qs| == |answers|
    ensures result == TestResult(categoryId, |qs|, Score(qs, answers), finishedAt - loadedAt, finishedAt)
  {
    var vm := new TestViewModel();
    vm.LoadTest(categoryId, Fetched(qs), loadedAt);
    var i := 0;
    while !vm.uiState.isCompleted
      invariant 0 <= i <= |qs|
      invariant vm.Valid()
      invariant vm.uiState.questions == qs && vm.uiState.categoryId == categoryId && vm.startTime == loadedAt
      invariant !vm.uiState.isCompleted ==>
                  && vm.uiState.currentQuestionIndex == i < |qs|
                  && !vm.uiState.showResult
                  && vm.uiState.correctAnswers == Score(qs[..i], answers[..i])
      invariant vm.uiState.isCompleted ==>
                  vm.uiState.testResult == Some(TestResult(categoryId, |qs|, Score(qs, answers), finishedAt - loadedAt, finishedAt))
      decreases |qs| - i
    {
      vm.SelectAnswer(answers[i]);
      var thrown := vm.NextQuestion(finishedAt);
      assert qs[..i + 1][..i] == qs[..i] && answers[..i + 1][..i] == answers[..i];
      i := i + 1;
      assert i == |qs| ==> qs[..i] == qs && answers[..i] == answers;
    }
    result := vm.uiState.testResult.value;
  }

  /** A quiz answered without a mistake scores every question, hence 100 percent and a pass. */
  method PerfectRun(categoryId: int, qs: seq<Question>, loadedAt: int, finishedAt: int) returns (result: TestResult)
    requires 0 < |qs|
    ensures result.categoryId == categoryId
    ensures result.totalQuestions == result.correctAnswers == |qs|
    ensures result.Percentage() == 100 && result.IsPassed()
  {
    var answers := seq(|qs|, i requires 0 <= i < |qs| => qs[i].correctAnswerIndex);
    ScoreAllCorrect(qs, answers);
    result := TakeTest(categoryId, qs, answers, loadedAt, finishedAt);
    AllCorrectPasses(result);
  }

  /** The screen's quiz on a catalog category answered without a mistake: five of five, 100 percent, passed. */
  method PerfectCatalogRun(categoryId: int, picks: seq<nat>, loadedAt: int, finishedAt: int) returns (result: TestResult)
    requires 1 <= categoryId <= 6
    ensures result.categoryId == categoryId
    ensures result.totalQuestions == 5 && result.correctAnswers == 5
    ensures result.Percentage() == 100 && result.IsPassed()
  {
    var qs := GetTestQuestions(categoryId, picks);
    CatalogCategoryGivesWholeBlock(categoryId, picks);
    result := PerfectRun(categoryId, qs, loadedAt, finishedAt);
  }

  /**
   * A quiz on an unknown category loads no questions and can never be scored: pressing Next would
   * read past the empty list and throw, and the session stays not completed.
   */
  method UnknownCategoryRun(categoryId: int, picks: seq<nat>, now: int) returns (thrown: bool, completed: bool)
    requires !(1 <= categoryId <= 6)
    ensures thrown && !completed
  {
    var vm := new TestViewModel();
    UnknownCategoryGivesNoQuestions(categoryId, picks);
    vm.LoadTest(categoryId, Fetched(GetTestQuestions(categoryId, picks)), now);
    thrown := vm.NextQuestion(now);
    completed := vm.uiState.isCompleted;
  }

  /**
   * `nextQuestion` has no guard on completion: pressing Next again on a finished one-question quiz
   * scores its last question a second time, giving 2 correct answers of 1 and 200 percent.
   */
  method RepeatedNextRescores(q: Question, loadedAt: int, now: int) returns (result: TestResult)
    ensures result.totalQuestions == 1 && result.correctAnswers == 2
    ensures result.Percentage() == 200
  {
    var vm := new TestViewModel();
    vm.LoadTest(q.category.id, Fetched([q]), loadedAt);
    vm.SelectAnswer(q.correctAnswerIndex);
    var thrown := vm.NextQuestion(now);
    thrown := vm.NextQuestion(now);
    result := vm.uiState.testResult.value;
  }
}
