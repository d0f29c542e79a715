/** The session state machine held by the `App` component of src/App.tsx:
    its `useState` fields, the click handlers and the one-second timer effect.
    Each handler's `modifies` frame names the fields it sets; every other
    field keeps its value. */
module QuizSession {
  import opened Quiz
  import opened Shuffle

  class Session {
    var appState: AppState
    var selectedWeek: Option<Week>
    var questions: seq<Question>
    var currentQuestion: int
    var score: int
    var scoreText: string
    var showExplanation: bool
    var timeLeft: int
    var isActive: bool
    var selectedOption: Option<string>
    var message: string

    /** Questions answered since the last week selection or restart. */
    ghost var answered: nat
    /** Whether the question under the cursor has been answered. */
    ghost var answeredCurrent: bool

    /** What every handler keeps true. */
    ghost predicate Valid()
      reads this
    {
      // the cursor is on a question, or at 0 when there are none
      0 <= currentQuestion && (currentQuestion < |questions| || currentQuestion == 0)
      // the questions are always an ordering of the selected week's bank
      && (selectedWeek.None? ==> questions == [])
      && (selectedWeek.Some? ==> multiset(questions) == multiset(selectedWeek.value.questions))
      && (appState == QuizScreen ==> selectedWeek.Some?)
      // the clock stays within the week's allowance and never goes negative
      && 0 <= timeLeft <= Duration(selectedWeek)
      && scoreText == ScoreTextFor(score)
      && (isActive ==> !showExplanation)
      // each question moves the score at most once
      && (answeredCurrent ==> showExplanation && currentQuestion < |questions|)
      && answered <= currentQuestion + (if answeredCurrent then 1 else 0)
      && -(answered as int) <= score <= answered
    }

    /** The score never moves further from 0 than the number of questions. */
    lemma ScoreWithinQuestionCount()
      requires Valid()
      ensures -|questions| <= score <= |questions|
    {
    }

    /** The initial `useState` values. */
    constructor ()
      ensures Valid()
      ensures appState == Welcome && selectedWeek == None && questions == []
      ensures currentQuestion == 0 && score == 0 && scoreText == "" && !showExplanation
      ensures timeLeft == LongDuration && !isActive && selectedOption == None && message == ""
    {
      appState := Welcome;
      selectedWeek := None;
      questions := [];
      currentQuestion := 0;
      score := 0;
      scoreText := "";
      showExplanation := false;
      timeLeft := Duration(None);
      isActive := false;
      selectedOption := None;
      message := "";
      answered := 0;
      answeredCurrent := false;
    }

    /** The "Start" button of the welcome screen. */
    method GoToWeekSelect()
      requires Valid()
      modifies this`appState
      ensures Valid()
      ensures appState == WeekSelect
    {
      appState := WeekSelect;
    }

    /** The "Back to Welcome" button of the week menu. */
    method BackToWelcome()
      requires Valid()
      modifies this`appState
      ensures Valid()
      ensures appState == Welcome
    {
      appState := Welcome;
    }

    /** The resets that choosing a week and restarting share: `qs` from the
        first question on, no score, the clock running from `seconds`,
        nothing chosen and no message. */
    method StartRound(qs: seq<Question>, seconds: int)
      modifies this`questions, this`currentQuestion, this`score, this`scoreText,
               this`showExplanation, this`timeLeft, this`isActive, this`message,
               this`selectedOption, this`answered, this`answeredCurrent
      ensures questions == qs && currentQuestion == 0 && score == 0 && scoreText == ""
      ensures !showExplanation && timeLeft == seconds && isActive
      ensures selectedOption == None && message == ""
      ensures answered == 0 && !answeredCurrent
    {
      questions := qs;
      currentQuestion := 0;
      score := 0;
      scoreText := "";
      showExplanation := false;
      timeLeft := seconds;
      isActive := true;
      message := "";
      selectedOption := None;
      answered := 0;
      answeredCurrent := false;
    }

    /** Choosing a week starts a fresh quiz on a shuffle of its bank. The
        state is the one after the effect on `selectedWeek` has run too; that
        effect runs on every choice, because the menu entries are rebuilt on
        every render and so never equal the previous selection. */
    method SelectWeek(week: Week, draws: seq<nat>)
      requires ValidDraws(draws, |week.questions|)
      modifies this
      ensures Valid()
      ensures appState == QuizScreen && selectedWeek == Some(week)
      ensures questions == FisherYates(week.questions, draws)
      ensures currentQuestion == 0 && score == 0 && scoreText == "" && !showExplanation
      ensures timeLeft == Duration(Some(week)) && isActive && selectedOption == None && message == ""
      ensures answered == 0 && !answeredCurrent
    {
      // the `shuffleArray` call of the effect on `selectedWeek`, see below
      var shuffled := ShuffledCopy(week.questions, draws);
      // The handler computes the clock from the week selected BEFORE this
      // call, because React has not applied the new selection yet.
      var staleTime := Duration(selectedWeek);
      selectedWeek, appState := Some(week), QuizScreen;
      StartRound(questions, staleTime);
      // The effect on `selectedWeek` then installs the shuffled bank and
      // overrides the clock with the new week's allowance.
      questions, timeLeft := shuffled, Duration(selectedWeek);
    }

    /** An option was clicked. A click is ignored while the explanation is
        shown, so the handler runs only when `showExplanation` is false. */
    method HandleAnswer(option: string, pick: nat)
      requires Valid()
      requires !showExplanation
      requires currentQuestion < |questions|
      requires pick < |CorrectMessages| && pick < |IncorrectMessages|
      modifies this`selectedOption, this`score, this`scoreText, this`message,
               this`showExplanation, this`isActive, this`answered, this`answeredCurrent
      ensures Valid()
      ensures var correct := IsCorrect(questions[currentQuestion], option);
              score == old(score) + (if correct then 1 else -1)
              && message == (if correct then CorrectMessages[pick] else IncorrectMessages[pick])
      ensures scoreText == ScoreTextFor(score)
      ensures showExplanation && !isActive && selectedOption == Some(option)
      ensures answered == old(answered) + 1 && answeredCurrent
    {
      var correct := IsCorrect(questions[currentQuestion], option);
      var newScore, newMessage;
      if correct {
        newScore, newMessage := score + 1, CorrectMessages[pick];
      } else {
        newScore, newMessage := score - 1, IncorrectMessages[pick];
      }
      answered, answeredCurrent := answered + 1, true;
      StopClock(newMessage);
      selectedOption, score, scoreText := Some(option), newScore, ScoreTextFor(newScore);
    }

    /** What an answer and a timeout share: the clock stops, the explanation
        is shown and `msg` becomes the message. */
    method StopClock(msg: string)
      modifies this`isActive, this`showExplanation, this`message
      ensures !isActive && showExplanation && message == msg
    {
      isActive, showExplanation, message := false, true, msg;
    }

    /** Moves to the next question and restarts its clock; at the last
        question, or with no questions, nothing changes. */
    method NextQuestion()
      requires Valid()
      modifies this`currentQuestion, this`showExplanation, this`timeLeft, this`isActive,
               this`message, this`selectedOption, this`answeredCurrent
      ensures Valid()
      ensures if old(currentQuestion) < |questions| - 1 then
                currentQuestion == old(currentQuestion) + 1
                && !showExplanation && timeLeft == Duration(selectedWeek) && isActive
                && message == "" && selectedOption == None && !answeredCurrent
              else
                currentQuestion == old(currentQuestion)
                && showExplanation == old(showExplanation) && timeLeft == old(timeLeft)
                && isActive == old(isActive) && message == old(message)
                && selectedOption == old(selectedOption) && answeredCurrent == old(answeredCurrent)
    {
      if currentQuestion < |questions| - 1 {
        currentQuestion := currentQuestion + 1;
        showExplanation, timeLeft, isActive := false, Duration(selectedWeek), true;
        message, selectedOption := "", None;
        answeredCurrent := false;
      }
    }

    /** The "Restart Quiz" button: the same week again, reshuffled. */
    method ResetQuiz(draws: seq<nat>)
      requires Valid()
      requires selectedWeek.Some? ==> ValidDraws(draws, |selectedWeek.value.questions|)
      modifies this`questions, this`currentQuestion, this`score, this`scoreText,
               this`showExplanation, this`timeLeft, this`isActive, this`message,
               this`selectedOption, this`answered, this`answeredCurrent
      ensures Valid()
      ensures questions == if selectedWeek.Some?
                           then FisherYates(selectedWeek.value.questions, draws)
                           else old(questions)
      ensures currentQuestion == 0 && score == 0 && scoreText == "" && !showExplanation
      ensures timeLeft == Duration(selectedWeek) && isActive && selectedOption == None && message == ""
      ensures answered == 0 && !answeredCurrent
    {
      var reordered := questions;
      if selectedWeek.Some? {
        reordered := ShuffledCopy(selectedWeek.value.questions, draws);
      }
      StartRound(reordered, Duration(selectedWeek));
    }

    /** The "Change Week" button: back to the menu with the clock stopped. */
    method BackToWeekSelect()
      requires Valid()
      modifies this`appState, this`isActive
      ensures Valid()
      ensures appState == WeekSelect && !isActive
    {
      appState, isActive := WeekSelect, false;
    }

    /** One run of the timer effect. While the clock runs with time left, one
        second passes. Once it has reached 0 it stops and the explanation is
        shown; the score is not touched. A stopped clock does nothing. */
    method Tick(pick: nat)
      requires Valid()
      requires pick < |IncorrectMessages|
      modifies this`timeLeft, this`isActive, this`showExplanation, this`message
      ensures Valid()
      ensures if old(isActive) && old(timeLeft) > 0 then
                timeLeft == old(timeLeft) - 1 && isActive
                && showExplanation == old(showExplanation) && message == old(message)
              else if old(timeLeft) == 0 && old(isActive) then
                timeLeft == 0 && !isActive && showExplanation && message == IncorrectMessages[pick]
              else
                timeLeft == old(timeLeft) && isActive == old(isActive)
                && showExplanation == old(showExplanation) && message == old(message)
      ensures 0 <= timeLeft <= old(timeLeft)
    {
      if isActive && timeLeft > 0 {
        timeLeft := timeLeft - 1;
      } else if timeLeft == 0 && isActive {
        StopClock(IncorrectMessages[pick]);
      }
    }

    /** Whether the "Next Question" button is shown. */
    predicate NextVisible()
      reads this
    {
      showExplanation && currentQuestion < |questions| - 1
    }

    /** Whether the "Restart Quiz" button is shown. */
    predicate RestartVisible()
      reads this
    {
      showExplanation && currentQuestion == |questions| - 1
    }

    /** Once the explanation is shown, exactly one of the two buttons appears,
        unless there are no questions, in which case neither does. */
    lemma OneWayOn()
      requires Valid() && showExplanation
      ensures questions != [] ==> NextVisible() != RestartVisible()
      ensures questions == [] ==> !NextVisible() && !RestartVisible()
    {
    }
  }
}
